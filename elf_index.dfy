/**
 * The name-keyed collections the model builds from the symbol table and the
 * section table, as functions of the decoded tables, with the properties the
 * builders promise: a symbol multimap that keeps every retained entry in
 * table order, and a section map in which the last retained entry of a name wins.
 */
module ElfIndex {
  import opened ElfRecords
  import opened Classification

  // ---------------------------------------------------------------- symbols

  /** Appends s to the list stored under its name, starting a new list when there is none. */
  function AppendSymbol(index: map<string, seq<Symbol>>, s: Symbol): map<string, seq<Symbol>>
  {
    index[s.name := (if s.name in index then index[s.name] else []) + [s]]
  }

  /** The symbol multimap after the builder has walked the whole table. */
  function SymbolIndex(table: seq<RawSymbol>): map<string, seq<Symbol>>
  {
    if table == [] then map[]
    else
      var prev := SymbolIndex(table[..|table| - 1]);
      var s := SymbolFromElf(table[|table| - 1]);
      if KeepSymbol(s) then AppendSymbol(prev, s) else prev
  }

  /** Reference definition: the kept symbols of the table named n, in table order. */
  function RetainedNamed(table: seq<RawSymbol>, n: string): seq<Symbol>
  {
    if table == [] then []
    else
      var s := SymbolFromElf(table[0]);
      (if KeepSymbol(s) && s.name == n then [s] else []) + RetainedNamed(table[1..], n)
  }

  lemma {:induction false} RetainedNamedSnoc(table: seq<RawSymbol>, x: RawSymbol, n: string)
    ensures RetainedNamed(table + [x], n) ==
      RetainedNamed(table, n) + (if KeepSymbol(SymbolFromElf(x)) && x.name == n then [SymbolFromElf(x)] else [])
    decreases |table|
  {
    if table != [] {
      assert (table + [x])[1..] == table[1..] + [x];
      RetainedNamedSnoc(table[1..], x, n);
    } else {
      assert [x][1..] == [];
    }
  }

  /**
   * After the build, the list stored under n is exactly the kept symbols
   * named n in table order, and n is a key exactly when there is one.
   */
  lemma {:induction false} SymbolIndexIsFilter(table: seq<RawSymbol>, n: string)
    ensures n in SymbolIndex(table) <==> RetainedNamed(table, n) != []
    ensures n in SymbolIndex(table) ==> SymbolIndex(table)[n] == RetainedNamed(table, n)
    decreases |table|
  {
    if table != [] {
      var init := table[..|table| - 1];
      var x := table[|table| - 1];
      assert init + [x] == table;
      SymbolIndexIsFilter(init, n);
      RetainedNamedSnoc(init, x, n);
    }
  }

  /** No stored list is empty. */
  lemma {:induction false} SymbolListsNonEmpty(table: seq<RawSymbol>, n: string)
    requires n in SymbolIndex(table)
    ensures SymbolIndex(table)[n] != []
  {
    SymbolIndexIsFilter(table, n);
  }

  lemma {:induction false} RetainedNamedContains(table: seq<RawSymbol>, i: int)
    requires 0 <= i < |table| && KeepSymbol(SymbolFromElf(table[i]))
    ensures SymbolFromElf(table[i]) in RetainedNamed(table, table[i].name)
    decreases |table|
  {
    if i > 0 {
      RetainedNamedContains(table[1..], i - 1);
    }
  }

  lemma {:induction false} RetainedNamedSound(table: seq<RawSymbol>, n: string, s: Symbol)
    requires s in RetainedNamed(table, n)
    ensures s.name == n && KeepSymbol(s)
    ensures exists i :: 0 <= i < |table| && SymbolFromElf(table[i]) == s
    decreases |table|
  {
    var head := SymbolFromElf(table[0]);
    if KeepSymbol(head) && head.name == n && s == head {
    } else {
      RetainedNamedSound(table[1..], n, s);
      var i :| 0 <= i < |table[1..]| && SymbolFromElf(table[1..][i]) == s;
      assert SymbolFromElf(table[i + 1]) == s;
    }
  }

  /** Every kept entry of the table is stored under its own name. */
  lemma NoRetainedSymbolLost(table: seq<RawSymbol>, i: int)
    requires 0 <= i < |table| && KeepSymbol(SymbolFromElf(table[i]))
    ensures table[i].name in SymbolIndex(table)
    ensures SymbolFromElf(table[i]) in SymbolIndex(table)[table[i].name]
  {
    RetainedNamedContains(table, i);
    SymbolIndexIsFilter(table, table[i].name);
  }

  /** Every stored symbol is a kept entry of the table, stored under its own name. */
  lemma StoredSymbolsAreRetained(table: seq<RawSymbol>, n: string, s: Symbol)
    requires n in SymbolIndex(table) && s in SymbolIndex(table)[n]
    ensures s.name == n && KeepSymbol(s)
    ensures exists i :: 0 <= i < |table| && SymbolFromElf(table[i]) == s
  {
    SymbolIndexIsFilter(table, n);
    RetainedNamedSound(table, n, s);
  }

  // ---------------------------------------------------------------- sections

  /** The section map after the builder has walked the whole table. */
  function SectionIndex(table: seq<RawSection>): map<string, Section>
  {
    if table == [] then map[]
    else
      var prev := SectionIndex(table[..|table| - 1]);
      var s := SectionFromElf(table[|table| - 1]);
      if KeepSection(s) then prev[s.name := s] else prev
  }

  /** Entry p of the table is kept and named n. */
  predicate StoredAs(table: seq<RawSection>, n: string, p: int)
  {
    0 <= p < |table| && KeepSection(SectionFromElf(table[p])) && table[p].name == n
  }

  /** Entry p is the last kept entry of the table named n. */
  predicate LastStored(table: seq<RawSection>, n: string, p: int)
  {
    StoredAs(table, n, p) && forall q :: p < q < |table| ==> !StoredAs(table, n, q)
  }

  /** A name is a key exactly when some kept entry carries it. */
  lemma {:induction false} SectionIndexKeys(table: seq<RawSection>, n: string)
    ensures n in SectionIndex(table) <==> exists p :: StoredAs(table, n, p)
    decreases |table|
  {
    if table != [] {
      var init := table[..|table| - 1];
      SectionIndexKeys(init, n);
      if KeepSection(SectionFromElf(table[|table| - 1])) && table[|table| - 1].name == n {
        assert StoredAs(table, n, |table| - 1);
      }
      if exists p :: StoredAs(init, n, p) {
        var p :| StoredAs(init, n, p);
        assert StoredAs(table, n, p);
      }
      if exists p :: StoredAs(table, n, p) {
        var p :| StoredAs(table, n, p);
        if p < |init| {
          assert init[p] == table[p];
          assert StoredAs(init, n, p);
        } else {
          assert SectionFromElf(table[p]).name == n;
        }
      }
    }
  }

  /** Among kept entries that share a name, the last one in table order is the one stored. */
  lemma {:induction false} SectionIndexLastWins(table: seq<RawSection>, n: string, p: int)
    requires LastStored(table, n, p)
    ensures n in SectionIndex(table) && SectionIndex(table)[n] == SectionFromElf(table[p])
    decreases |table|
  {
    var last := |table| - 1;
    if p < last {
      var init := table[..last];
      assert !StoredAs(table, n, last);
      assert LastStored(init, n, p) by {
        forall q | p < q < |init| ensures !StoredAs(init, n, q) {
          assert !StoredAs(table, n, q);
        }
      }
      SectionIndexLastWins(init, n, p);
    }
  }

  /** When some kept entry has the name, one of them is the last. */
  lemma {:induction false} LastStoredExists(table: seq<RawSection>, n: string)
    requires exists p :: StoredAs(table, n, p)
    ensures exists p :: LastStored(table, n, p)
    decreases |table|
  {
    var last := |table| - 1;
    if StoredAs(table, n, last) {
      assert LastStored(table, n, last);
    } else {
      var init := table[..last];
      var p0 :| StoredAs(table, n, p0);
      assert StoredAs(init, n, p0);
      LastStoredExists(init, n);
      var p :| LastStored(init, n, p);
      assert LastStored(table, n, p) by {
        forall q | p < q < |table| ensures !StoredAs(table, n, q) {
          if q < last {
            assert !StoredAs(init, n, q);
          }
        }
      }
    }
  }

  lemma SectionIndexLastWinsAll(table: seq<RawSection>, n: string)
    ensures forall p :: LastStored(table, n, p) ==> n in SectionIndex(table) && SectionIndex(table)[n] == SectionFromElf(table[p])
  {
    forall p | LastStored(table, n, p)
      ensures n in SectionIndex(table) && SectionIndex(table)[n] == SectionFromElf(table[p])
    {
      SectionIndexLastWins(table, n, p);
    }
  }

  /** Every stored section is kept and is stored under its own name. */
  lemma {:induction false} StoredSectionsAreRetained(table: seq<RawSection>, n: string)
    requires n in SectionIndex(table)
    ensures SectionIndex(table)[n].name == n && KeepSection(SectionIndex(table)[n])
    decreases |table|
  {
    var s := SectionFromElf(table[|table| - 1]);
    if !(KeepSection(s) && s.name == n) {
      StoredSectionsAreRetained(table[..|table| - 1], n);
    }
  }
}
