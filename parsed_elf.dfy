/**
 * The detached ELF model (ParsedElf) and its query facade. The model is
 * built once from what the decoder yields and is read-only afterwards.
 */
module ElfModel {
  import opened Wrappers
  import opened ElfRecords
  import opened Classification
  import opened ArmBuildAttributes
  import opened ElfIndex

  /**
   * What the decoder yields for one ELF file: the header, the
   * .ARM.attributes block and the .symtab entries (each looked up by
   * name, so possibly absent), and the section-header table.
   */
  datatype ElfImage = ElfImage(header: RawHeader, armAttributes: Option<seq<Subsection>>,
                               symbolTable: Option<seq<RawSymbol>>, sectionTable: seq<RawSection>)

  /** A required part of the file is missing, so no model can be built. */
  datatype BuildError = MissingArmAttributes | MissingSymbolTable

  /** Why a query failed: nothing has the name, or several symbols share it (with their number). */
  datatype QueryError = NotFound(name: string) | NotUnique(name: string, count: nat)

  class ParsedElf {
    var elfPath: string
    var header: Header
    var armAttributes: ArmAttributes
    var sections: map<string, Section>
    /** Symbol names are not unique in a symbol table, so each name holds a list. */
    var symbols: map<string, seq<Symbol>>

    /** The decoded file the model was built from. */
    ghost var source: ElfImage

    /** Every member holds what the builders compute from the decoded file. */
    ghost predicate Valid()
      reads this
    {
      && source.armAttributes.Some?
      && source.symbolTable.Some?
      && header == HeaderFromElf(source.header)
      && armAttributes.tags == TagMap(InDepthFirstOrder(source.armAttributes.value))
      && symbols == SymbolIndex(source.symbolTable.value)
      && sections == SectionIndex(source.sectionTable)
    }

    /** Builds every member eagerly, in the order header, attributes, symbols, sections. */
    constructor (path: string, image: ElfImage)
      requires image.armAttributes.Some? && image.symbolTable.Some?
      ensures Valid() && elfPath == path && source == image
    {
      elfPath := path;
      source := image;
      new;
      ParseHeaderToMember(image.header);
      ParseArmAttributesToMember(image.armAttributes.value);
      ParseSymbolTableToMember(image.symbolTable.value);
      ParseSectionTableToMember(image.sectionTable);
    }

    method ParseHeaderToMember(raw: RawHeader)
      modifies this`header
      ensures header == HeaderFromElf(raw)
    {
      header := HeaderFromElf(raw);
    }

    method ParseArmAttributesToMember(block: seq<Subsection>)
      modifies this`armAttributes
      ensures armAttributes.tags == TagMap(InDepthFirstOrder(block))
    {
      armAttributes := FromElf(block);
    }

    /** Walks the symbol table in order, appending every kept symbol to the list of its name. */
    method ParseSymbolTableToMember(table: seq<RawSymbol>)
      modifies this`symbols
      ensures symbols == SymbolIndex(table)
      ensures forall n :: n in symbols ==> symbols[n] == RetainedNamed(table, n) && symbols[n] != []
    {
      symbols := map[];
      for i := 0 to |table|
        invariant symbols == SymbolIndex(table[..i])
      {
        var sym := SymbolFromElf(table[i]);
        assert table[..i + 1][..i] == table[..i];
        if !KeepSymbol(sym) {
          continue;
        }
        symbols := symbols[sym.name := (if sym.name in symbols then symbols[sym.name] else []) + [sym]];
      }
      assert table[..|table|] == table;
      forall n | n in symbols
        ensures symbols[n] == RetainedNamed(table, n) && symbols[n] != []
      {
        SymbolIndexIsFilter(table, n);
      }
    }

    /** Walks the section table in order, storing every kept section under its name. */
    method ParseSectionTableToMember(table: seq<RawSection>)
      modifies this`sections
      ensures sections == SectionIndex(table)
      ensures forall n :: n in sections ==> sections[n].name == n && KeepSection(sections[n])
    {
      sections := map[];
      for i := 0 to |table|
        invariant sections == SectionIndex(table[..i])
      {
        var sec := SectionFromElf(table[i]);
        assert table[..i + 1][..i] == table[..i];
        if KeepSection(sec) {
          sections := sections[sec.name := sec];
        } else if SkipGuard(sec) {
          // Always taken (SkipGuardAlwaysHolds): every section not kept is skipped.
          continue;
        }
      }
      assert table[..|table|] == table;
      forall n | n in sections
        ensures sections[n].name == n && KeepSection(sections[n])
      {
        StoredSectionsAreRetained(table, n);
      }
    }

    /**
     * The one symbol with the given name: "not found" when no kept symbol of
     * the table has it, "not unique" with their number when several do.
     */
    function RequireUniqueSymbol(name: string): (r: Result<Symbol, QueryError>)
      reads this
      requires Valid()
      ensures var matches := RetainedNamed(source.symbolTable.value, name);
        && (r == Err(NotFound(name)) <==> |matches| == 0)
        && (r == Err(NotUnique(name, |matches|)) <==> |matches| > 1)
        && (r.Ok? <==> |matches| == 1)
        && (r.Ok? ==> r.value == matches[0])
    {
      SymbolIndexIsFilter(source.symbolTable.value, name);
      var symList := if name in symbols then symbols[name] else [];
      if |symList| == 0 then Err(NotFound(name))
      else if |symList| > 1 then Err(NotUnique(name, |symList|))
      else Ok(symList[0])
    }

    /**
     * The section stored under the given name: "not found" when no kept
     * section of the table has it, otherwise the last kept one that does.
     */
    function RequireSection(name: string): (r: Result<Section, QueryError>)
      reads this
      requires Valid()
      ensures r.Ok? <==> exists p :: StoredAs(source.sectionTable, name, p)
      ensures r.Err? ==> r.error == NotFound(name)
      ensures r.Ok? ==> exists p :: LastStored(source.sectionTable, name, p) && r.value == SectionFromElf(source.sectionTable[p])
      ensures forall p :: LastStored(source.sectionTable, name, p) ==> r == Ok(SectionFromElf(source.sectionTable[p]))
    {
      SectionIndexKeys(source.sectionTable, name);
      SectionIndexLastWinsAll(source.sectionTable, name);
      if name in sections then
        LastStoredExists(source.sectionTable, name);
        Ok(sections[name])
      else
        Err(NotFound(name))
    }

    /** Some kept symbol has the name; equivalently, the unique-symbol query does not report "not found". */
    function HasSymbol(name: string): (r: bool)
      reads this
      requires Valid()
      ensures r <==> RetainedNamed(source.symbolTable.value, name) != []
      ensures r <==> RequireUniqueSymbol(name) != Err(NotFound(name))
    {
      SymbolIndexIsFilter(source.symbolTable.value, name);
      name in symbols
    }

    /** Some kept section has the name; equivalently, the section query succeeds. */
    function HasSection(name: string): (r: bool)
      reads this
      requires Valid()
      ensures r <==> exists p :: StoredAs(source.sectionTable, name, p)
      ensures r <==> RequireSection(name).Ok?
    {
      SectionIndexKeys(source.sectionTable, name);
      name in sections
    }
  }

  /**
   * Opens the model for a decoded file. The attribute block is read before
   * the symbol table, so a file missing both reports the attributes.
   */
  method Load(path: string, image: ElfImage) returns (r: Result<ParsedElf, BuildError>)
    ensures image.armAttributes.None? ==> r == Err(MissingArmAttributes)
    ensures image.armAttributes.Some? && image.symbolTable.None? ==> r == Err(MissingSymbolTable)
    ensures r.Ok? <==> image.armAttributes.Some? && image.symbolTable.Some?
    ensures r.Ok? ==> fresh(r.value) && r.value.Valid() && r.value.source == image && r.value.elfPath == path
  {
    if image.armAttributes.None? {
      return Err(MissingArmAttributes);
    }
    if image.symbolTable.None? {
      return Err(MissingSymbolTable);
    }
    var elf := new ParsedElf(path, image);
    r := Ok(elf);
  }
}
