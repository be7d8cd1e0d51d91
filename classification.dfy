/**
 * The classification policy: which decoded symbols and sections the model
 * keeps. KeepSymbol and KeepSection are the tests the builders apply;
 * ClassifySymbol and ClassifySection sort every record into exactly one
 * named bucket, and the lemmas tie the two views together.
 */
module Classification {
  import opened ElfRecords

  // ---------------------------------------------------------------- symbols

  /**
   * A symbol is kept unless its section index is SHN_UNDEF, its type is
   * STT_FILE or STT_SECTION, or its name starts with '$' (the ARM mapping
   * symbols $a, $t, $d, $x). STT_NOTYPE symbols are kept.
   */
  predicate KeepSymbol(s: Symbol)
  {
    !(s.shndx == Reserved("SHN_UNDEF") || s.typ == "STT_FILE" || s.typ == "STT_SECTION" || StartsWith(s.name, "$"))
  }

  /** The reason a symbol is dropped, or that it is retained. */
  datatype SymbolVerdict = DroppedUndefined | DroppedMarkerType | DroppedReservedPrefix | Retained

  /** Sorts a symbol by the first exclusion rule it meets, in the order the builder tests them. */
  function ClassifySymbol(s: Symbol): SymbolVerdict
  {
    if s.shndx.Reserved? && s.shndx.reservedName == "SHN_UNDEF" then DroppedUndefined
    else if s.typ in {"STT_FILE", "STT_SECTION"} then DroppedMarkerType
    else if s.name != [] && s.name[0] == '$' then DroppedReservedPrefix
    else Retained
  }

  /** The builder's test agrees with the buckets: kept exactly when retained, dropped exactly when in a drop bucket. */
  lemma KeepSymbolIffRetained(s: Symbol)
    ensures KeepSymbol(s) <==> ClassifySymbol(s) == Retained
  {
  }

  /** A symbol of type STT_NOTYPE with a defined section index and an ordinary name is kept. */
  lemma NoTypeSymbolRetained(s: Symbol)
    requires s.typ == "STT_NOTYPE" && s.shndx != Reserved("SHN_UNDEF") && !StartsWith(s.name, "$")
    ensures KeepSymbol(s) && ClassifySymbol(s) == Retained
  {
    KeepSymbolIffRetained(s);
  }

  // ---------------------------------------------------------------- sections

  /** A section is kept when it is allocatable or its name starts with ".ARM.attributes". */
  predicate KeepSection(s: Section)
  {
    s.IsAllocatable() || StartsWith(s.name, ".ARM.attributes")
  }

  /** Why a section is kept, or that it is skipped. */
  datatype SectionVerdict = RetainedAllocatable | RetainedArmAttributes | Skipped

  function ClassifySection(s: Section): SectionVerdict
  {
    if s.flagsBits & SHF_ALLOC == SHF_ALLOC then RetainedAllocatable
    else if |s.name| >= 15 && s.name[..15] == ".ARM.attributes" then RetainedArmAttributes
    else Skipped
  }

  /** Kept exactly when classified into one of the two retained buckets. */
  lemma KeepSectionIffRetained(s: Section)
    ensures KeepSection(s) <==> ClassifySection(s) != Skipped
  {
  }

  /**
   * The condition of the builder's second branch ("not allocatable, or a
   * .symtab/.debug/.note name"): it holds of every section the first branch
   * does not keep, so that branch skips exactly the sections not kept.
   */
  predicate SkipGuard(s: Section)
  {
    !s.IsAllocatable() || StartsWith(s.name, ".symtab") || StartsWith(s.name, ".debug") || StartsWith(s.name, ".note")
  }

  lemma SkipGuardAlwaysHolds(s: Section)
    requires !KeepSection(s)
    ensures SkipGuard(s)
  {
  }

  /** A .note section that is mapped into memory is kept, although its name is in the list of omitted kinds. */
  lemma AllocatableNoteSectionKept(s: Section)
    requires StartsWith(s.name, ".note") && s.IsAllocatable()
    ensures KeepSection(s) && SkipGuard(s)
  {
  }
}
