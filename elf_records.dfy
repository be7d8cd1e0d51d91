/**
 * The detached records of the ELF model: the header, symbol and section
 * records as the decoder hands them over (Raw*), and the owned value records
 * the model keeps (Header, Symbol, Section), with the converters between them.
 */
module ElfRecords {

  /** Python's str.startswith for a single prefix. */
  predicate StartsWith(s: string, prefix: string)
  {
    |prefix| <= |s| && s[..|prefix|] == prefix
  }

  // ---------------------------------------------------------------- header

  /** The e_ident part of the header that the model reads. */
  datatype EIdent = EIdent(eiClass: string, eiData: string)

  /** The ELF header as decoded: e_ident is nested, the enumerations are already names. */
  datatype RawHeader = RawHeader(eIdent: EIdent, eMachine: string, eFlags: nat)

  /** The detached header: word-size class, byte order, machine, processor flags. */
  datatype Header = Header(eiClass: string, eiData: string, eMachine: string, eFlags: nat)

  /** Header.from_elf: every field is copied verbatim out of the decoded header. */
  function HeaderFromElf(raw: RawHeader): (h: Header)
    ensures h.eiClass == raw.eIdent.eiClass && h.eiData == raw.eIdent.eiData
    ensures h.eMachine == raw.eMachine && h.eFlags == raw.eFlags
  {
    Header(raw.eIdent.eiClass, raw.eIdent.eiData, raw.eMachine, raw.eFlags)
  }

  /** The decoded header a detached header was copied from. */
  function HeaderToRaw(h: Header): RawHeader
  {
    RawHeader(EIdent(h.eiClass, h.eiData), h.eMachine, h.eFlags)
  }

  /** The copy is verbatim in both directions: the decoded header is recovered from it, and every header is such a copy. */
  lemma HeaderRoundTrip(raw: RawHeader, h: Header)
    ensures HeaderToRaw(HeaderFromElf(raw)) == raw
    ensures HeaderFromElf(HeaderToRaw(h)) == h
  {
  }

  /** Nothing is lost in the copy: distinct decoded headers give distinct records. */
  lemma HeaderFromElfInjective(a: RawHeader, b: RawHeader)
    requires HeaderFromElf(a) == HeaderFromElf(b)
    ensures a == b
  {
  }

  // ---------------------------------------------------------------- symbols

  /** st_shndx: the decoder gives reserved indices by name ("SHN_UNDEF", "SHN_ABS", ...) and others as numbers. */
  datatype ShIndex = Reserved(reservedName: string) | Ordinal(index: nat)

  /** st_info, split by the decoder into a type name and a binding name. */
  datatype SymbolInfo = SymbolInfo(symType: string, symBind: string)

  /** One symbol-table entry as decoded. */
  datatype RawSymbol = RawSymbol(name: string, stInfo: SymbolInfo, stShndx: ShIndex, stValue: nat, stSize: nat)

  /** The detached symbol. Names need not be unique across a symbol table. */
  datatype Symbol = Symbol(name: string, typ: string, bind: string, shndx: ShIndex, addr: nat, size: nat)

  /** Symbol.from_elf: st_info is unpacked into type and binding, the rest is copied. */
  function SymbolFromElf(raw: RawSymbol): (s: Symbol)
    ensures s.name == raw.name && s.typ == raw.stInfo.symType && s.bind == raw.stInfo.symBind
    ensures s.shndx == raw.stShndx && s.addr == raw.stValue && s.size == raw.stSize
  {
    Symbol(raw.name, raw.stInfo.symType, raw.stInfo.symBind, raw.stShndx, raw.stValue, raw.stSize)
  }

  /** The symbol-table entry a detached symbol was converted from: type and binding packed back into st_info. */
  function SymbolToRaw(s: Symbol): RawSymbol
  {
    RawSymbol(s.name, SymbolInfo(s.typ, s.bind), s.shndx, s.addr, s.size)
  }

  /** The conversion is verbatim in both directions. */
  lemma SymbolRoundTrip(raw: RawSymbol, s: Symbol)
    ensures SymbolToRaw(SymbolFromElf(raw)) == raw
    ensures SymbolFromElf(SymbolToRaw(s)) == s
  {
  }

  lemma SymbolFromElfInjective(a: RawSymbol, b: RawSymbol)
    requires SymbolFromElf(a) == SymbolFromElf(b)
    ensures a == b
  {
  }

  // ---------------------------------------------------------------- sections

  /** sh_flags. An Elf64_Xword at most, so 64 bits hold every value the decoder can give. */
  type ShFlags = bv64

  /** Section attribute flags of the System V gABI ("Sections", "Section Attribute Flags"). */
  const SHF_WRITE: ShFlags := 0x1
  const SHF_ALLOC: ShFlags := 0x2
  const SHF_EXECINSTR: ShFlags := 0x4

  /**
   * One section-header entry as decoded. flagsText is the human-readable
   * rendering of sh_flags that the decoding library produces; it is taken as given.
   */
  datatype RawSection = RawSection(name: string, shType: string, shFlags: ShFlags, flagsText: string,
                                   shAddr: nat, shSize: nat, shAddralign: nat)

  /** The detached section with its derived flag predicates. */
  datatype Section = Section(name: string, typ: string, flagsBits: ShFlags, flagsStr: string,
                             addr: nat, size: nat, align: nat)
  {
    /** Mapped into the memory image at run time. */
    predicate IsAllocatable() { flagsBits & SHF_ALLOC != 0 }

    predicate IsWritable() { flagsBits & SHF_WRITE != 0 }

    predicate IsExecutable() { flagsBits & SHF_EXECINSTR != 0 }
  }

  /** Section.from_elf: the header fields are copied, the flag bits kept raw beside their rendering. */
  function SectionFromElf(raw: RawSection): (s: Section)
    ensures s.name == raw.name && s.typ == raw.shType
    ensures s.flagsBits == raw.shFlags && s.flagsStr == raw.flagsText
    ensures s.addr == raw.shAddr && s.size == raw.shSize && s.align == raw.shAddralign
  {
    Section(raw.name, raw.shType, raw.shFlags, raw.flagsText, raw.shAddr, raw.shSize, raw.shAddralign)
  }

  /** The section-header entry a detached section was converted from. */
  function SectionToRaw(s: Section): RawSection
  {
    RawSection(s.name, s.typ, s.flagsBits, s.flagsStr, s.addr, s.size, s.align)
  }

  /** The conversion is verbatim in both directions; the flag bits and their rendering travel together. */
  lemma SectionRoundTrip(raw: RawSection, s: Section)
    ensures SectionToRaw(SectionFromElf(raw)) == raw
    ensures SectionFromElf(SectionToRaw(s)) == s
  {
  }

  lemma SectionFromElfInjective(a: RawSection, b: RawSection)
    requires SectionFromElf(a) == SectionFromElf(b)
    ensures a == b
  {
  }

  /** The three predicates read bits 1, 0 and 2 of sh_flags and nothing else. */
  lemma FlagPredicatesAreBitTests(s: Section)
    ensures s.IsAllocatable() <==> (s.flagsBits >> 1) & 1 == 1
    ensures s.IsWritable() <==> s.flagsBits & 1 == 1
    ensures s.IsExecutable() <==> (s.flagsBits >> 2) & 1 == 1
  {
  }

  /** Toggling SHF_ALLOC flips IsAllocatable and leaves the other two predicates alone. */
  lemma ToggleAllocFlipsOnlyAllocatable(s: Section)
    ensures var t := s.(flagsBits := s.flagsBits ^ SHF_ALLOC);
      t.IsAllocatable() == !s.IsAllocatable() &&
      t.IsWritable() == s.IsWritable() && t.IsExecutable() == s.IsExecutable()
  {
  }

  /** Toggling SHF_WRITE flips IsWritable and leaves the other two predicates alone. */
  lemma ToggleWriteFlipsOnlyWritable(s: Section)
    ensures var t := s.(flagsBits := s.flagsBits ^ SHF_WRITE);
      t.IsWritable() == !s.IsWritable() &&
      t.IsAllocatable() == s.IsAllocatable() && t.IsExecutable() == s.IsExecutable()
  {
  }

  /** Toggling SHF_EXECINSTR flips IsExecutable and leaves the other two predicates alone. */
  lemma ToggleExecFlipsOnlyExecutable(s: Section)
    ensures var t := s.(flagsBits := s.flagsBits ^ SHF_EXECINSTR);
      t.IsExecutable() == !s.IsExecutable() &&
      t.IsAllocatable() == s.IsAllocatable() && t.IsWritable() == s.IsWritable()
  {
  }
}
