# Detached ELF model of the KL25Z firmware verifier

The firmware verifier of this repository reads the linked firmware ELF once
per test session and turns the decoder's file-backed records into a detached
model, `ParsedElf`, that the firmware tests query. This project models that
core in Dafny:

- the header, copied verbatim (`ElfRecords.HeaderFromElf`);
- the ARM build attributes (`.ARM.attributes`): a nested block of
  subsections, sub-subsections and tag/value attributes, flattened by a
  triple loop into a tag -> value map in which a later tag overwrites an
  earlier one (`ArmBuildAttributes.FromElf`);
- the symbol table: each entry is converted to a `Symbol`, dropped when its
  section index is `SHN_UNDEF`, its type is `STT_FILE` or `STT_SECTION`, or
  its name starts with `$`, and otherwise appended to the list of its name,
  so names that occur several times keep every entry in table order
  (`ParsedElf.ParseSymbolTableToMember`, specified by `ElfIndex.SymbolIndex`);
- the section table: each entry is converted to a `Section` and stored under
  its name when it is allocatable (`SHF_ALLOC`, 0x2) or its name starts with
  `.ARM.attributes`, the last such entry of a name winning
  (`ParsedElf.ParseSectionTableToMember`, specified by `ElfIndex.SectionIndex`);
- the flag predicates `IsAllocatable`, `IsWritable`, `IsExecutable` as tests
  of the System V gABI section flags `SHF_ALLOC` (0x2), `SHF_WRITE` (0x1) and
  `SHF_EXECINSTR` (0x4);
- the four queries `RequireUniqueSymbol`, `RequireSection`, `HasSymbol` and
  `HasSection`, with the errors "not found" and "not unique" (carrying the
  number of entries) as a `Result` instead of an exception.

The decoder itself (pyelftools) is not modelled: its output is the input of
the model, the datatype `ElfModel.ElfImage` holding the decoded header, the
`.ARM.attributes` block and the `.symtab` entries (each looked up by name and
so possibly absent) and the section-header table. `ElfModel.Load` reports a
missing attribute block or symbol table as a `BuildError`, where the source
fails with an exception when it dereferences the missing section.

The class `ParsedElf` has the source's five members and a ghost `source`, the
decoded file it was built from; `Valid()` states that every member is what the
builders compute from `source`. The queries are specified against the decoded
tables themselves: for instance `RequireUniqueSymbol(n)` succeeds exactly when
one kept entry of the symbol table is named `n`, and reports "not unique"
with the number of such entries when there are several.

Files: `wrappers.dfy` (Option, Result), `elf_records.dfy` (records,
converters, flag bits), `classification.dfy` (which symbols and sections are
kept), `arm_attributes.dfy` (attribute flattening), `elf_index.dfy` (the
symbol multimap and the section map as functions of the tables, and their
properties), `parsed_elf.dfy` (the `ParsedElf` class, `Load` and the queries).

Where the docstrings and the code disagree the model follows the code:

- The docstring of `_parse_symbol_table_to_member` (verify/conftest.py:214-215)
  says `STT_NOTYPE` symbols are ignored; the test at verify/conftest.py:226
  does not exclude them, so they are kept
  (`Classification.NoTypeSymbolRetained`).
- The `elif` of `_parse_section_table_to_member` (verify/conftest.py:251)
  has no effect: its condition holds of every section the `if` does not keep
  (`Classification.SkipGuardAlwaysHolds`), and a section the `if` does not
  keep is skipped either way. The docstring's "omit .note" is not what the
  code does for an allocatable `.note` section, which is kept
  (`Classification.AllocatableNoteSectionKept`).
A repeated attribute tag or a repeated kept section name keeps the last
entry, because the code assigns into a dictionary key by key
(verify/conftest.py:89, 249); the model does the same.

## Model

| member | source | states |
|---|---|---|
| ElfRecords.HeaderRoundTrip | verify/conftest.py:59-71 | the header is a verbatim copy: the decoded header is recovered from the detached one, and every detached header is the copy of one decoded header |
| ElfRecords.HeaderFromElfInjective | verify/conftest.py:59-71 | the header copy loses nothing: two decoded headers with the same detached header are equal |
| ElfRecords.SymbolRoundTrip | verify/conftest.py:109-119 | the symbol is a verbatim copy with st_info split into type and binding: the entry is recovered from the detached symbol, and every detached symbol is the conversion of one entry |
| ElfRecords.SymbolFromElfInjective | verify/conftest.py:109-119 | the symbol conversion loses nothing: entries with the same detached symbol are equal |
| ElfRecords.SectionRoundTrip | verify/conftest.py:135-147 | the section is a verbatim copy of the section header with flag bits and their rendering: the header is recovered from the detached section, and every detached section is the conversion of one header |
| ElfRecords.SectionFromElfInjective | verify/conftest.py:135-147 | the section conversion loses nothing: headers with the same detached section are equal |
| ElfRecords.FlagPredicatesAreBitTests | verify/conftest.py:149-159 | is_allocatable, is_writable and is_executable hold exactly when bit 1, bit 0 and bit 2 of sh_flags are set |
| ElfRecords.ToggleAllocFlipsOnlyAllocatable | verify/conftest.py:149-151 | flipping SHF_ALLOC flips is_allocatable and leaves is_writable and is_executable unchanged |
| ElfRecords.ToggleWriteFlipsOnlyWritable | verify/conftest.py:153-155 | flipping SHF_WRITE flips is_writable and leaves the other two predicates unchanged |
| ElfRecords.ToggleExecFlipsOnlyExecutable | verify/conftest.py:157-159 | flipping SHF_EXECINSTR flips is_executable and leaves the other two predicates unchanged |
| Classification.KeepSymbolIffRetained | verify/conftest.py:224-228 | the builder's drop test keeps a symbol exactly when it falls in none of the buckets undefined index, STT_FILE/STT_SECTION type, '$' prefix; every symbol is in exactly one bucket |
| Classification.NoTypeSymbolRetained | verify/conftest.py:214-228 | an STT_NOTYPE symbol with a defined index and an ordinary name is kept, contrary to the docstring |
| Classification.KeepSectionIffRetained | verify/conftest.py:248-249 | a section is kept exactly when it is classified as allocatable or as ARM attributes, skipped otherwise |
| Classification.SkipGuardAlwaysHolds | verify/conftest.py:248-252 | the elif condition holds of every section the if does not keep, so the elif changes nothing |
| Classification.AllocatableNoteSectionKept | verify/conftest.py:239-249 | an allocatable .note section is kept although the docstring lists .note among the omitted sections |
| ArmBuildAttributes.FromElf | verify/conftest.py:80-93 | the triple loop yields the map obtained by inserting every attribute in depth-first order, later tags overwriting earlier ones |
| ArmBuildAttributes.TagMapKeys | verify/conftest.py:85-89 | a tag is a key of the flattened map exactly when some attribute carries it |
| ArmBuildAttributes.LastOccurrenceExists | verify/conftest.py:85-89 | a tag that occurs in the attribute sequence has a last occurrence |
| ArmBuildAttributes.TagMapLastWins | verify/conftest.py:85-89 | the value stored for a tag is that of its last occurrence |
| ArmBuildAttributes.InDepthFirstOrderTags | verify/conftest.py:86-88 | the depth-first sequence carries a tag exactly when some attribute of some sub-subsection of some subsection does |
| ArmBuildAttributes.FromElfKeysAndValues | verify/conftest.py:85-93 | the attribute set's keys are exactly the tags anywhere in the nested block; each key has a last occurrence in depth-first order, and its value is that occurrence's |
| ElfIndex.SymbolIndexIsFilter | verify/conftest.py:218-230 | after the build, the list under a name is exactly the kept symbols of that name in table order, and the name is a key exactly when there is one |
| ElfIndex.SymbolListsNonEmpty | verify/conftest.py:230 | no stored symbol list is empty |
| ElfIndex.NoRetainedSymbolLost | verify/conftest.py:221-230 | every kept table entry is in the list stored under its name |
| ElfIndex.StoredSymbolsAreRetained | verify/conftest.py:221-230 | every stored symbol is a kept table entry stored under its own name |
| ElfIndex.SectionIndexKeys | verify/conftest.py:243-249 | a name is a key of the section map exactly when some kept section has it |
| ElfIndex.LastStoredExists | verify/conftest.py:245-249 | when some kept section has a name, one of them is the last in table order |
| ElfIndex.SectionIndexLastWins | verify/conftest.py:245-249 | among kept sections sharing a name, the last in table order is the one stored |
| ElfIndex.StoredSectionsAreRetained | verify/conftest.py:245-249 | every stored section is kept and stored under its own name |
| ElfModel.ParsedElf.constructor | verify/conftest.py:174-185 | the model is built eagerly from the decoded file and every member is what the builders compute from it |
| ElfModel.ParsedElf.ParseHeaderToMember | verify/conftest.py:196-200 | sets the header to the detached copy and changes no other member |
| ElfModel.ParsedElf.ParseArmAttributesToMember | verify/conftest.py:203-207 | sets the attribute set to the flattened block and changes no other member |
| ElfModel.ParsedElf.ParseSymbolTableToMember | verify/conftest.py:210-230 | the loop leaves the symbol multimap of the table: each list the kept entries of its name in order, none empty; nothing else changes |
| ElfModel.ParsedElf.ParseSectionTableToMember | verify/conftest.py:233-252 | the loop leaves the section map of the table, every stored section kept and under its own name; nothing else changes |
| ElfModel.ParsedElf.RequireUniqueSymbol | verify/conftest.py:255-274 | not found when no kept entry has the name, not unique with their count when several do, otherwise the one kept entry |
| ElfModel.ParsedElf.RequireSection | verify/conftest.py:277-292 | not found when no kept section has the name; otherwise the section of some kept entry of that name that no later kept entry shares, the last one in table order |
| ElfModel.ParsedElf.HasSymbol | verify/conftest.py:295-296 | true exactly when some kept entry has the name, that is when the unique-symbol query does not report not found |
| ElfModel.ParsedElf.HasSection | verify/conftest.py:299-300 | true exactly when some kept section has the name, that is when the section query succeeds |
| ElfModel.Load | verify/conftest.py:179-185 | a missing attribute block, then a missing symbol table, is a build error; otherwise a fresh valid model of the file |

## Left out

- The pyelftools decoder (`ELFFile`, `get_section_by_name`, `iter_symbols`, `iter_sections`) and the byte-level ELF format: a foreign library whose output is the model's input (`ElfImage`).
- The library's enumeration names (`str(info["type"])`, `str(e_ident["EI_CLASS"])`, ...): type, binding, section-index names and header classes are taken as opaque strings.
- `describe_sh_flags`: the rendering of the flag bits is a library lookup table; `RawSection.flagsText` carries it as given and the model does not tie it to the bits.
- The opening of the file and its lifetime: the model's records are immutable values, so they cannot alias the decoder's file-backed records; the closing of the file is not modelled.
- `pytest_addoption`, `_validated_path` (the `os.path.isfile` check and its usage error) and the session fixture: command-line and file-system plumbing of the test runner.
- The `isinstance` checks of `require_unique_symbol` and `require_section`: the typed model cannot store anything but a `Symbol` or a `Section`. Likewise `if not sec` in `require_section` fails only for an absent name, since a `Section` record is always truthy.
- `has_cpp_runtime`: commented out in the source, so not part of the running program.
- A `.ARM.attributes` section that the decoder does not decode as an attribute section, and malformed or truncated files: the decoder's errors.
- Integer widths: addresses, sizes, alignment and e_flags are unbounded naturals, as Python ints are; sh_flags is a 64-bit vector, wide enough for an Elf64_Xword.
- The firmware tests (verify/test_firmware.py): assertions against constants of one firmware build, which use the queries but add no logic of the model.
- system/system_kl25z.cpp: `SystemInit` is empty.
