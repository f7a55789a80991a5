/** The parsed tables of an ELF object, and their runtime counterparts. */
module ElfTypes {
  import opened Words

  const R_X86_64_COPY := 5
  const R_X86_64_GLOB_DAT := 6
  const R_X86_64_RELATIVE := 8

  datatype Symbol = Symbol(name: string, value: Word, size: nat)

  datatype Relocation = Relocation(offset: Word, kind: nat, addend: int, symbol: Symbol)

  // Entries 1 and 2 of .got.plt hold the object's identity and the address of the resolver.
  datatype GotEntry = GotEntry(index: Word, value: Word, isTable: bool, isCallback: bool)

  datatype DynamicData = DynamicData(
    symbols: seq<Symbol>, got: seq<GotEntry>, funcRelocs: seq<Relocation>, varRelocs: seq<Relocation>)

  // A shared library mapped at `base`; `bss` is the runtime range of its .bss section.
  datatype SharedObject = SharedObject(base: Word, dyn: DynamicData, bss: Option<(int, nat)>)

  datatype RuntimeSymbol = RuntimeSymbol(value: Word, name: string, size: nat)

  datatype RuntimeRelocation = RuntimeRelocation(
    offset: Word, kind: nat, addend: int, value: Word, name: string)

  // A nonzero `tableOffset` is also stored at the address `value`.
  datatype RuntimeGotEntry = RuntimeGotEntry(index: Word, value: Word, tableOffset: Word)
}
