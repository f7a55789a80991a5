/** What the Windows loader keeps about a PE image once its tables are parsed. */
module WinImages {
  import opened Words

  const TRAMPOLINE_SIZE := 7
  const SYMBOL_TYPE_FUNCTION := 0x20
  const SYMBOL_CLASS_EXTERNAL := 0x02
  const NTDLL := "ntdll.dll"

  // Relative virtual addresses are 32-bit fields of the file.
  type Rva = Dword

  datatype ImportEntry = ImportEntry(name: string, address: Word)

  datatype ImportDirectoryEntry = ImportDirectoryEntry(libName: string, imports: seq<ImportEntry>)

  // `key` is the RVA of the slot, `value` the hint/name RVA the slot holds in the file.
  datatype ImportAddressEntry = ImportAddressEntry(
    key: Word, value: Word, libName: Option<string>, importName: Option<string>)

  datatype ExportEntry = ExportEntry(address: Word, name: string)

  datatype WinSymbol = WinSymbol(
    name: string, value: int, sectionIndex: nat, symbolType: nat, storageClass: nat)

  // The fields of a section header that the loader uses.
  datatype Section = Section(
    name: string, virtualSize: Dword, virtualBase: Rva, fileSize: Dword, fileOffset: Dword, characteristics: Dword)

  // The parsed tables, and the file they come from.
  datatype PeData = PeData(
    imageBase: Word,
    importSectionBase: Rva,
    importDir: seq<ImportDirectoryEntry>,
    iat: seq<ImportAddressEntry>,
    exports: seq<ExportEntry>,
    symbols: seq<WinSymbol>,
    sections: seq<Section>,
    file: seq<Byte>)

  datatype WinRuntimeExport = WinRuntimeExport(address: Word, name: string)

  datatype WinRuntimeObject = WinRuntimeObject(
    name: string, pe: PeData, exports: seq<WinRuntimeExport>, iatSectionBase: Word)

  datatype RuntimeImport = RuntimeImport(
    key: Word, value: Word, libName: Option<string>, importName: Option<string>, isVariable: bool)

  // ---------------------------------------------------------------- searching an import directory

  function FirstNameIn(d: ImportDirectoryEntry, value: Word, j: nat): Option<string>
    requires j <= |d.imports|
    decreases |d.imports| - j
  {
    if j == |d.imports| then None
    else if d.imports[j].address == value then Some(d.imports[j].name)
    else FirstNameIn(d, value, j + 1)
  }

  /** Library and name of the first import with the address. */
  function FirstImport(dir: seq<ImportDirectoryEntry>, value: Word): Option<(string, string)> {
    if dir == [] then None
    else
      match FirstNameIn(dir[0], value, 0)
      case Some(name) => Some((dir[0].libName, name))
      case None => FirstImport(dir[1..], value)
  }

  predicate ImportAt(dir: seq<ImportDirectoryEntry>, i: nat, j: nat, value: Word) {
    i < |dir| && j < |dir[i].imports| && dir[i].imports[j].address == value
  }

  // No two imports of an image share a hint/name entry.
  ghost predicate DistinctAddresses(dir: seq<ImportDirectoryEntry>) {
    forall i: nat, j: nat, i': nat, j': nat, v ::
      ImportAt(dir, i, j, v) && ImportAt(dir, i', j', v) ==> i == i' && j == j'
  }

  lemma FirstNameFound(d: ImportDirectoryEntry, value: Word, from: nat) returns (j: nat)
    requires from <= |d.imports|
    requires FirstNameIn(d, value, from).Some?
    ensures from <= j < |d.imports| && d.imports[j].address == value
    ensures FirstNameIn(d, value, from) == Some(d.imports[j].name)
    decreases |d.imports| - from
  {
    if d.imports[from].address == value {
      j := from;
    } else {
      j := FirstNameFound(d, value, from + 1);
    }
  }

  lemma FirstImportFound(dir: seq<ImportDirectoryEntry>, value: Word) returns (i: nat, j: nat)
    requires FirstImport(dir, value).Some?
    ensures ImportAt(dir, i, j, value)
    ensures FirstImport(dir, value) == Some((dir[i].libName, dir[i].imports[j].name))
  {
    if FirstNameIn(dir[0], value, 0).Some? {
      i := 0;
      j := FirstNameFound(dir[0], value, 0);
    } else {
      i, j := FirstImportFound(dir[1..], value);
      i := i + 1;
    }
  }
}
