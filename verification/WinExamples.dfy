/** Two small libraries whose functions the callback does not find where a caller means them. */
module WinExamples {
  import opened ElfTypes
  import opened WinImages
  import opened WinLoader
  import opened Words

  const FIRST_BASE: Word := 0x1_0000_0000
  const SECOND_BASE: Word := 0x2_0000_0000
  const START: Word := 0x1000_0000

  function Library(base: Word): PeData {
    PeData(base, 0, [], [], [ExportEntry(0x1000, "f"), ExportEntry(0x2000, "g")], [],
           [Section(".text", 0x3000, 0x1000, 0, 0, 0)], [])
  }

  const FILES := map["a.dll" := Library(FIRST_BASE), "b.dll" := Library(SECOND_BASE)]

  // The executable imports f from both libraries and g from none.
  const DIRECTORY :=
    [ImportDirectoryEntry("a.dll", [ImportEntry("f", 0x100)]), ImportDirectoryEntry("b.dll", [ImportEntry("f", 0x110)])]

  function LoadedLibrary(name: string, base: Word): WinRuntimeObject
    requires base + 0x1000 < WORD_LIMIT
  {
    WinRuntimeObject(name, Library(base), [WinRuntimeExport(base + 0x1000, "f")], 0)
  }

  lemma OneRecorded(base: Word, e: ImportEntry)
    requires base + 0x1000 < WORD_LIMIT && e.name == "f"
    ensures Recorded([e], Library(base)) == Some([WinRuntimeExport(base + 0x1000, "f")])
  {
    var exports := Library(base).exports;
    assert exports[..1] == [ExportEntry(0x1000, "f")];
    assert "g"[0] != "f"[0];
    assert ExportNamed(exports, "f") == Some(exports[0]);
    assert [e][..0] == [];
    var x := WinRuntimeExport(base + 0x1000, "f");
    assert Recorded([e], Library(base)) == Some([] + [x]) && [] + [x] == [x];
  }

  lemma OneMoreLoaded(dir: seq<ImportDirectoryEntry>, d: ImportDirectoryEntry, libs: seq<WinRuntimeObject>)
    requires LoadedDlls(dir, FILES, START) == Some(libs) && LoadedDll(d, FILES, Cursor(START, libs)).Some?
    ensures LoadedDlls(dir + [d], FILES, START) == Some(libs + [LoadedDll(d, FILES, Cursor(START, libs)).value])
  {
    assert (dir + [d])[..|dir|] == dir;
  }

  lemma LookUps(libs: seq<WinRuntimeObject>, first: WinRuntimeObject, second: WinRuntimeObject)
    requires libs == [first, second]
    requires first == LoadedLibrary("a.dll", FIRST_BASE) && second == LoadedLibrary("b.dll", SECOND_BASE)
    ensures LastRecorded(libs, "f") == SECOND_BASE + 0x1000 && LastRecorded(libs, "g") == 0
  {
    assert "f"[0] != "g"[0] && libs[..1] == [first] && libs[..1][..0] == [];
    assert LastRecorded(libs[..1], "g") == 0;
  }

  /** A call of a.dll's f arrives in b.dll, whose f the executable imports too, and a call of g, imported by a
      library alone, arrives nowhere. */
  lemma OtherLibraryReached(ntdll: seq<RuntimeSymbol>)
    ensures exists libs ::
      && LoadedDlls(DIRECTORY, FILES, START) == Some(libs)
      && NamedTarget(libs, ntdll, "a.dll", "f") == Some(Target(false, SECOND_BASE + 0x1000))
      && NamedTarget(libs, ntdll, "a.dll", "g") == None
  {
    assert LoadedDlls([], FILES, START) == Some([]);
    hide Recorded, Cursor, LastRecorded, LoadedDlls;
    var first, second := LoadedLibrary("a.dll", FIRST_BASE), LoadedLibrary("b.dll", SECOND_BASE);
    OneRecorded(FIRST_BASE, DIRECTORY[0].imports[0]);
    OneRecorded(SECOND_BASE, DIRECTORY[1].imports[0]);
    assert "a.dll"[0] != "b.dll"[0] && "f"[0] != "g"[0];
    assert LoadedDll(DIRECTORY[0], FILES, Cursor(START, [])) == Some(first);
    assert LoadedDll(DIRECTORY[1], FILES, Cursor(START, [first])) == Some(second);
    assert [] + [DIRECTORY[0]] == [DIRECTORY[0]] && [] + [first] == [first];
    OneMoreLoaded([], DIRECTORY[0], []);
    OneMoreLoaded([DIRECTORY[0]], DIRECTORY[1], [first]);
    var libs := [first, second];
    assert [DIRECTORY[0]] + [DIRECTORY[1]] == DIRECTORY && [first] + [second] == libs;
    LookUps(libs, first, second);
  }
}
