/** Decoding the import section of a 64-bit PE image, laid out as in "The .idata Section" of the
    Microsoft PE format: directory entries, lookup tables, hint/name entries, and the import address
    table annotated with what each entry imports. */
module PeImports {
  import opened Words
  import opened WinImages
  import opened SectionBytes

  const MAX_ARRAY_LENGTH := 1000
  const RAW_ENTRY := 20
  const NAME_ENTRY_OFFSET := 2
  const ORDINAL_BIT := 0x8000_0000   // (uint32_t)0x8 << 60, the shift count taken modulo 32

  // ---------------------------------------------------------------- the nested loops

  function NameOf(buf: seq<Byte>, lookupEntry: Word, base: Rva): string {
    if lookupEntry / ORDINAL_BIT % 2 == 1 then "<ordinal>"
    else StringFrom(buf, lookupEntry % ORDINAL_BIT - base + NAME_ENTRY_OFFSET)
  }

  /** The loader takes an import to be by ordinal when bit 31 of its lookup entry is set. The format's flag is bit 63
      ("Import Lookup Table"): with that flag alone, the ordinal is taken for the address of a name. */
  lemma OrdinalImports(buf: seq<Byte>, lookupEntry: Word, ordinal: nat, base: Rva)
    requires ordinal < 0x1_0000
    ensures lookupEntry / 0x8000_0000 % 2 == 1 ==> NameOf(buf, lookupEntry, base) == "<ordinal>"
    ensures NameOf(buf, 0x8000_0000_0000_0000 + ordinal, base) == StringFrom(buf, ordinal - base + 2)
  {
    var entry: Word := 0x8000_0000_0000_0000 + ordinal;
    assert entry == 0x1_0000_0000 * 0x8000_0000 + ordinal;
    assert entry / 0x8000_0000 == 0x1_0000_0000 && entry % 0x8000_0000 == ordinal;
  }

  /** The imports of one DLL, `found` being those before index `j`; none when the table reaches the
      array limit. */
  function ImportsFrom(buf: seq<Byte>, lookup: int, iat: int, base: Rva, j: nat, found: seq<ImportEntry>)
    : Option<seq<ImportEntry>>
    requires j <= MAX_ARRAY_LENGTH
    decreases MAX_ARRAY_LENGTH - j, |buf|
  {
    if j == MAX_ARRAY_LENGTH then None
    else if WordAt(buf, lookup + j * 8) == 0 then Some(found)
    else
      var entry := ImportEntry(NameOf(buf, WordAt(buf, lookup + j * 8), base), WordAt(buf, iat + j * 8));
      ImportsFrom(buf, lookup, iat, base, j + 1, found + [entry])
  }

  predicate EmptyEntry(buf: seq<Byte>, at: int) {
    IsEmpty(buf, at, at + RAW_ENTRY)
  }

  function RawEntry(buf: seq<Byte>, at: int, base: Rva): Option<ImportDirectoryEntry> {
    match ImportsFrom(buf, DwordAt(buf, at) - base, DwordAt(buf, at + 16) - base, base, 0, [])
    case None => None
    case Some(imports) => Some(ImportDirectoryEntry(StringFrom(buf, DwordAt(buf, at + 12) - base), imports))
  }

  function DirectoryFrom(buf: seq<Byte>, o: int, base: Rva, i: nat, found: seq<ImportDirectoryEntry>)
    : Option<seq<ImportDirectoryEntry>>
    requires i <= MAX_ARRAY_LENGTH
    decreases MAX_ARRAY_LENGTH - i, |buf|
  {
    if i == MAX_ARRAY_LENGTH then None
    else if EmptyEntry(buf, o + i * RAW_ENTRY) then Some(found)
    else
      match RawEntry(buf, o + i * RAW_ENTRY, base)
      case None => None
      case Some(d) => DirectoryFrom(buf, o, base, i + 1, found + [d])
  }

  method ReadString(buf: seq<Byte>, o: int) returns (r: string)
    ensures r == StringFrom(buf, o)
  {
    r := [];
    var i := o;
    while FileByte(buf, i) != 0
      invariant StringFrom(buf, o) == r + StringFrom(buf, i)
      decreases |buf| - i
    {
      r := r + [FileByte(buf, i) as char];
      i := i + 1;
    }
  }

  /** The inner loop: the named imports of one DLL. */
  method ReadImports(buf: seq<Byte>, lookup: int, iat: int, base: Rva) returns (r: Option<seq<ImportEntry>>)
    ensures r == ImportsFrom(buf, lookup, iat, base, 0, [])
  {
    var entries: seq<ImportEntry> := [];
    var j := 0;
    while true
      invariant j <= MAX_ARRAY_LENGTH
      invariant ImportsFrom(buf, lookup, iat, base, 0, []) == ImportsFrom(buf, lookup, iat, base, j, entries)
      decreases MAX_ARRAY_LENGTH - j
    {
      if j == MAX_ARRAY_LENGTH {
        return None;
      }
      var lookupEntry, addressEntry := WordAt(buf, lookup + j * 8), WordAt(buf, iat + j * 8);
      if lookupEntry == 0 {
        break;
      }
      var name := "<ordinal>";
      if lookupEntry / ORDINAL_BIT % 2 == 0 {
        name := ReadString(buf, lookupEntry % ORDINAL_BIT - base + NAME_ENTRY_OFFSET);
      }
      entries := entries + [ImportEntry(name, addressEntry)];
      j := j + 1;
    }
    return Some(entries);
  }

  method ReadEntry(buf: seq<Byte>, at: int, base: Rva) returns (r: Option<ImportDirectoryEntry>)
    ensures r == RawEntry(buf, at, base)
  {
    var libName := ReadString(buf, DwordAt(buf, at + 12) - base);
    var imports := ReadImports(buf, DwordAt(buf, at) - base, DwordAt(buf, at + 16) - base, base);
    if imports == None {
      return None;
    }
    return Some(ImportDirectoryEntry(libName, imports.value));
  }

  /** The import directory part of `get_pe_data`; the directory lies at `o` of the section. */
  method ReadImportDirectory(buf: seq<Byte>, base: Rva, o: int) returns (r: Option<seq<ImportDirectoryEntry>>)
    ensures r == DirectoryFrom(buf, o, base, 0, [])
  {
    var entries: seq<ImportDirectoryEntry> := [];
    var i := 0;
    while true
      invariant i <= MAX_ARRAY_LENGTH
      invariant DirectoryFrom(buf, o, base, 0, []) == DirectoryFrom(buf, o, base, i, entries)
      decreases MAX_ARRAY_LENGTH - i
    {
      if i == MAX_ARRAY_LENGTH {
        return None;
      }
      var at := o + i * RAW_ENTRY;
      var empty := MemIsEmpty(buf, at, RAW_ENTRY);
      if empty {
        break;
      }
      var entry := ReadEntry(buf, at, base);
      if entry == None {
        return None;
      }
      entries := entries + [entry.value];
      i := i + 1;
    }
    return Some(entries);
  }

  // ---------------------------------------------------------------- sections laid out by the format

  /** The five double words of a directory entry, and the words of its lookup table. */
  datatype RawDll = RawDll(lookup: Rva, stamp: Dword, chain: Dword, name: Rva, iat: Rva, hints: seq<Word>)

  function DllBytes(d: RawDll): (r: seq<Byte>)
    ensures |r| == 20
  {
    LeBytes(d.lookup, 4) + (LeBytes(d.stamp, 4) + (LeBytes(d.chain, 4) + (LeBytes(d.name, 4) + LeBytes(d.iat, 4))))
  }

  function DirectoryBytes(raws: seq<RawDll>): (r: seq<Byte>)
    ensures |r| == 20 * |raws|
  {
    if raws == [] then [] else DllBytes(raws[0]) + DirectoryBytes(raws[1..])
  }

  /** A lookup table or an import address table: words and a null. */
  function TableBytes(words: seq<Word>): (r: seq<Byte>)
    ensures |r| == 8 * (|words| + 1)
  {
    if words == [] then LeBytes(0, 8) else LeBytes(words[0], 8) + TableBytes(words[1..])
  }

  function Addresses(imports: seq<ImportEntry>): (r: seq<Word>)
    ensures |r| == |imports|
  {
    seq(|imports|, i requires 0 <= i < |imports| => imports[i].address)
  }

  /** The hint/name entry of an import: a hint of two bytes and the null-terminated name. */
  ghost predicate HintNameAt(buf: seq<Byte>, base: Rva, hint: Word, name: string) {
    && 0 < hint < ORDINAL_BIT && IsName(name)
    && BytesAt(buf, hint - base + 2, NameBytes(name) + [0])
  }

  /** One DLL: its name, its lookup table with the hint/name entries it points to, and its import address table,
      bound or not. */
  ghost predicate DllAt(buf: seq<Byte>, base: Rva, raw: RawDll, d: ImportDirectoryEntry) {
    && raw.name != 0 && |raw.hints| == |d.imports|
    && IsName(d.libName) && BytesAt(buf, raw.name - base, NameBytes(d.libName) + [0])
    && BytesAt(buf, raw.lookup - base, TableBytes(raw.hints))
    && BytesAt(buf, raw.iat - base, TableBytes(Addresses(d.imports)))
    && forall j :: 0 <= j < |d.imports| ==> HintNameAt(buf, base, raw.hints[j], d.imports[j].name)
  }

  /** The image is not bound: both tables are the same. */
  ghost predicate Unbound(raws: seq<RawDll>, dir: seq<ImportDirectoryEntry>) {
    |raws| == |dir| && forall i :: 0 <= i < |dir| ==> raws[i].hints == Addresses(dir[i].imports)
  }

  /** The import directory at `o`, ended by an entry of zeros. */
  ghost predicate DirectoryAt(buf: seq<Byte>, o: int, base: Rva, raws: seq<RawDll>, dir: seq<ImportDirectoryEntry>) {
    && |raws| == |dir| && BytesAt(buf, o, DirectoryBytes(raws) + seq(20, _ => 0))
    && forall i :: 0 <= i < |dir| ==> DllAt(buf, base, raws[i], dir[i])
  }

  predicate TablesFit(dir: seq<ImportDirectoryEntry>) {
    && |dir| < MAX_ARRAY_LENGTH
    && forall i | 0 <= i < |dir| :: |dir[i].imports| < MAX_ARRAY_LENGTH
  }

  lemma {:induction false} TableWord(buf: seq<Byte>, o: int, words: seq<Word>, j: nat)
    requires BytesAt(buf, o, TableBytes(words)) && j <= |words|
    ensures WordAt(buf, o + j * 8) == if j == |words| then 0 else words[j]
    decreases j
  {
    hide WordAt, LeBytes;
    if words == [] {
      WordRead(buf, o, 0);
    } else {
      BytesSplit(buf, o, LeBytes(words[0], 8), TableBytes(words[1..]));
      if j == 0 {
        WordRead(buf, o, words[0]);
      } else {
        TableWord(buf, o + 8, words[1..], j - 1);
      }
    }
  }

  lemma {:induction false} DllPlace(buf: seq<Byte>, o: int, raws: seq<RawDll>, tail: seq<Byte>, i: nat)
    requires BytesAt(buf, o, DirectoryBytes(raws) + tail) && i <= |raws|
    ensures i < |raws| ==> BytesAt(buf, o + i * 20, DllBytes(raws[i]))
    ensures i == |raws| ==> BytesAt(buf, o + i * 20, tail)
    decreases i
  {
    hide DllBytes, BytesAt;
    if raws == [] {
      assert DirectoryBytes(raws) + tail == tail;
    } else {
      var rest := DirectoryBytes(raws[1..]) + tail;
      assert DirectoryBytes(raws) + tail == DllBytes(raws[0]) + rest;
      BytesSplit(buf, o, DllBytes(raws[0]), rest);
      if i > 0 {
        DllPlace(buf, o + 20, raws[1..], tail, i - 1);
      }
    }
  }

  lemma DllFields(buf: seq<Byte>, at: int, d: RawDll)
    requires BytesAt(buf, at, DllBytes(d))
    ensures DwordAt(buf, at) == d.lookup && DwordAt(buf, at + 12) == d.name && DwordAt(buf, at + 16) == d.iat
    ensures d.name != 0 ==> !EmptyEntry(buf, at)
  {
    hide BytesAt, LeBytes, DwordAt, EmptyEntry;
    BytesSplit(buf, at, LeBytes(d.lookup, 4),
               LeBytes(d.stamp, 4) + (LeBytes(d.chain, 4) + (LeBytes(d.name, 4) + LeBytes(d.iat, 4))));
    BytesSplit(buf, at + 4, LeBytes(d.stamp, 4), LeBytes(d.chain, 4) + (LeBytes(d.name, 4) + LeBytes(d.iat, 4)));
    BytesSplit(buf, at + 8, LeBytes(d.chain, 4), LeBytes(d.name, 4) + LeBytes(d.iat, 4));
    BytesSplit(buf, at + 12, LeBytes(d.name, 4), LeBytes(d.iat, 4));
    DwordRead(buf, at, d.lookup);
    DwordRead(buf, at + 12, d.name);
    DwordRead(buf, at + 16, d.iat);
    if d.name != 0 {
      EntryNotEmpty(buf, at, d);
    }
  }

  lemma EntryNotEmpty(buf: seq<Byte>, at: int, d: RawDll)
    requires BytesAt(buf, at, DllBytes(d)) && DwordAt(buf, at + 12) != 0
    ensures !EmptyEntry(buf, at)
  {
    if EmptyEntry(buf, at) {
      EmptyDword(buf, at, at + 20, at + 12);
    }
  }

  lemma {:induction false} EmptyDword(buf: seq<Byte>, o: int, end: int, at: int)
    requires IsEmpty(buf, o, end) && o <= at && at + 4 <= end
    ensures DwordAt(buf, at) == 0
    decreases at - o
  {
    if o < at {
      EmptyDword(buf, o + 1, end, at);
    } else {
      assert IsEmpty(buf, o + 1, end) && IsEmpty(buf, o + 2, end) && IsEmpty(buf, o + 3, end);
      assert LeBetween(buf, at + 4, at + 4) == 0 && LeBetween(buf, at + 3, at + 4) == 0;
      assert LeBetween(buf, at + 2, at + 4) == 0 && LeBetween(buf, at + 1, at + 4) == 0;
    }
  }

  lemma {:induction false} ImportsRead(
    buf: seq<Byte>, lookup: int, iat: int, base: Rva, hints: seq<Word>, imports: seq<ImportEntry>, j: nat)
    requires |hints| == |imports|
    requires BytesAt(buf, lookup, TableBytes(hints)) && BytesAt(buf, iat, TableBytes(Addresses(imports)))
    requires forall i :: 0 <= i < |imports| ==> HintNameAt(buf, base, hints[i], imports[i].name)
    requires j <= |imports| && j <= MAX_ARRAY_LENGTH
    ensures ImportsFrom(buf, lookup, iat, base, j, imports[..j])
         == if |imports| < MAX_ARRAY_LENGTH then Some(imports) else None
    decreases MAX_ARRAY_LENGTH - j
  {
    hide WordAt, BytesAt;
    if j < MAX_ARRAY_LENGTH {
      TableWord(buf, lookup, hints, j);
      TableWord(buf, iat, Addresses(imports), j);
    }
    if j < |imports| && j < MAX_ARRAY_LENGTH {
      var e := imports[j];
      NameRead(buf, hints[j] - base + 2, e.name);
      assert imports[..j] + [e] == imports[..j + 1];
      ImportsRead(buf, lookup, iat, base, hints, imports, j + 1);
    } else if j == |imports| {
      assert imports[..j] == imports;
    }
  }

  lemma EntryRead(buf: seq<Byte>, at: int, base: Rva, raw: RawDll, d: ImportDirectoryEntry)
    requires BytesAt(buf, at, DllBytes(raw)) && DllAt(buf, base, raw, d)
    ensures !EmptyEntry(buf, at)
    ensures RawEntry(buf, at, base) == if |d.imports| < MAX_ARRAY_LENGTH then Some(d) else None
  {
    hide EmptyEntry, BytesAt, DwordAt, ImportsFrom, HintNameAt;
    DllFields(buf, at, raw);
    NameRead(buf, raw.name - base, d.libName);
    ImportsRead(buf, raw.lookup - base, raw.iat - base, base, raw.hints, d.imports, 0);
    assert d.imports[..0] == [];
  }

  lemma {:induction false} DirectoryRead(
    buf: seq<Byte>, o: int, base: Rva, raws: seq<RawDll>, dir: seq<ImportDirectoryEntry>, i: nat)
    requires DirectoryAt(buf, o, base, raws, dir) && i <= |dir| && i <= MAX_ARRAY_LENGTH
    requires forall k :: 0 <= k < i ==> |dir[k].imports| < MAX_ARRAY_LENGTH
    ensures DirectoryFrom(buf, o, base, i, dir[..i]) == if TablesFit(dir) then Some(dir) else None
    decreases MAX_ARRAY_LENGTH - i
  {
    hide EmptyEntry, RawEntry, BytesAt, DllBytes, DllAt, DirectoryBytes;
    DllPlace(buf, o, raws, seq(20, _ => 0), i);
    if i < |dir| && i < MAX_ARRAY_LENGTH {
      var d := dir[i];
      EntryRead(buf, o + i * 20, base, raws[i], d);
      if |d.imports| < MAX_ARRAY_LENGTH {
        assert dir[..i] + [d] == dir[..i + 1];
        DirectoryRead(buf, o, base, raws, dir, i + 1);
      }
    } else if i == |dir| {
      assert dir[..i] == dir;
      LastIsEmpty(buf, o + i * 20);
    }
  }

  lemma LastIsEmpty(buf: seq<Byte>, at: int)
    requires BytesAt(buf, at, seq(20, _ => 0))
    ensures EmptyEntry(buf, at)
  {
    ZerosAreEmpty(buf, at, 20);
  }

  /** Decoding undoes encoding: any directory laid out by the format is read back as the same list, in
      order, exactly when its tables stay below the array limit. */
  lemma DirectoryRoundTrip(
    buf: seq<Byte>, o: int, base: Rva, raws: seq<RawDll>, dir: seq<ImportDirectoryEntry>)
    requires DirectoryAt(buf, o, base, raws, dir)
    ensures DirectoryFrom(buf, o, base, 0, []) == if TablesFit(dir) then Some(dir) else None
  {
    DirectoryRead(buf, o, base, raws, dir, 0);
    assert dir[..0] == [];
  }

  // ---------------------------------------------------------------- the import address table

  method FindImportEntry(dir: seq<ImportDirectoryEntry>, value: Word) returns (r: Option<(string, string)>)
    ensures r == FirstImport(dir, value)
  {
    for i := 0 to |dir|
      invariant FirstImport(dir, value) == FirstImport(dir[i..], value)
    {
      for j := 0 to |dir[i].imports|
        invariant FirstNameIn(dir[i], value, 0) == FirstNameIn(dir[i], value, j)
      {
        if dir[i].imports[j].address == value {
          return Some((dir[i].libName, dir[i].imports[j].name));
        }
      }
      assert dir[i..][1..] == dir[i + 1..];
    }
    return None;
  }

  function Annotated(key: Word, value: Word, dir: seq<ImportDirectoryEntry>): ImportAddressEntry {
    match FirstImport(dir, value)
    case None => ImportAddressEntry(key, value, None, None)
    case Some((libName, name)) => ImportAddressEntry(key, value, Some(libName), Some(name))
  }

  function IatLength(size: nat): nat {
    if size < 8 then 0 else size / 8 - 1
  }

  /** The annotated table; `rva` and `size` come from the data directory. None for a size between 1 and 7, where
      the count wraps around to 2^64 - 1 entries. */
  method ReadIat(buf: seq<Byte>, base: Rva, rva: Rva, size: Dword, dir: seq<ImportDirectoryEntry>)
    returns (r: Option<seq<ImportAddressEntry>>)
    ensures r == None <==> 0 < size < 8
    ensures r.Some? ==> |r.value| == IatLength(size)
    ensures r.Some? ==> forall i :: 0 <= i < |r.value| ==>
      r.value[i] == Annotated(Wrap(rva + i * 8), WordAt(buf, rva - base + i * 8), dir)
  {
    if 0 < size < 8 {
      return None;
    }
    var len := if size == 0 then size else size / 8 - 1;
    var table: seq<ImportAddressEntry> := [];
    for i := 0 to len
      invariant |table| == i
      invariant forall k :: 0 <= k < i ==>
        table[k] == Annotated(Wrap(rva + k * 8), WordAt(buf, rva - base + k * 8), dir)
    {
      var key, value := Wrap(rva + i * 8), WordAt(buf, rva - base + i * 8);
      var found := FindImportEntry(dir, value);
      var entry := ImportAddressEntry(key, value, None, None);
      if found.Some? {
        entry := ImportAddressEntry(key, value, Some(found.value.0), Some(found.value.1));
      }
      table := table + [entry];
    }
    return Some(table);
  }

  // ---------------------------------------------------------------- the table of a well-formed image

  // A word of the import address table: an import, or the null that separates two DLLs.
  datatype IatWord = Separator | Imported(libName: string, entry: ImportEntry)

  function WordsOf(libName: string, imports: seq<ImportEntry>): seq<IatWord> {
    if imports == [] then [Separator] else [Imported(libName, imports[0])] + WordsOf(libName, imports[1..])
  }

  /** The per-DLL tables one after the other, each with its null. */
  function Flat(dir: seq<ImportDirectoryEntry>): seq<IatWord> {
    if dir == [] then [] else WordsOf(dir[0].libName, dir[0].imports) + Flat(dir[1..])
  }

  function ValueOf(w: IatWord): Word {
    match w
    case Separator => 0
    case Imported(_, e) => e.address
  }

  function EntryFor(w: IatWord, key: Word): ImportAddressEntry {
    match w
    case Separator => ImportAddressEntry(key, 0, None, None)
    case Imported(libName, e) => ImportAddressEntry(key, e.address, Some(libName), Some(e.name))
  }

  /** The import address table of the whole image before it is bound: the tables of its DLLs one after the other. */
  function IatBytes(dir: seq<ImportDirectoryEntry>): seq<Byte> {
    if dir == [] then [] else TableBytes(Addresses(dir[0].imports)) + IatBytes(dir[1..])
  }

  lemma {:induction false} WordInTable(buf: seq<Byte>, o: int, dir: seq<ImportDirectoryEntry>, k: nat)
    requires BytesAt(buf, o, IatBytes(dir)) && k < |Flat(dir)|
    ensures WordAt(buf, o + k * 8) == ValueOf(Flat(dir)[k])
    decreases |dir|
  {
    hide WordAt, BytesAt;
    var n := |dir[0].imports|;
    WordsAt(dir[0].libName, dir[0].imports, if k <= n then k else n);
    BytesSplit(buf, o, TableBytes(Addresses(dir[0].imports)), IatBytes(dir[1..]));
    if k <= n {
      TableWord(buf, o, Addresses(dir[0].imports), k);
    } else {
      WordInTable(buf, o + 8 * (n + 1), dir[1..], k - n - 1);
    }
  }

  ghost predicate AddressesNonzero(dir: seq<ImportDirectoryEntry>) {
    forall i: nat, j: nat :: !ImportAt(dir, i, j, 0)
  }

  lemma {:induction false} WordsAt(libName: string, imports: seq<ImportEntry>, k: nat)
    requires k <= |imports|
    ensures |WordsOf(libName, imports)| == |imports| + 1
    ensures WordsOf(libName, imports)[k] == if k == |imports| then Separator else Imported(libName, imports[k])
  {
    if imports != [] {
      WordsAt(libName, imports[1..], if k == 0 then 0 else k - 1);
    }
  }

  /** The position in the directory of a word of the table. */
  function PlaceOf(dir: seq<ImportDirectoryEntry>, k: nat): (nat, nat) {
    if dir == [] || k <= |dir[0].imports| then (0, k)
    else var (i, j) := PlaceOf(dir[1..], k - |dir[0].imports| - 1); (i + 1, j)
  }

  lemma {:induction false} FlatAt(dir: seq<ImportDirectoryEntry>, k: nat)
    requires k < |Flat(dir)| && Flat(dir)[k].Imported?
    ensures var (i, j) := PlaceOf(dir, k);
      ImportAt(dir, i, j, Flat(dir)[k].entry.address) && Flat(dir)[k] == Imported(dir[i].libName, dir[i].imports[j])
  {
    var n := |dir[0].imports|;
    WordsAt(dir[0].libName, dir[0].imports, if k < n then k else n);
    if k > n {
      FlatAt(dir[1..], k - n - 1);
    }
  }

  lemma {:induction false} PlacesDiffer(dir: seq<ImportDirectoryEntry>, k: nat, k': nat)
    requires k != k'
    ensures PlaceOf(dir, k) != PlaceOf(dir, k')
  {
    if dir != [] && k > |dir[0].imports| && k' > |dir[0].imports| {
      PlacesDiffer(dir[1..], k - |dir[0].imports| - 1, k' - |dir[0].imports| - 1);
    }
  }

  lemma {:induction false} FirstNameExists(d: ImportDirectoryEntry, value: Word, from: nat, j: nat)
    requires from <= j < |d.imports| && d.imports[j].address == value
    ensures FirstNameIn(d, value, from).Some?
    decreases j - from
  {
    if from < j && d.imports[from].address != value {
      FirstNameExists(d, value, from + 1, j);
    }
  }

  lemma {:induction false} FirstImportExists(dir: seq<ImportDirectoryEntry>, value: Word, i: nat, j: nat)
    requires ImportAt(dir, i, j, value)
    ensures FirstImport(dir, value).Some?
  {
    if i == 0 {
      FirstNameExists(dir[0], value, 0, j);
    } else {
      assert ImportAt(dir[1..], i - 1, j, value);
      FirstImportExists(dir[1..], value, i - 1, j);
    }
  }

  /** A word is annotated with its own library and name, a null with nothing. */
  lemma AnnotatesOwn(dir: seq<ImportDirectoryEntry>, k: nat, key: Word)
    requires DistinctAddresses(dir) && AddressesNonzero(dir) && k < |Flat(dir)|
    ensures Annotated(key, ValueOf(Flat(dir)[k]), dir) == EntryFor(Flat(dir)[k], key)
  {
    var value := ValueOf(Flat(dir)[k]);
    if Flat(dir)[k].Imported? {
      var (i, j) := PlaceOf(dir, k);
      FlatAt(dir, k);
      FirstImportExists(dir, value, i, j);
      var i', j' := FirstImportFound(dir, value);
      assert i == i' && j == j';
    } else if FirstImport(dir, 0).Some? {
      var i, j := FirstImportFound(dir, 0);
    }
  }

  /** The import address table of a well-formed image is read as the tables of its DLLs, the last null
      left out, and every entry carries its own library and name. */
  lemma IatIsFlat(
    buf: seq<Byte>, base: Rva, rva: Rva, size: nat, dir: seq<ImportDirectoryEntry>, table: seq<ImportAddressEntry>)
    requires DistinctAddresses(dir) && AddressesNonzero(dir)
    requires size == 8 * |Flat(dir)|
    requires BytesAt(buf, rva - base, IatBytes(dir))
    requires |table| == IatLength(size)
    requires forall i :: 0 <= i < |table| ==>
      table[i] == Annotated(Wrap(rva + i * 8), WordAt(buf, rva - base + i * 8), dir)
    ensures dir != [] ==> |table| == |Flat(dir)| - 1
    ensures forall k :: 0 <= k < |table| ==> table[k] == EntryFor(Flat(dir)[k], Wrap(rva + k * 8))
  {
    forall k | 0 <= k < |table| ensures table[k] == EntryFor(Flat(dir)[k], Wrap(rva + k * 8)) {
      WordInTable(buf, rva - base, dir, k);
      AnnotatesOwn(dir, k, Wrap(rva + k * 8));
    }
    if dir != [] {
      assert |WordsOf(dir[0].libName, dir[0].imports)| >= 1;
    }
  }
}
