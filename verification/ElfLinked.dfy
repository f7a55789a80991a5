/** What linking establishes: symbol interposition, copied variables, the words the lazy resolver
    needs, and where the loader departs from the relocation rules of the AMD64 psABI. */
module ElfLinked {
  import opened Words
  import opened AddressSpace
  import opened ElfTypes
  import opened ElfLink

  // ---------------------------------------------------------------- symbol lookup

  /** The first match in search order. */
  lemma {:induction false} FindSymbolIs(symbols: seq<RuntimeSymbol>, name: string, ignored: Word, from: nat, i: nat)
    requires from <= i < |symbols| && Matches(symbols[i], name, ignored)
    requires forall j :: from <= j < i ==> !Matches(symbols[j], name, ignored)
    ensures FindSymbol(symbols, name, ignored, from) == Some(symbols[i])
    decreases i - from
  {
    if from < i {
      FindSymbolIs(symbols, name, ignored, from + 1, i);
    }
  }

  lemma {:induction false} FindSymbolFound(symbols: seq<RuntimeSymbol>, name: string, ignored: Word, from: nat)
    returns (i: nat)
    requires from <= |symbols| && FindSymbol(symbols, name, ignored, from).Some?
    ensures from <= i < |symbols| && FindSymbol(symbols, name, ignored, from) == Some(symbols[i])
    ensures Matches(symbols[i], name, ignored) && forall j :: from <= j < i ==> !Matches(symbols[j], name, ignored)
    decreases |symbols| - from
  {
    if Matches(symbols[from], name, ignored) {
      i := from;
    } else {
      i := FindSymbolFound(symbols, name, ignored, from + 1);
    }
  }

  /** An executable symbol is recorded at its file value, so for a position-independent executable it
      is right only at load offset 0. */
  lemma ExecutableSymbolAddress(exe: DynamicData, libs: seq<SharedObject>, offset: Word, i: nat)
    requires i < |exe.symbols| && exe.symbols[i].value != 0
    ensures i < |AllSymbols(exe, libs)| && AllSymbols(exe, libs)[i].value == exe.symbols[i].value
    ensures AllSymbols(exe, libs)[i].name == exe.symbols[i].name
    ensures exe.symbols[i].value == Wrap(offset + exe.symbols[i].value) <==> offset == 0
  {
    var v: int := exe.symbols[i].value;
    assert Wrap(0 + v) == v;
    if v < WORD_LIMIT - offset {
      assert Wrap(offset + v) == offset + v;
    } else {
      assert Wrap(offset + v) == offset + v - WORD_LIMIT by { WrapShift(offset + v - WORD_LIMIT, 1); }
    }
  }

  /** The search goes on in the second list when the first one has no match. */
  lemma {:induction false} FindInSecond(
    first: seq<RuntimeSymbol>, second: seq<RuntimeSymbol>, name: string, ignored: Word, from: nat)
    requires from <= |first| && forall i :: from <= i < |first| ==> !Matches(first[i], name, ignored)
    ensures FindSymbol(first + second, name, ignored, from) == FindSymbol(second, name, ignored, 0)
    decreases |first| - from
  {
    if from < |first| {
      assert (first + second)[from] == first[from];
      FindInSecond(first, second, name, ignored, from + 1);
    } else {
      FindShifted(first, second, name, ignored, 0);
    }
  }

  lemma {:induction false} FindShifted(
    first: seq<RuntimeSymbol>, second: seq<RuntimeSymbol>, name: string, ignored: Word, from: nat)
    requires from <= |second|
    ensures FindSymbol(first + second, name, ignored, |first| + from) == FindSymbol(second, name, ignored, from)
    decreases |second| - from
  {
    if from < |second| {
      assert (first + second)[|first| + from] == second[from];
      FindShifted(first, second, name, ignored, from + 1);
    }
  }

  /** Ignoring a value that no symbol of the name has makes no difference. */
  lemma {:induction false} IgnoredUnused(symbols: seq<RuntimeSymbol>, name: string, ignored: Word, from: nat)
    requires from <= |symbols|
    requires forall i :: 0 <= i < |symbols| && symbols[i].name == name ==> symbols[i].value != ignored
    ensures FindSymbol(symbols, name, ignored, from) == FindSymbol(symbols, name, 0, from)
    decreases |symbols| - from
  {
    if from < |symbols| {
      IgnoredUnused(symbols, name, ignored, from + 1);
    }
  }

  // ---------------------------------------------------------------- resolution and patching

  lemma {:induction false} ResolvedAt(
    all: seq<RuntimeRelocation>, k: nat, symbols: seq<RuntimeSymbol>, rs: seq<RuntimeRelocation>)
    requires k <= |all| && ResolveFrom(all, k, symbols) == Some(rs)
    ensures |rs| == |all|
    ensures forall j :: 0 <= j < k ==> rs[j] == all[j]
    ensures forall j :: k <= j < |all| ==> ResolveOne(all[j], symbols) == Some(rs[j])
    decreases |all| - k
  {
    if k < |all| {
      var next := all[k := ResolveOne(all[k], symbols).value];
      ResolvedAt(next, k + 1, symbols, rs);
      assert rs[k] == next[k];
    }
  }

  predicate IsGlobDat(r: RuntimeRelocation) {
    r.kind == R_X86_64_GLOB_DAT
  }

  // COPY and RELATIVE relocations store into memory themselves.
  predicate IsStore(r: RuntimeRelocation) {
    r.kind == R_X86_64_COPY || r.kind == R_X86_64_RELATIVE
  }

  lemma {:induction false} PatchedShape(
    got: seq<RuntimeGotEntry>, rs: seq<RuntimeRelocation>, k: nat, got': seq<RuntimeGotEntry>)
    requires k <= |rs| && PatchFrom(got, rs, k) == Some(got')
    ensures |got'| == |got|
    ensures forall i :: 0 <= i < |got| ==> got'[i].index == got[i].index && got'[i].tableOffset == got[i].tableOffset
    decreases |rs| - k
  {
    if k < |rs| {
      if IsGlobDat(rs[k]) {
        var i := GotIndex(got, rs[k].offset, 0);
        PatchedShape(got[i := got[i].(value := rs[k].value)], rs, k + 1, got');
      } else {
        PatchedShape(got, rs, k + 1, got');
      }
    }
  }

  lemma {:induction false} PatchedElsewhere(
    got: seq<RuntimeGotEntry>, rs: seq<RuntimeRelocation>, k: nat, got': seq<RuntimeGotEntry>, i: nat)
    requires k <= |rs| && PatchFrom(got, rs, k) == Some(got') && i < |got|
    requires forall j :: k <= j < |rs| && IsGlobDat(rs[j]) ==> rs[j].offset != got[i].index
    ensures |got'| == |got| && got'[i] == got[i]
    decreases |rs| - k
  {
    PatchedShape(got, rs, k, got');
    if k < |rs| {
      if IsGlobDat(rs[k]) {
        var p := GotIndex(got, rs[k].offset, 0);
        PatchedElsewhere(got[p := got[p].(value := rs[k].value)], rs, k + 1, got', i);
      } else {
        PatchedElsewhere(got, rs, k + 1, got', i);
      }
    }
  }

  predicate GlobDatDistinct(rs: seq<RuntimeRelocation>) {
    forall i, j | 0 <= i < j < |rs| && IsGlobDat(rs[i]) && IsGlobDat(rs[j]) :: rs[i].offset != rs[j].offset
  }

  lemma {:induction false} PatchedEntry(
    got: seq<RuntimeGotEntry>, rs: seq<RuntimeRelocation>, k: nat, got': seq<RuntimeGotEntry>, j: nat)
    returns (i: nat)
    requires k <= j < |rs| && IsGlobDat(rs[j]) && GlobDatDistinct(rs)
    requires PatchFrom(got, rs, k) == Some(got')
    ensures i < |got| == |got'| && got[i].index == rs[j].offset
    ensures got'[i].index == rs[j].offset && got'[i].value == rs[j].value
    decreases j - k
  {
    PatchedShape(got, rs, k, got');
    if k == j {
      i := GotIndex(got, rs[j].offset, 0);
      PatchedElsewhere(got[i := got[i].(value := rs[j].value)], rs, j + 1, got', i);
    } else if IsGlobDat(rs[k]) {
      var p := GotIndex(got, rs[k].offset, 0);
      i := PatchedEntry(got[p := got[p].(value := rs[k].value)], rs, k + 1, got', j);
    } else {
      i := PatchedEntry(got, rs, k + 1, got', j);
    }
  }

  // ---------------------------------------------------------------- the offset tables in memory

  ghost predicate EntryHolds(m: Memory, e: RuntimeGotEntry) {
    && Holds(m, e.index, LeBytes(e.value, 8))
    && (e.tableOffset != 0 ==> Holds(m, e.value, LeBytes(e.tableOffset, 8)))
  }

  // Two entries write to disjoint ranges.
  predicate GotEntriesApart(e: RuntimeGotEntry, f: RuntimeGotEntry) {
    && Apart(e.index, 8, f.index, 8)
    && (f.tableOffset != 0 ==> Apart(e.index, 8, f.value, 8))
    && (e.tableOffset != 0 ==> Apart(e.value, 8, f.index, 8))
    && (e.tableOffset != 0 && f.tableOffset != 0 ==> Apart(e.value, 8, f.value, 8))
  }

  predicate OwnCellApart(e: RuntimeGotEntry) {
    e.tableOffset != 0 ==> Apart(e.index, 8, e.value, 8)
  }

  predicate GotApart(got: seq<RuntimeGotEntry>) {
    && (forall e | e in got :: OwnCellApart(e))
    && (forall i, j | 0 <= i < j < |got| :: GotEntriesApart(got[i], got[j]))
  }

  ghost predicate GotHolds(m: Memory, got: seq<RuntimeGotEntry>) {
    forall i :: 0 <= i < |got| ==> EntryHolds(m, got[i])
  }

  lemma GotEntryStored(m: Memory, e: RuntimeGotEntry)
    requires OwnCellApart(e)
    ensures EntryHolds(Apply(m, GotEntryPatches(e)), e)
  {
    ApplyHolds(m, GotEntryPatches(e), 0);
    if e.tableOffset != 0 {
      ApplyHolds(m, GotEntryPatches(e), 1);
    }
  }

  lemma GotEntryKept(m: Memory, e: RuntimeGotEntry, f: RuntimeGotEntry)
    requires EntryHolds(m, e) && GotEntriesApart(e, f)
    ensures EntryHolds(Apply(m, GotEntryPatches(f)), e)
  {
    ApplyKeeps(m, GotEntryPatches(f), e.index, LeBytes(e.value, 8));
    if e.tableOffset != 0 {
      ApplyKeeps(m, GotEntryPatches(f), e.value, LeBytes(e.tableOffset, 8));
    }
  }

  lemma {:induction false} GotStored(m: Memory, got: seq<RuntimeGotEntry>)
    requires GotApart(got)
    ensures GotHolds(Apply(m, GotPatches(got)), got)
  {
    hide EntryHolds, GotEntriesApart, OwnCellApart, GotEntryPatches, Apply;
    if got != [] {
      var n := |got| - 1;
      GotStored(m, got[..n]);
      var m1 := Apply(m, GotPatches(got[..n]));
      ApplyConcat(m, GotPatches(got[..n]), GotEntryPatches(got[n]));
      GotEntryStored(m1, got[n]);
      forall i | 0 <= i < n ensures EntryHolds(Apply(m1, GotEntryPatches(got[n])), got[i]) {
        assert EntryHolds(m1, got[..n][i]);
        GotEntryKept(m1, got[i], got[n]);
      }
    }
  }

  // ---------------------------------------------------------------- the stored variables

  lemma {:induction false} VariablesKeep(
    m: Memory, rs: seq<RuntimeRelocation>, k: nat, symbols: seq<RuntimeSymbol>, stale: nat -> Word, m1: Memory,
    a: int, data: seq<Byte>)
    requires k <= |rs| && VariablesFrom(m, rs, k, symbols, stale) == Some(m1) && Holds(m, a, data)
    requires forall j :: k <= j < |rs| && IsStore(rs[j]) ==> Apart(rs[j].offset, 8, a, |data|)
    ensures Holds(m1, a, data)
    decreases |rs| - k
  {
    if k < |rs| {
      assert IsStore(rs[k]) ==> Apart(rs[k].offset, 8, a, |data|);
      var next := StoreVariable(m, rs[k], symbols, stale(k)).value;
      VariablesKeep(next, rs, k + 1, symbols, stale, m1, a, data);
    }
  }

  /** No store after that of relocation `j` meets the range. */
  predicate LaterAvoid(rs: seq<RuntimeRelocation>, j: nat, a: int, n: int) {
    forall i | j < i < |rs| && IsStore(rs[i]) :: Apart(rs[i].offset, 8, a, n)
  }

  // The variable that relocation `j` copies is not the target of an earlier store.
  predicate SourceUntouched(rs: seq<RuntimeRelocation>, k: nat, j: nat, s: RuntimeSymbol)
    requires j < |rs|
  {
    forall i | k <= i < j && IsStore(rs[i]) :: Apart(rs[i].offset, 8, s.value, s.size)
  }

  lemma CopyWritten(
    m: Memory, r: RuntimeRelocation, symbols: seq<RuntimeSymbol>, w: Word, next: Memory, s: RuntimeSymbol)
    requires StoreVariable(m, r, symbols, w) == Some(next) && r.kind == R_X86_64_COPY
    requires FindSymbol(symbols, r.name, r.offset, 0) == Some(s)
    ensures Holds(next, r.offset, LoadBytes(m, s.value, s.size))
  {
    hide LeBytes, LoadBytes, FindSymbol;
  }

  lemma RelativeWritten(m: Memory, r: RuntimeRelocation, symbols: seq<RuntimeSymbol>, w: Word, next: Memory)
    requires StoreVariable(m, r, symbols, w) == Some(next) && r.kind == R_X86_64_RELATIVE
    ensures Holds(next, r.offset, LeBytes(r.value, 8))
  {
    hide LeBytes, CopyData, FindSymbol;
  }

  lemma SourceKept(
    m: Memory, r: RuntimeRelocation, symbols: seq<RuntimeSymbol>, w: Word, next: Memory, s: RuntimeSymbol)
    requires StoreVariable(m, r, symbols, w) == Some(next)
    requires IsStore(r) ==> Apart(r.offset, 8, s.value, s.size)
    ensures LoadBytes(next, s.value, s.size) == LoadBytes(m, s.value, s.size)
  {
    hide LeBytes;
  }

  /** The slot of a COPY relocation holds the bytes of its source when no later store meets them. */
  lemma {:induction false} CopyStored(
    m: Memory, rs: seq<RuntimeRelocation>, k: nat, symbols: seq<RuntimeSymbol>, stale: nat -> Word, m1: Memory,
    j: nat, s: RuntimeSymbol)
    requires k <= j < |rs| && VariablesFrom(m, rs, k, symbols, stale) == Some(m1)
    requires rs[j].kind == R_X86_64_COPY
    requires FindSymbol(symbols, rs[j].name, rs[j].offset, 0) == Some(s)
    requires SourceUntouched(rs, k, j, s) && LaterAvoid(rs, j, rs[j].offset, s.size)
    ensures Holds(m1, rs[j].offset, LoadBytes(m, s.value, s.size))
    decreases j - k
  {
    hide StoreVariable, LoadBytes, Holds, FindSymbol;
    var next := StoreVariable(m, rs[k], symbols, stale(k)).value;
    if k == j {
      CopyWritten(m, rs[j], symbols, stale(j), next, s);
      VariablesKeep(next, rs, j + 1, symbols, stale, m1, rs[j].offset, LoadBytes(m, s.value, s.size));
    } else {
      SourceKept(m, rs[k], symbols, stale(k), next, s);
      CopyStored(next, rs, k + 1, symbols, stale, m1, j, s);
    }
  }

  lemma {:induction false} RelativeStored(
    m: Memory, rs: seq<RuntimeRelocation>, k: nat, symbols: seq<RuntimeSymbol>, stale: nat -> Word, m1: Memory, j: nat)
    requires k <= j < |rs| && VariablesFrom(m, rs, k, symbols, stale) == Some(m1)
    requires rs[j].kind == R_X86_64_RELATIVE && LaterAvoid(rs, j, rs[j].offset, 8)
    ensures Holds(m1, rs[j].offset, LeBytes(rs[j].value, 8))
    decreases j - k
  {
    hide StoreVariable, LeBytes, Holds;
    var next := StoreVariable(m, rs[k], symbols, stale(k)).value;
    if k == j {
      RelativeWritten(m, rs[j], symbols, stale(j), next);
      VariablesKeep(next, rs, j + 1, symbols, stale, m1, rs[j].offset, LeBytes(rs[j].value, 8));
    } else {
      RelativeStored(next, rs, k + 1, symbols, stale, m1, j);
    }
  }

  /** Byte `x` of the uninitialised local, as a COPY store at `slot` writes it. */
  function StaleByte(stale: Word, slot: int, x: int): Byte {
    if slot <= x < slot + 8 then LeBytes(stale, 8)[x - slot] else 0
  }

  lemma CopyWritesTail(
    m: Memory, r: RuntimeRelocation, symbols: seq<RuntimeSymbol>, w: Word, next: Memory, s: RuntimeSymbol, x: int)
    requires StoreVariable(m, r, symbols, w) == Some(next) && r.kind == R_X86_64_COPY
    requires FindSymbol(symbols, r.name, r.offset, 0) == Some(s) && r.offset + s.size <= x < r.offset + 8
    ensures Holds(next, x, [StaleByte(w, r.offset, x)])
  {
    hide LeBytes, LoadBytes;
  }

  /** Behind a shorter variable a COPY relocation leaves what its local happened to hold. */
  lemma {:induction false} TailStored(
    m: Memory, rs: seq<RuntimeRelocation>, k: nat, symbols: seq<RuntimeSymbol>, stale: nat -> Word, m1: Memory,
    j: nat, s: RuntimeSymbol, x: int)
    requires k <= j < |rs| && VariablesFrom(m, rs, k, symbols, stale) == Some(m1)
    requires rs[j].kind == R_X86_64_COPY && FindSymbol(symbols, rs[j].name, rs[j].offset, 0) == Some(s)
    requires rs[j].offset + s.size <= x < rs[j].offset + 8 && LaterAvoid(rs, j, x, 1)
    ensures Holds(m1, x, [StaleByte(stale(j), rs[j].offset, x)])
    decreases j - k
  {
    hide StoreVariable, StaleByte, Holds, FindSymbol;
    var next := StoreVariable(m, rs[k], symbols, stale(k)).value;
    if k == j {
      CopyWritesTail(m, rs[j], symbols, stale(j), next, s, x);
      VariablesKeep(next, rs, j + 1, symbols, stale, m1, x, [StaleByte(stale(j), rs[j].offset, x)]);
    } else {
      TailStored(next, rs, k + 1, symbols, stale, m1, j, s, x);
    }
  }

  // ---------------------------------------------------------------- when the steps succeed

  lemma {:induction false} ResolveSucceeds(all: seq<RuntimeRelocation>, k: nat, symbols: seq<RuntimeSymbol>)
    requires k <= |all|
    ensures ResolveFrom(all, k, symbols).Some? <==> forall j :: k <= j < |all| ==> ResolveOne(all[j], symbols).Some?
    decreases |all| - k
  {
    hide ResolveOne;
    if k < |all| && ResolveOne(all[k], symbols).Some? {
      var next := all[k := ResolveOne(all[k], symbols).value];
      ResolveSucceeds(next, k + 1, symbols);
      assert forall j :: k < j < |all| ==> next[j] == all[j];
    }
  }

  predicate HasEntryAt(got: seq<RuntimeGotEntry>, address: Word) {
    exists i | 0 <= i < |got| :: got[i].index == address
  }

  lemma {:induction false} PatchSucceeds(got: seq<RuntimeGotEntry>, rs: seq<RuntimeRelocation>, k: nat)
    requires k <= |rs|
    ensures PatchFrom(got, rs, k).Some?
            <==> forall j :: k <= j < |rs| && IsGlobDat(rs[j]) ==> HasEntryAt(got, rs[j].offset)
    decreases |rs| - k
  {
    if k < |rs| {
      if !IsGlobDat(rs[k]) {
        PatchSucceeds(got, rs, k + 1);
      } else {
        var i := GotIndex(got, rs[k].offset, 0);
        if i < |got| {
          var next := got[i := got[i].(value := rs[k].value)];
          assert forall n :: 0 <= n < |got| ==> next[n].index == got[n].index;
          PatchSucceeds(next, rs, k + 1);
        }
      }
    }
  }

  /** The source of a COPY relocation exists and fits the local it is copied through. */
  predicate HasSource(symbols: seq<RuntimeSymbol>, r: RuntimeRelocation) {
    var s := FindSymbol(symbols, r.name, r.offset, 0);
    s.Some? && s.value.size <= 8
  }

  /** Whether the stores succeed depends neither on memory nor on the local. */
  lemma {:induction false} StoresSucceed(
    m: Memory, rs: seq<RuntimeRelocation>, k: nat, symbols: seq<RuntimeSymbol>, stale: nat -> Word)
    requires k <= |rs|
    ensures VariablesFrom(m, rs, k, symbols, stale).Some? <==>
      forall j :: k <= j < |rs| && rs[j].kind == R_X86_64_COPY ==> HasSource(symbols, rs[j])
    decreases |rs| - k
  {
    hide FindSymbol, CopyData, WriteBytes, LeBytes;
    if k < |rs| && StoreVariable(m, rs[k], symbols, stale(k)).Some? {
      StoresSucceed(StoreVariable(m, rs[k], symbols, stale(k)).value, rs, k + 1, symbols, stale);
    }
  }

  // ---------------------------------------------------------------- the whole load

  /** A successful load, with its intermediate tables. */
  ghost predicate Linking(
    m: Memory, exe: DynamicData, offset: Word, libs: seq<SharedObject>, callback: Word, table: Word,
    stale: nat -> Word, rs: seq<RuntimeRelocation>, got: seq<RuntimeGotEntry>, m1: Memory)
  {
    && ResolveFrom(AllRelocations(exe, offset, libs), 0, AllSymbols(exe, libs)) == Some(rs)
    && PatchFrom(AllGots(exe, offset, libs, callback, table), rs, 0) == Some(got)
    && VariablesFrom(AfterGot(m, libs, got), rs, 0, AllSymbols(exe, libs), stale) == Some(m1)
  }

  function AfterGot(m: Memory, libs: seq<SharedObject>, got: seq<RuntimeGotEntry>): Memory {
    Apply(Apply(m, BssPatches(libs)), GotPatches(got))
  }

  /** Every successful load has such tables. */
  lemma LinkingExists(
    m: Memory, exe: DynamicData, offset: Word, libs: seq<SharedObject>, callback: Word, table: Word,
    stale: nat -> Word, m1: Memory) returns (rs: seq<RuntimeRelocation>, got: seq<RuntimeGotEntry>)
    requires Linked(m, exe, offset, libs, callback, table, stale) == Some(m1)
    ensures Linking(m, exe, offset, libs, callback, table, stale, rs, got, m1)
  {
    rs := ResolveFrom(AllRelocations(exe, offset, libs), 0, AllSymbols(exe, libs)).value;
    got := PatchFrom(AllGots(exe, offset, libs, callback, table), rs, 0).value;
  }

  /** Offset table entries and the cells of the object table keep apart from each other and from the variables;
      no GLOB_DAT relocation targets the entry of the object table. */
  predicate Layout(all: seq<RuntimeRelocation>, got: seq<RuntimeGotEntry>) {
    && GotApart(got) && GlobDatDistinct(all)
    && (forall r, e | r in all && e in got && IsStore(r) :: StoreMisses(r, e))
    && (forall r, e | r in all && e in got && IsGlobDat(r) && e.tableOffset != 0 :: r.offset != e.index)
  }

  predicate StoreMisses(r: RuntimeRelocation, e: RuntimeGotEntry) {
    Apart(r.offset, 8, e.index, 8) && (e.tableOffset != 0 ==> Apart(r.offset, 8, e.value, 8))
  }

  lemma LayoutKept(
    all: seq<RuntimeRelocation>, symbols: seq<RuntimeSymbol>, rs: seq<RuntimeRelocation>,
    got: seq<RuntimeGotEntry>, got': seq<RuntimeGotEntry>)
    requires Layout(all, got) && ResolveFrom(all, 0, symbols) == Some(rs) && PatchFrom(got, rs, 0) == Some(got')
    ensures |rs| == |all| && GotApart(got') && GlobDatDistinct(rs)
    ensures forall j, i :: 0 <= j < |rs| && 0 <= i < |got'| && IsStore(rs[j]) ==> StoreMisses(rs[j], got'[i])
    ensures |got'| == |got| && forall i :: 0 <= i < |got| && got[i].tableOffset != 0 ==> got'[i] == got[i]
  {
    ResolvedAt(all, 0, symbols, rs);
    forall j | 0 <= j < |all|
      ensures rs[j].offset == all[j].offset && rs[j].kind == all[j].kind && rs[j].name == all[j].name
    {
      assert ResolveOne(all[j], symbols) == Some(rs[j]);
    }
    PatchedShape(got, rs, 0, got');
    forall i | 0 <= i < |got| && got[i].tableOffset != 0 ensures got'[i] == got[i] {
      forall j | 0 <= j < |rs| && IsGlobDat(rs[j]) ensures rs[j].offset != got[i].index {
        assert all[j] in all && got[i] in got && IsGlobDat(all[j]);
      }
      PatchedElsewhere(got, rs, 0, got', i);
    }
    forall i, j | 0 <= i < j < |got'| ensures GotEntriesApart(got'[i], got'[j]) {
      assert GotEntriesApart(got[i], got[j]);
    }
    forall e | e in got' ensures OwnCellApart(e) {
      var i :| 0 <= i < |got'| && got'[i] == e;
      assert OwnCellApart(got[i]);
    }
    forall j, i | 0 <= j < |rs| && 0 <= i < |got'| && IsStore(rs[j]) ensures StoreMisses(rs[j], got'[i]) {
      assert all[j] in all && got[i] in got && StoreMisses(all[j], got[i]);
    }
  }

  /** Every entry of every offset table still holds its value when the load is complete. */
  lemma GotAfterLoad(
    m: Memory, exe: DynamicData, offset: Word, libs: seq<SharedObject>, callback: Word, table: Word,
    stale: nat -> Word, rs: seq<RuntimeRelocation>, got: seq<RuntimeGotEntry>, m1: Memory)
    requires Linking(m, exe, offset, libs, callback, table, stale, rs, got, m1)
    requires Layout(AllRelocations(exe, offset, libs), AllGots(exe, offset, libs, callback, table))
    ensures GotHolds(m1, got)
  {
    var all, got0, symbols := AllRelocations(exe, offset, libs), AllGots(exe, offset, libs, callback, table),
      AllSymbols(exe, libs);
    LayoutKept(all, symbols, rs, got0, got);
    var m2 := AfterGot(m, libs, got);
    GotStored(Apply(m, BssPatches(libs)), got);
    forall i | 0 <= i < |got| ensures EntryHolds(m1, got[i]) {
      assert EntryHolds(m2, got[i]);
      forall j | 0 <= j < |rs| && IsStore(rs[j]) ensures StoreMisses(rs[j], got[i]) {}
      VariablesKeep(m2, rs, 0, symbols, stale, m1, got[i].index, LeBytes(got[i].value, 8));
      if got[i].tableOffset != 0 {
        VariablesKeep(m2, rs, 0, symbols, stale, m1, got[i].value, LeBytes(got[i].tableOffset, 8));
      }
    }
  }

  /** Interposition: in whatever object it stands, a GLOB_DAT slot holds the first nonzero symbol of its
      name in the order executable, libraries. */
  lemma GlobDatHolds(
    m: Memory, exe: DynamicData, offset: Word, libs: seq<SharedObject>, callback: Word, table: Word,
    stale: nat -> Word, rs: seq<RuntimeRelocation>, got: seq<RuntimeGotEntry>, m1: Memory, j: nat)
    requires Linking(m, exe, offset, libs, callback, table, stale, rs, got, m1)
    requires Layout(AllRelocations(exe, offset, libs), AllGots(exe, offset, libs, callback, table))
    requires j < |AllRelocations(exe, offset, libs)| && IsGlobDat(AllRelocations(exe, offset, libs)[j])
    ensures var r := AllRelocations(exe, offset, libs)[j];
      var s := FindSymbol(AllSymbols(exe, libs), r.name, 0, 0);
      s.Some? && Holds(m1, r.offset, LeBytes(s.value.value, 8)) && LoadWord(m1, r.offset) == s.value.value
  {
    var all, got0, symbols := AllRelocations(exe, offset, libs), AllGots(exe, offset, libs, callback, table),
      AllSymbols(exe, libs);
    LayoutKept(all, symbols, rs, got0, got);
    ResolvedAt(all, 0, symbols, rs);
    assert ResolveOne(all[j], symbols) == Some(rs[j]);
    GotAfterLoad(m, exe, offset, libs, callback, table, stale, rs, got, m1);
    var i := PatchedEntry(got0, rs, 0, got, j);
    assert EntryHolds(m1, got[i]);
    HoldsWord(m1, all[j].offset, rs[j].value);
  }

  /** A variable is copied from the symbol the search finds: its slot ends up with the bytes that are there once
      the .bss sections are cleared, when no entry of an offset table, no cell and no earlier store meets them
      and no later store meets the slot. */
  lemma CopyHolds(
    m: Memory, exe: DynamicData, offset: Word, libs: seq<SharedObject>, callback: Word, table: Word,
    stale: nat -> Word, rs: seq<RuntimeRelocation>, got: seq<RuntimeGotEntry>, m1: Memory, j: nat, s: RuntimeSymbol)
    requires Linking(m, exe, offset, libs, callback, table, stale, rs, got, m1)
    requires j < |rs| && rs[j].kind == R_X86_64_COPY
    requires FindSymbol(AllSymbols(exe, libs), rs[j].name, rs[j].offset, 0) == Some(s)
    requires SourceUntouched(rs, 0, j, s) && LaterAvoid(rs, j, rs[j].offset, s.size)
    requires forall p :: p in GotPatches(got) ==> Misses(p, s.value, s.size)
    ensures LoadBytes(m1, rs[j].offset, s.size) == LoadBytes(Apply(m, BssPatches(libs)), s.value, s.size)
  {
    hide AllSymbols, FindSymbol, SourceUntouched, LaterAvoid;
    var m2 := AfterGot(m, libs, got);
    CopyStored(m2, rs, 0, AllSymbols(exe, libs), stale, m1, j, s);
    BytesKept(Apply(m, BssPatches(libs)), GotPatches(got), s.value, s.size);
  }

  lemma BytesKept(m: Memory, ps: seq<Patch>, a: int, n: nat)
    requires forall p :: p in ps ==> Misses(p, a, n)
    ensures LoadBytes(Apply(m, ps), a, n) == LoadBytes(m, a, n)
  {
    forall x | a <= x < a + n ensures ByteAt(Apply(m, ps), x) == ByteAt(m, x) {
      assert forall p :: p in ps ==> Misses(p, a, n) && Misses(p, x, 1);
      ApplyFrame(m, ps, x);
    }
    var now, was := LoadBytes(Apply(m, ps), a, n), LoadBytes(m, a, n);
    forall k | 0 <= k < n ensures now[k] == was[k] {
      assert now[k] == ByteAt(Apply(m, ps), a + k);
    }
  }

  /** RELATIVE, in the executable and in a library. The psABI asks for B + A in both. */
  lemma RelativeHolds(
    m: Memory, exe: DynamicData, offset: Word, libs: seq<SharedObject>, callback: Word, table: Word,
    stale: nat -> Word, rs: seq<RuntimeRelocation>, got: seq<RuntimeGotEntry>, m1: Memory, j: nat)
    requires Linking(m, exe, offset, libs, callback, table, stale, rs, got, m1)
    requires j < |AllRelocations(exe, offset, libs)| && AllRelocations(exe, offset, libs)[j].kind == R_X86_64_RELATIVE
    requires LaterAvoid(AllRelocations(exe, offset, libs), j, AllRelocations(exe, offset, libs)[j].offset, 8)
    ensures var r := AllRelocations(exe, offset, libs)[j];
      LoadWord(m1, r.offset) == Wrap(r.value + r.addend)
  {
    hide AllGots, LoadWord, AfterGot, VariablesFrom, PatchFrom, ResolveFrom, LeBytes;
    var all, symbols := AllRelocations(exe, offset, libs), AllSymbols(exe, libs);
    AvoidKept(all, symbols, rs, j, all[j].offset, 8);
    assert ResolveOne(all[j], symbols) == Some(rs[j]);
    RelativeStored(AfterGot(m, libs, got), rs, 0, symbols, stale, m1, j);
    HoldsWord(m1, all[j].offset, rs[j].value);
  }

  lemma AvoidKept(
    all: seq<RuntimeRelocation>, symbols: seq<RuntimeSymbol>, rs: seq<RuntimeRelocation>, j: nat, a: int, n: int)
    requires ResolveFrom(all, 0, symbols) == Some(rs) && LaterAvoid(all, j, a, n)
    ensures |rs| == |all| && LaterAvoid(rs, j, a, n)
    ensures forall i :: 0 <= i < |all| ==> ResolveOne(all[i], symbols) == Some(rs[i])
  {
    ResolvedAt(all, 0, symbols, rs);
    forall i | 0 <= i < |all| ensures rs[i].offset == all[i].offset && rs[i].kind == all[i].kind {
      assert ResolveOne(all[i], symbols) == Some(rs[i]);
    }
  }

  /** A RELATIVE relocation names no symbol. The executable gets B + A; a library gets A, which is
      B + A only for a library at base 0. */
  lemma RelativeValue(r: Relocation, base: Word)
    requires r.symbol.value == 0
    ensures var e := ExeRelocation(r, base); Wrap(e.value + e.addend) == Wrap(base + r.addend)
    ensures var l := LibraryRelocation(r, base); Wrap(l.value + l.addend) == Wrap(base + r.addend) <==> base == 0
  {
    assert Wrap(base + 0) == base;
    WrapCancels(r.addend, r.addend);
    if Wrap(0 + r.addend) == Wrap(base + r.addend) {
      WrapCancels(base + r.addend, r.addend);
      assert Wrap(base) == Wrap(0);
    }
  }

  /** Bytes outside the offset tables, their cells, the .bss ranges and the variables are unchanged. */
  lemma LinkFrame(
    m: Memory, exe: DynamicData, offset: Word, libs: seq<SharedObject>, callback: Word, table: Word,
    stale: nat -> Word, rs: seq<RuntimeRelocation>, got: seq<RuntimeGotEntry>, m1: Memory, x: int)
    requires Linking(m, exe, offset, libs, callback, table, stale, rs, got, m1) && x in m
    requires forall p :: p in BssPatches(libs) || p in GotPatches(got) ==> Misses(p, x, 1)
    requires forall j :: 0 <= j < |rs| && IsStore(rs[j]) ==> Apart(rs[j].offset, 8, x, 1)
    ensures x in m1 && m1[x] == m[x]
  {
    hide AllRelocations, AllGots, AllSymbols;
    ApplyKeeps(m, BssPatches(libs), x, [m[x]]);
    ApplyKeeps(Apply(m, BssPatches(libs)), GotPatches(got), x, [m[x]]);
    VariablesKeep(AfterGot(m, libs, got), rs, 0, AllSymbols(exe, libs), stale, m1, x, [m[x]]);
  }
}
