/** A successful link leaves memory in the state lazy binding relies on. */
module ElfReady {
  import opened Words
  import opened AddressSpace
  import opened ElfTypes
  import opened ElfLink
  import opened ElfLinked
  import opened ElfLoaded
  import opened ElfLazy

  ghost predicate HasEntry(dyn: DynamicData, e: GotEntry, base: Word, address: Word) {
    e in dyn.got && Wrap(base + e.index) == address
  }

  ghost predicate HasIdentity(p: Plt, dyn: DynamicData, base: Word) {
    exists e :: HasEntry(dyn, e, base, p.identity) && e.isTable && !e.isCallback
  }

  ghost predicate HasResolver(p: Plt, dyn: DynamicData, base: Word) {
    exists e :: HasEntry(dyn, e, base, p.resolver) && e.isCallback
  }

  ghost predicate HasStub(p: Plt, dyn: DynamicData, base: Word, i: nat)
    requires i < |p.relocs| == |p.stubs|
  {
    exists e :: HasEntry(dyn, e, base, p.relocs[i].offset) && !e.isTable && !e.isCallback
                && p.stubs[i] == if e.value == 0 then 0 else Wrap(base + e.value)
  }

  /** The run-time relocations are those of the file, one by one: the slot moved by the base, the symbol's name. */
  ghost predicate RelocationsOf(relocs: seq<RuntimeRelocation>, dyn: DynamicData, base: Word) {
    && |relocs| == |dyn.funcRelocs|
    && forall i :: 0 <= i < |relocs| ==>
      relocs[i].offset == Wrap(base + dyn.funcRelocs[i].offset) && relocs[i].name == dyn.funcRelocs[i].symbol.name
  }

  /** So are those that the loader collects. */
  lemma CollectedRelocations(dyn: DynamicData, base: Word)
    ensures RelocationsOf(FunctionRelocations(dyn, base), dyn, base)
  {
  }

  /** The procedure linkage table of an object, read off its dynamic data. */
  ghost predicate Describes(p: Plt, dyn: DynamicData, base: Word) {
    && p.base == base && RelocationsOf(p.relocs, dyn, base) && |p.stubs| == |p.relocs|
    && HasIdentity(p, dyn, base) && HasResolver(p, dyn, base)
    && forall i :: 0 <= i < |p.relocs| ==> HasStub(p, dyn, base, i)
  }

  function DynOf(exe: DynamicData, libs: seq<SharedObject>, k: nat): DynamicData
    requires k <= |libs|
  {
    if k == 0 then exe else libs[k - 1].dyn
  }

  function BaseOf(offset: Word, libs: seq<SharedObject>, k: nat): Word
    requires k <= |libs|
  {
    if k == 0 then offset else libs[k - 1].base
  }

  lemma {:induction false} InLibraryGots(libs: seq<SharedObject>, callback: Word, table: Word, k: nat, e: GotEntry)
    requires k < |libs| && e in libs[k].dyn.got
    ensures RuntimeGot(e, libs[k].base, callback, Cell(table, k + 1)) in LibraryGots(libs, callback, table)
  {
    var n := |libs| - 1;
    if k < n {
      assert libs[..n][k] == libs[k];
      InLibraryGots(libs[..n], callback, table, k, e);
    } else {
      var j :| 0 <= j < |libs[n].dyn.got| && libs[n].dyn.got[j] == e;
      assert GotOf(libs[n].dyn, libs[n].base, callback, Cell(table, n + 1))[j]
          == RuntimeGot(e, libs[n].base, callback, Cell(table, n + 1));
    }
  }

  lemma InAllGots(
    exe: DynamicData, offset: Word, libs: seq<SharedObject>, callback: Word, table: Word, k: nat, e: GotEntry)
    requires k <= |libs| && e in DynOf(exe, libs, k).got
    ensures RuntimeGot(e, BaseOf(offset, libs, k), callback, Cell(table, k))
         in AllGots(exe, offset, libs, callback, table)
  {
    if k == 0 {
      var j :| 0 <= j < |exe.got| && exe.got[j] == e;
      assert GotOf(exe, offset, callback, Cell(table, 0))[j] == RuntimeGot(e, offset, callback, Cell(table, 0));
    } else {
      InLibraryGots(libs, callback, table, k - 1, e);
    }
  }

  ghost predicate NoGlobDatAt(all: seq<RuntimeRelocation>, address: Word) {
    forall r :: r in all && IsGlobDat(r) ==> r.offset != address
  }

  /** An entry that no GLOB_DAT relocation targets still has its initial value after the load. */
  lemma EntryAfterLoad(
    m: Memory, exe: DynamicData, offset: Word, libs: seq<SharedObject>, callback: Word, table: Word,
    stale: nat -> Word, rs: seq<RuntimeRelocation>, got: seq<RuntimeGotEntry>, m1: Memory, e: RuntimeGotEntry)
    requires Linking(m, exe, offset, libs, callback, table, stale, rs, got, m1)
    requires Layout(AllRelocations(exe, offset, libs), AllGots(exe, offset, libs, callback, table))
    requires e in AllGots(exe, offset, libs, callback, table)
    requires NoGlobDatAt(AllRelocations(exe, offset, libs), e.index)
    ensures EntryHolds(m1, e)
  {
    var all, got0 := AllRelocations(exe, offset, libs), AllGots(exe, offset, libs, callback, table);
    GotAfterLoad(m, exe, offset, libs, callback, table, stale, rs, got, m1);
    var i :| 0 <= i < |got0| && got0[i] == e;
    ResolvedAt(all, 0, AllSymbols(exe, libs), rs);
    forall j | 0 <= j < |rs| && IsGlobDat(rs[j]) ensures rs[j].offset != got0[i].index {
      assert ResolveOne(all[j], AllSymbols(exe, libs)) == Some(rs[j]);
      assert all[j] in all && IsGlobDat(all[j]);
    }
    PatchedElsewhere(got0, rs, 0, got, i);
    assert EntryHolds(m1, got[i]);
  }

  /** Word `address` of object `k` is one of its table's entries and holds what that entry says. */
  lemma WordAfterLoad(
    m: Memory, exe: DynamicData, offset: Word, libs: seq<SharedObject>, callback: Word, table: Word,
    stale: nat -> Word, rs: seq<RuntimeRelocation>, got: seq<RuntimeGotEntry>, m1: Memory, k: nat, e: GotEntry)
    requires Linking(m, exe, offset, libs, callback, table, stale, rs, got, m1)
    requires Layout(AllRelocations(exe, offset, libs), AllGots(exe, offset, libs, callback, table))
    requires k <= |libs| && e in DynOf(exe, libs, k).got
    requires NoGlobDatAt(AllRelocations(exe, offset, libs), Wrap(BaseOf(offset, libs, k) + e.index))
    ensures var r := RuntimeGot(e, BaseOf(offset, libs, k), callback, Cell(table, k));
      && LoadWord(m1, r.index) == r.value
      && (r.tableOffset != 0 ==> LoadWord(m1, r.value) == r.tableOffset)
  {
    hide Linking, Layout, LoadWord, EntryHolds, AllRelocations, AllGots;
    var r := RuntimeGot(e, BaseOf(offset, libs, k), callback, Cell(table, k));
    InAllGots(exe, offset, libs, callback, table, k, e);
    EntryAfterLoad(m, exe, offset, libs, callback, table, stale, rs, got, m1, r);
    EntryRead(m1, r);
  }

  lemma EntryRead(m: Memory, r: RuntimeGotEntry)
    requires EntryHolds(m, r)
    ensures LoadWord(m, r.index) == r.value && (r.tableOffset != 0 ==> LoadWord(m, r.value) == r.tableOffset)
  {
    HoldsWord(m, r.index, r.value);
    if r.tableOffset != 0 {
      HoldsWord(m, r.value, r.tableOffset);
    }
  }

  // The executable at offset 0 never writes its cell: it must be zero before and stay untouched.
  ghost predicate ExeCellZero(
    m: Memory, offset: Word, libs: seq<SharedObject>, table: Word, rs: seq<RuntimeRelocation>,
    got: seq<RuntimeGotEntry>)
  {
    offset == 0 ==>
      && Holds(m, table, LeBytes(0, 8))
      && (forall p :: p in BssPatches(libs) || p in GotPatches(got) ==> Misses(p, table, 8))
      && (forall j :: 0 <= j < |rs| && IsStore(rs[j]) ==> Apart(rs[j].offset, 8, table, 8))
  }

  ghost predicate GlobDatElsewhere(all: seq<RuntimeRelocation>, p: Plt) {
    && NoGlobDatAt(all, p.identity) && NoGlobDatAt(all, p.resolver)
    && forall i :: 0 <= i < |p.relocs| ==> NoGlobDatAt(all, p.relocs[i].offset)
  }

  lemma ObjectIdentified(
    m: Memory, exe: DynamicData, offset: Word, libs: seq<SharedObject>, callback: Word, table: Word,
    stale: nat -> Word, rs: seq<RuntimeRelocation>, got: seq<RuntimeGotEntry>, m1: Memory, k: nat, p: Plt)
    requires Linking(m, exe, offset, libs, callback, table, stale, rs, got, m1)
    requires Layout(AllRelocations(exe, offset, libs), AllGots(exe, offset, libs, callback, table))
    requires k <= |libs| <= 99 && 0 < table && table + 800 <= WORD_LIMIT
    requires Describes(p, DynOf(exe, libs, k), BaseOf(offset, libs, k))
    requires GlobDatElsewhere(AllRelocations(exe, offset, libs), p)
    requires k > 0 ==> libs[k - 1].base != 0
    requires ExeCellZero(m, offset, libs, table, rs, got)
    ensures Identified(m1, p, callback, table, k)
  {
    hide Linking, Layout, AllRelocations, AllGots, LoadWord;
    CellValue(table, k);
    IdentityAfterLoad(m, exe, offset, libs, callback, table, stale, rs, got, m1, k, p);
    ResolverAfterLoad(m, exe, offset, libs, callback, table, stale, rs, got, m1, k, p);
    if p.base == 0 {
      assert k == 0;
      ExeCellKept(m, exe, offset, libs, callback, table, stale, rs, got, m1);
      assert LoadWord(m1, Cell(table, k)) == p.base;
    }
  }

  lemma CellValue(table: Word, k: nat)
    requires k <= 99 && 0 < table && table + 800 <= WORD_LIMIT
    ensures Cell(table, k) == table + 8 * k
  {
  }

  lemma IdentityAfterLoad(
    m: Memory, exe: DynamicData, offset: Word, libs: seq<SharedObject>, callback: Word, table: Word,
    stale: nat -> Word, rs: seq<RuntimeRelocation>, got: seq<RuntimeGotEntry>, m1: Memory, k: nat, p: Plt)
    requires Linking(m, exe, offset, libs, callback, table, stale, rs, got, m1)
    requires Layout(AllRelocations(exe, offset, libs), AllGots(exe, offset, libs, callback, table))
    requires k <= |libs| && Describes(p, DynOf(exe, libs, k), BaseOf(offset, libs, k))
    requires GlobDatElsewhere(AllRelocations(exe, offset, libs), p)
    ensures LoadWord(m1, p.identity) == Cell(table, k)
    ensures p.base != 0 ==> LoadWord(m1, Cell(table, k)) == p.base
  {
    hide Linking, Layout, AllRelocations, AllGots, LoadWord;
    var e :| HasEntry(DynOf(exe, libs, k), e, BaseOf(offset, libs, k), p.identity) && e.isTable && !e.isCallback;
    WordAfterLoad(m, exe, offset, libs, callback, table, stale, rs, got, m1, k, e);
  }

  lemma ResolverAfterLoad(
    m: Memory, exe: DynamicData, offset: Word, libs: seq<SharedObject>, callback: Word, table: Word,
    stale: nat -> Word, rs: seq<RuntimeRelocation>, got: seq<RuntimeGotEntry>, m1: Memory, k: nat, p: Plt)
    requires Linking(m, exe, offset, libs, callback, table, stale, rs, got, m1)
    requires Layout(AllRelocations(exe, offset, libs), AllGots(exe, offset, libs, callback, table))
    requires k <= |libs| && Describes(p, DynOf(exe, libs, k), BaseOf(offset, libs, k))
    requires GlobDatElsewhere(AllRelocations(exe, offset, libs), p)
    ensures LoadWord(m1, p.resolver) == callback
  {
    hide Linking, Layout, AllRelocations, AllGots, LoadWord;
    var f :| HasEntry(DynOf(exe, libs, k), f, BaseOf(offset, libs, k), p.resolver) && f.isCallback;
    WordAfterLoad(m, exe, offset, libs, callback, table, stale, rs, got, m1, k, f);
  }

  lemma ExeCellKept(
    m: Memory, exe: DynamicData, offset: Word, libs: seq<SharedObject>, callback: Word, table: Word,
    stale: nat -> Word, rs: seq<RuntimeRelocation>, got: seq<RuntimeGotEntry>, m1: Memory)
    requires Linking(m, exe, offset, libs, callback, table, stale, rs, got, m1)
    requires offset == 0 && ExeCellZero(m, offset, libs, table, rs, got)
    ensures LoadWord(m1, table) == 0
  {
    var zero := LeBytes(0, 8);
    ApplyKeeps(m, BssPatches(libs), table, zero);
    ApplyKeeps(Apply(m, BssPatches(libs)), GotPatches(got), table, zero);
    VariablesKeep(AfterGot(m, libs, got), rs, 0, AllSymbols(exe, libs), stale, m1, table, zero);
    HoldsWord(m1, table, 0);
  }

  lemma StubInstalled(
    m: Memory, exe: DynamicData, offset: Word, libs: seq<SharedObject>, callback: Word, table: Word,
    stale: nat -> Word, rs: seq<RuntimeRelocation>, got: seq<RuntimeGotEntry>, m1: Memory, k: nat, p: Plt, i: nat)
    requires Linking(m, exe, offset, libs, callback, table, stale, rs, got, m1)
    requires Layout(AllRelocations(exe, offset, libs), AllGots(exe, offset, libs, callback, table))
    requires k <= |libs| && Describes(p, DynOf(exe, libs, k), BaseOf(offset, libs, k)) && i < |p.relocs|
    requires GlobDatElsewhere(AllRelocations(exe, offset, libs), p)
    ensures LoadWord(m1, p.relocs[i].offset) == p.stubs[i]
  {
    hide Linking, Layout, AllRelocations, AllGots, LoadWord;
    var dyn, base := DynOf(exe, libs, k), BaseOf(offset, libs, k);
    assert HasStub(p, dyn, base, i);
    var e :| HasEntry(dyn, e, base, p.relocs[i].offset) && !e.isTable && !e.isCallback
      && p.stubs[i] == Relocated(base, e.value);
    WordAfterLoad(m, exe, offset, libs, callback, table, stale, rs, got, m1, k, e);
  }

  /** After linking, every object's pushed words identify it and every function slot holds its stub. */
  lemma LinkingMakesReady(
    m: Memory, exe: DynamicData, offset: Word, libs: seq<SharedObject>, callback: Word, table: Word,
    stale: nat -> Word, rs: seq<RuntimeRelocation>, got: seq<RuntimeGotEntry>, m1: Memory, exePlt: Plt, plts: seq<Plt>)
    requires Linking(m, exe, offset, libs, callback, table, stale, rs, got, m1)
    requires Layout(AllRelocations(exe, offset, libs), AllGots(exe, offset, libs, callback, table))
    requires |plts| == |libs| <= 99 && 0 < table && table + 800 <= WORD_LIMIT
    requires forall k :: 0 <= k <= |libs| ==>
      && Describes(Object(exePlt, plts, k), DynOf(exe, libs, k), BaseOf(offset, libs, k))
      && GlobDatElsewhere(AllRelocations(exe, offset, libs), Object(exePlt, plts, k))
    requires forall k :: 0 <= k < |libs| ==> libs[k].base != 0
    requires ExeCellZero(m, offset, libs, table, rs, got)
    requires PltsApart(exePlt, plts, table)
    ensures Ready(m1, exePlt, plts, AllSymbols(exe, libs), callback, table)
  {
    forall k | 0 <= k <= |plts| ensures Identified(m1, Object(exePlt, plts, k), callback, table, k) {
      ObjectIdentified(m, exe, offset, libs, callback, table, stale, rs, got, m1, k, Object(exePlt, plts, k));
    }
    forall c | IsCall(exePlt, plts, c) ensures SlotValid(m1, exePlt, plts, AllSymbols(exe, libs), c) {
      StubInstalled(m, exe, offset, libs, callback, table, stale, rs, got, m1, c.owner,
                    Object(exePlt, plts, c.owner), c.index);
    }
  }

  // The executable at offset 0 never writes its cell, which is zero from the start.
  ghost predicate ExeCellIsZero(l: Link) {
    l.offset == 0 ==>
      && Holds(l.memory, l.table, LeBytes(0, 8)) && Untouched(l, l.table, 8)
      && NotStored(l, |l.Relocations()|, l.table, 8)
  }

  /** The linkage tables belong to the linked objects and do not overlap; the libraries are not at address 0. */
  ghost predicate PltsFit(l: Link, exePlt: Plt, plts: seq<Plt>) {
    && |plts| == |l.libs| <= 99 && 0 < l.table && l.table + 800 <= WORD_LIMIT
    && (forall k :: 0 <= k <= |l.libs| ==>
          && Describes(Object(exePlt, plts, k), DynOf(l.exe, l.libs, k), BaseOf(l.offset, l.libs, k))
          && GlobDatElsewhere(l.Relocations(), Object(exePlt, plts, k)))
    && (forall k :: 0 <= k < |l.libs| ==> l.libs[k].base != 0)
    && PltsApart(exePlt, plts, l.table)
  }

  /** What lazy binding relies on holds after every successful link of well-spaced objects. */
  lemma LinkedMakesReady(l: Link, stale: nat -> Word, m1: Memory, exePlt: Plt, plts: seq<Plt>)
    requires l.After(stale) == Some(m1) && WellSpaced(l) && ExeCellIsZero(l)
    requires PltsFit(l, exePlt, plts)
    ensures Ready(m1, exePlt, plts, l.Symbols(), l.callback, l.table)
  {
    hide Linked, WellSpaced, IsLinking, PltsFit, Ready, ExeCellZero, ExeCellIsZero;
    var rs, got := Tables(l, stale, m1);
    CellStaysZero(l, stale, m1, rs, got);
    ReadyThrough(l, stale, m1, rs, got, exePlt, plts);
  }

  lemma CellStaysZero(
    l: Link, stale: nat -> Word, m1: Memory, rs: seq<RuntimeRelocation>, got: seq<RuntimeGotEntry>)
    requires IsLinking(l, stale, rs, got, m1) && WellSpaced(l) && ExeCellIsZero(l)
    requires |rs| == |l.Relocations()| && forall j :: 0 <= j < |rs| ==> SameTarget(rs[j], l.Relocations()[j])
    ensures ExeCellZero(l.memory, l.offset, l.libs, l.table, rs, got)
  {
    hide IsLinking, WellSpaced, AllRelocations;
    if l.offset == 0 {
      PatchesMiss(l, stale, m1, rs, got, l.table, 8);
      forall j | 0 <= j < |rs| && IsStore(rs[j]) ensures Apart(rs[j].offset, 8, l.table, 8) {
        assert SameTarget(rs[j], l.Relocations()[j]);
      }
    }
  }

  lemma ReadyThrough(
    l: Link, stale: nat -> Word, m1: Memory, rs: seq<RuntimeRelocation>, got: seq<RuntimeGotEntry>, exePlt: Plt,
    plts: seq<Plt>)
    requires IsLinking(l, stale, rs, got, m1) && WellSpaced(l)
    requires ExeCellZero(l.memory, l.offset, l.libs, l.table, rs, got)
    requires PltsFit(l, exePlt, plts)
    ensures Ready(m1, exePlt, plts, l.Symbols(), l.callback, l.table)
  {
    hide Describes, GlobDatElsewhere, PltsApart, Ready, ExeCellZero, Layout, Linking, AllRelocations, AllGots;
    LinkingMakesReady(l.memory, l.exe, l.offset, l.libs, l.callback, l.table, stale, rs, got, m1, exePlt, plts);
  }

  /** From files to calls: in every linked program, every run of calls through the linkage tables, cached or not,
      arrives at the addresses the symbol search gives. */
  lemma LinkedRunArrives(
    l: Link, stale: nat -> Word, m1: Memory, exePlt: Plt, plts: seq<Plt>, caching: bool, calls: seq<Call>)
    requires l.After(stale) == Some(m1) && WellSpaced(l) && ExeCellIsZero(l) && PltsFit(l, exePlt, plts)
    requires forall c :: c in calls ==> IsCall(exePlt, plts, c)
    ensures Run(m1, exePlt, plts, l.Symbols(), caching, calls) == ExpectedRun(exePlt, plts, l.Symbols(), calls)
  {
    hide Linked, WellSpaced, PltsFit, Ready, ExeCellIsZero, Run, ExpectedRun;
    LinkedMakesReady(l, stale, m1, exePlt, plts);
    RunArrives(m1, exePlt, plts, l.Symbols(), caching, l.callback, l.table, calls);
  }
}
