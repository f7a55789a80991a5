/** What initialising the import address tables establishes for every image at once: no store made
    for one image damages a slot or a trampoline of another. */
module WinInstall {
  import opened Words
  import opened AddressSpace
  import opened PeSections
  import opened WinImages
  import opened WinIat

  // ---------------------------------------------------------------- well-formed images

  predicate IsFunction(e: ImportAddressEntry, libs: seq<WinRuntimeObject>) {
    e.value != 0 && e.libName.Some? && e.importName.Some? && VariableOf(e, libs) == None
  }

  predicate SectionHolds(pe: PeData, k: nat, rva: int, n: int)
    requires k < |pe.sections|
  {
    pe.sections[k].virtualBase <= rva && rva + n <= pe.sections[k].virtualBase + pe.sections[k].virtualSize
  }

  predicate InSection(pe: PeData, rva: int, n: int) {
    exists k: nat | k < |pe.sections| :: SectionHolds(pe, k, rva, n)
  }

  /** Slots are laid out in order inside sections; function imports are seven bytes apart and
      their trampolines lie in the first page of the import section. */
  predicate PeOk(pe: PeData, libs: seq<WinRuntimeObject>) {
    && ImageInSpace(pe)
    && (forall i | 0 <= i < |pe.iat| :: 0 < pe.iat[i].key && InSection(pe, pe.iat[i].key, 8))
    && (forall i, j | 0 <= i < j < |pe.iat| :: pe.iat[i].key + 8 <= pe.iat[j].key)
    && (forall i | 0 <= i < |pe.iat| && IsFunction(pe.iat[i], libs) :: InFirstPage(pe, pe.iat[i]))
    && (forall i, j | 0 <= i < j < |pe.iat| && IsFunction(pe.iat[i], libs) && IsFunction(pe.iat[j], libs) ::
          Apart(pe.iat[i].value, TRAMPOLINE_SIZE, pe.iat[j].value, TRAMPOLINE_SIZE))
  }

  predicate PageOk(o: WinRuntimeObject) {
    && o.iatSectionBase < 0x1000 * ADDRESS_LIMIT
    && (o.pe.iat != [] ==> PAGE_SIZE <= o.iatSectionBase && o.iatSectionBase % PAGE_SIZE == 0)
  }

  predicate ImageOk(o: WinRuntimeObject, libs: seq<WinRuntimeObject>) {
    PeOk(o.pe, libs) && PageOk(o)
  }

  predicate InFirstPage(pe: PeData, e: ImportAddressEntry) {
    pe.importSectionBase <= e.value && e.value + TRAMPOLINE_SIZE <= pe.importSectionBase + PAGE_SIZE
  }

  predicate SlotMapped(m: Memory, o: WinRuntimeObject, i: nat)
    requires i < |o.pe.iat|
  {
    forall x | o.pe.imageBase + o.pe.iat[i].key <= x < o.pe.imageBase + o.pe.iat[i].key + 8 :: x in m
  }

  predicate SlotsMapped(m: Memory, o: WinRuntimeObject) {
    forall i | 0 <= i < |o.pe.iat| :: SlotMapped(m, o, i)
  }

  predicate SectionsApart(o: WinRuntimeObject, i: nat, p: WinRuntimeObject, j: nat)
    requires i < |o.pe.sections| && j < |p.pe.sections|
  {
    Apart(SectionStart(o.pe, i), o.pe.sections[i].virtualSize, SectionStart(p.pe, j), p.pe.sections[j].virtualSize)
  }

  // The sections of the images do not overlap in memory.
  predicate ImagesApart(o: WinRuntimeObject, p: WinRuntimeObject) {
    forall i: nat, j: nat | i < |o.pe.sections| && j < |p.pe.sections| :: SectionsApart(o, i, p, j)
  }

  function Image(exe: WinRuntimeObject, libs: seq<WinRuntimeObject>, i: nat): WinRuntimeObject
    requires i <= |libs|
  {
    if i == 0 then exe else libs[i - 1]
  }

  predicate WellPlaced(m: Memory, exe: WinRuntimeObject, libs: seq<WinRuntimeObject>) {
    && (forall i | 0 <= i <= |libs| :: ImageOk(Image(exe, libs, i), libs) && SlotsMapped(m, Image(exe, libs, i)))
    && (forall i, j | 0 <= i < j <= |libs| :: ImagesApart(Image(exe, libs, i), Image(exe, libs, j)))
  }

  // ---------------------------------------------------------------- what an initialised slot looks like

  /** Where the trampoline of a function import starts. */
  function TrampolineOf(o: WinRuntimeObject, e: ImportAddressEntry): int {
    o.iatSectionBase + e.value - o.pe.importSectionBase
  }

  ghost predicate FunctionInstalled(m: Memory, o: WinRuntimeObject, e: ImportAddressEntry, callback: Word) {
    && 0 <= TrampolineOf(o, e) < WORD_LIMIT
    && Holds(m, o.pe.imageBase + e.key, LeBytes(TrampolineOf(o, e), 8))
    && Holds(m, TrampolineOf(o, e), TrampolineCode(callback))
  }

  ghost predicate VariableInstalled(
    m: Memory, o: WinRuntimeObject, e: ImportAddressEntry, lib: WinRuntimeObject, s: WinSymbol)
  {
    var address := Wrap(lib.pe.imageBase + SectionBase(lib.pe, s.sectionIndex) + s.value);
    0 <= s.value && (address != 0 ==> Holds(m, o.pe.imageBase + e.key, LeBytes(address, 8)))
  }

  /** The slot holds its intended value: the address of its trampoline, or of the exported variable. */
  ghost predicate SlotInstalled(m: Memory, o: WinRuntimeObject, i: nat, libs: seq<WinRuntimeObject>, callback: Word)
    requires i < |o.pe.iat|
  {
    var e := o.pe.iat[i];
    e.value == 0 ||
    (e.libName.Some? && e.importName.Some? &&
     match VariableOf(e, libs)
     case None => FunctionInstalled(m, o, e, callback)
     case Some((lib, s)) => VariableInstalled(m, o, e, lib, s))
  }

  ghost predicate Installed(m: Memory, o: WinRuntimeObject, libs: seq<WinRuntimeObject>, callback: Word) {
    forall i :: 0 <= i < |o.pe.iat| ==> SlotInstalled(m, o, i, libs, callback)
  }

  // ---------------------------------------------------------------- one table

  ghost predicate EntryInstalled(m: Memory, e: RuntimeImport, callback: Word) {
    e.value != 0 ==>
      && Holds(m, e.key, LeBytes(e.value, 8))
      && (!e.isVariable ==> Holds(m, e.value, TrampolineCode(callback)))
  }

  ghost predicate TableHolds(m: Memory, t: seq<RuntimeImport>, callback: Word) {
    forall i :: 0 <= i < |t| ==> EntryInstalled(m, t[i], callback)
  }

  predicate EntriesApart(e: RuntimeImport, f: RuntimeImport) {
    && Apart(e.key, 8, f.key, 8)
    && (!f.isVariable ==> Apart(e.key, 8, f.value, TRAMPOLINE_SIZE))
    && (!e.isVariable ==> Apart(e.value, TRAMPOLINE_SIZE, f.key, 8))
  }

  predicate HasTrampoline(e: RuntimeImport) {
    e.value != 0 && !e.isVariable
  }

  /** All pairs of trampolines of a table can be intact together. */
  predicate TrampolinesFit(t: seq<RuntimeImport>, callback: Word) {
    forall i, j | 0 <= i < j < |t| && HasTrampoline(t[i]) && HasTrampoline(t[j]) ::
      Fit(callback, t[i].value, t[j].value)
  }

  // The slots lie apart from each other and from all trampolines.
  predicate TableApart(t: seq<RuntimeImport>) {
    && (forall i | 0 <= i < |t| && HasTrampoline(t[i]) ::
        Apart(t[i].key, 8, t[i].value, TRAMPOLINE_SIZE))
    && (forall i, j | 0 <= i < j < |t| && t[i].value != 0 && t[j].value != 0 :: EntriesApart(t[i], t[j]))
  }

  lemma EntryStored(m: Memory, e: RuntimeImport, callback: Word)
    requires e.value != 0 && !e.isVariable ==> Apart(e.key, 8, e.value, TRAMPOLINE_SIZE)
    ensures EntryInstalled(Apply(m, EntryPatches(e, callback)), e, callback)
  {
    if e.value != 0 {
      ApplyHolds(m, EntryPatches(e, callback), 0);
      if !e.isVariable {
        ApplyHolds(m, EntryPatches(e, callback), 1);
      }
    }
  }

  lemma EntryKept(m: Memory, e: RuntimeImport, f: RuntimeImport, callback: Word)
    requires EntryInstalled(m, e, callback)
    requires e.value != 0 && f.value != 0 ==> EntriesApart(e, f)
    requires HasTrampoline(e) && HasTrampoline(f) ==> Fit(callback, e.value, f.value)
    ensures EntryInstalled(Apply(m, EntryPatches(f, callback)), e, callback)
  {
    hide TrampolineCode, LeBytes, Fit, Apply;
    NothingApplied(m);
    if e.value != 0 && f.value != 0 {
      ApplyKeeps(m, EntryPatches(f, callback), e.key, LeBytes(e.value, 8));
      if !e.isVariable && f.isVariable {
        ApplyKeeps(m, EntryPatches(f, callback), e.value, TrampolineCode(callback));
      } else if !e.isVariable {
        var m1 := WriteBytes(m, f.key, LeBytes(f.value, 8));
        TwoPatches(m, Patch(f.key, LeBytes(f.value, 8)), Patch(f.value, TrampolineCode(callback)));
        assert Holds(m1, e.value, TrampolineCode(callback));
        KeptByFit(m1, callback, e.value, f.value);
      }
    }
  }

  lemma LastInstalled(m: Memory, t: seq<RuntimeImport>, callback: Word)
    requires t != [] && TableApart(t) && TrampolinesFit(t, callback)
    requires TableHolds(m, t[..|t| - 1], callback)
    ensures TableHolds(Apply(m, EntryPatches(t[|t| - 1], callback)), t, callback)
  {
    var last := t[|t| - 1];
    EntryStored(m, last, callback);
    forall i | 0 <= i < |t| - 1 ensures EntryInstalled(Apply(m, EntryPatches(last, callback)), t[i], callback) {
      assert EntryInstalled(m, t[..|t| - 1][i], callback);
      EntryKept(m, t[i], last, callback);
    }
  }

  lemma {:induction false} EntriesSurvive(m: Memory, t: seq<RuntimeImport>, callback: Word)
    requires TableApart(t) && TrampolinesFit(t, callback)
    ensures TableHolds(Apply(m, TablePatches(t, callback)), t, callback)
  {
    if t != [] {
      var n := |t| - 1;
      EntriesSurvive(m, t[..n], callback);
      ApplyConcat(m, TablePatches(t[..n], callback), EntryPatches(t[n], callback));
      LastInstalled(Apply(m, TablePatches(t[..n], callback)), t, callback);
    }
  }

  /** With the slots out of the way, every entry survives the later stores of its table exactly when no two
      trampolines overlap, but for the one coincidence. */
  lemma TableInstalled(m: Memory, t: seq<RuntimeImport>, callback: Word)
    requires TableApart(t)
    ensures TableHolds(Apply(m, TablePatches(t, callback)), t, callback) <==> TrampolinesFit(t, callback)
  {
    var m1 := Apply(m, TablePatches(t, callback));
    hide Fit, TrampolineCode, TableApart, Apply;
    if TrampolinesFit(t, callback) {
      EntriesSurvive(m, t, callback);
    }
    if TableHolds(m1, t, callback) {
      forall i, j | 0 <= i < j < |t| && HasTrampoline(t[i]) && HasTrampoline(t[j])
        ensures Fit(callback, t[i].value, t[j].value)
      {
        assert EntryInstalled(m1, t[i], callback) && EntryInstalled(m1, t[j], callback);
        BothHold(m1, callback, t[i].value, t[j].value);
      }
    }
  }

  lemma NothingApplied(m: Memory)
    ensures Apply(m, []) == m
  {
  }

  lemma EntryMisses(e: RuntimeImport, callback: Word, a: int, n: int)
    requires e.value != 0 ==> Apart(e.key, 8, a, n) && (!e.isVariable ==> Apart(e.value, TRAMPOLINE_SIZE, a, n))
    ensures forall p :: p in EntryPatches(e, callback) ==> Misses(p, a, n)
  {
  }

  lemma {:induction false} TableKeeps(m: Memory, t: seq<RuntimeImport>, callback: Word, a: int, data: seq<Byte>)
    requires Holds(m, a, data)
    requires forall i :: 0 <= i < |t| && t[i].value != 0 ==>
      && Apart(t[i].key, 8, a, |data|)
      && (!t[i].isVariable ==> Apart(t[i].value, TRAMPOLINE_SIZE, a, |data|))
    ensures Holds(Apply(m, TablePatches(t, callback)), a, data)
  {
    hide LeBytes, TrampolineCode, EntryPatches, Apply;
    if t == [] {
      NothingApplied(m);
    } else {
      var n := |t| - 1;
      TableKeeps(m, t[..n], callback, a, data);
      ApplyConcat(m, TablePatches(t[..n], callback), EntryPatches(t[n], callback));
      EntryMisses(t[n], callback, a, |data|);
      ApplyKeeps(Apply(m, TablePatches(t[..n], callback)), EntryPatches(t[n], callback), a, data);
    }
  }

  // ---------------------------------------------------------------- one image

  /** The runtime entry in closed form, without modular arithmetic. */
  lemma RuntimeEntryOf(o: WinRuntimeObject, i: nat, libs: seq<WinRuntimeObject>)
    requires ImageOk(o, libs) && i < |o.pe.iat|
    requires RuntimeEntry(o.pe.iat[i], libs, o.pe.imageBase, RegionBase(o)).Some?
    ensures var e, r := o.pe.iat[i], RuntimeEntry(o.pe.iat[i], libs, o.pe.imageBase, RegionBase(o)).value;
      && r.key == o.pe.imageBase + e.key
      && (e.value == 0 ==> r.value == 0)
      && (e.value != 0 ==> e.libName.Some? && e.importName.Some? && (r.isVariable <==> VariableOf(e, libs).Some?))
      && (IsFunction(e, libs) ==> !r.isVariable && r.value == TrampolineOf(o, e) && r.value != 0)
  {
    var e := o.pe.iat[i];
    PlaceInSpace(o.pe, e.key, 8);
    assert Wrap(o.pe.imageBase + e.key) == o.pe.imageBase + e.key;
    if IsFunction(e, libs) {
      assert InFirstPage(o.pe, e);
      FunctionValue(o, e);
    }
    hide Wrap, RegionBase, VariableOf;
  }

  lemma FunctionValue(o: WinRuntimeObject, e: ImportAddressEntry)
    requires 0 <= TrampolineOf(o, e) < WORD_LIMIT
    ensures Wrap(RegionBase(o) + e.value) == TrampolineOf(o, e)
  {
    var minus: int := -(e.value as int);
    WrapCancels(o.iatSectionBase - o.pe.importSectionBase, minus);
  }

  /** Two ranges of which one is mapped and the other is not have no common address. */
  lemma MappedApart(m: Memory, a: int, n: nat, b: int, k: nat)
    requires forall x :: a <= x < a + n ==> x in m
    requires forall x :: b <= x < b + k ==> x !in m
    requires 0 < n && 0 < k
    ensures Apart(a, n, b, k)
  {
    var x := if a < b then b else a;
    assert x in m ==> !(b <= x < b + k);
    assert x !in m ==> !(a <= x < a + n);
  }

  lemma TableOfImageApart(
    m: Memory, o: WinRuntimeObject, libs: seq<WinRuntimeObject>, callback: Word, t: seq<RuntimeImport>)
    requires ImageOk(o, libs) && SlotsMapped(m, o) && RangeFree(m, o.iatSectionBase, PAGE_SIZE)
    requires RuntimeTable(o.pe.iat, libs, o.pe.imageBase, RegionBase(o)) == Some(t)
    ensures TableApart(t) && TrampolinesFit(t, callback)
  {
    hide Coincides;
    var iat := o.pe.iat;
    forall i, j | 0 <= i < |t| && 0 <= j < |t| && t[i].value != 0 && t[j].value != 0 && !t[j].isVariable
      ensures Apart(t[i].key, 8, t[j].value, TRAMPOLINE_SIZE)
    {
      SlotAndTrampoline(m, o, libs, i, j, t[i], t[j]);
    }
    forall i, j | 0 <= i < j < |t| && t[i].value != 0 && t[j].value != 0
      ensures EntriesApart(t[i], t[j])
      ensures HasTrampoline(t[i]) && HasTrampoline(t[j]) ==> Fit(callback, t[i].value, t[j].value)
    {
      RuntimeEntryOf(o, i, libs);
      RuntimeEntryOf(o, j, libs);
      assert iat[i].key + 8 <= iat[j].key;
      if !t[i].isVariable {
        assert Apart(t[j].key, 8, t[i].value, TRAMPOLINE_SIZE);
      }
      if !t[i].isVariable && !t[j].isVariable {
        assert IsFunction(iat[i], libs) && IsFunction(iat[j], libs);
      }
    }
  }

  lemma SlotAndTrampoline(
    m: Memory, o: WinRuntimeObject, libs: seq<WinRuntimeObject>, i: nat, j: nat, e: RuntimeImport, f: RuntimeImport)
    requires ImageOk(o, libs) && SlotsMapped(m, o) && RangeFree(m, o.iatSectionBase, PAGE_SIZE)
    requires i < |o.pe.iat| && j < |o.pe.iat|
    requires RuntimeEntry(o.pe.iat[i], libs, o.pe.imageBase, RegionBase(o)) == Some(e)
    requires RuntimeEntry(o.pe.iat[j], libs, o.pe.imageBase, RegionBase(o)) == Some(f)
    requires f.value != 0 && !f.isVariable
    ensures Apart(e.key, 8, f.value, TRAMPOLINE_SIZE)
  {
    RuntimeEntryOf(o, i, libs);
    RuntimeEntryOf(o, j, libs);
    assert IsFunction(o.pe.iat[j], libs);
    assert SlotMapped(m, o, i);
    MappedApart(m, e.key, 8, f.value, TRAMPOLINE_SIZE);
  }

  lemma SlotOfEntry(
    m: Memory, o: WinRuntimeObject, i: nat, libs: seq<WinRuntimeObject>, callback: Word, r: RuntimeImport)
    requires ImageOk(o, libs) && i < |o.pe.iat|
    requires RuntimeEntry(o.pe.iat[i], libs, o.pe.imageBase, RegionBase(o)) == Some(r)
    requires EntryInstalled(m, r, callback)
    ensures SlotInstalled(m, o, i, libs, callback)
  {
    hide LeBytes, TrampolineCode, ImageOk, Holds, Wrap;
    RuntimeEntryOf(o, i, libs);
  }

  /** One image: all its slots and trampolines hold what they should. */
  lemma ImageInstalled(m: Memory, o: WinRuntimeObject, libs: seq<WinRuntimeObject>, callback: Word, m1: Memory)
    requires ImageOk(o, libs) && SlotsMapped(m, o)
    requires InitImage(m, o, libs, callback) == Some(m1)
    ensures Installed(m1, o, libs, callback)
    ensures o.pe.iat != [] ==> RangeFree(m, o.iatSectionBase, PAGE_SIZE)
  {
    hide InitImage, RuntimeEntry;
    if o.pe.iat != [] {
      var t := InitialisedImage(m, o, libs, callback, m1);
      TableOfImageApart(m, o, libs, callback, t);
      TableInstalled(FreshPage(m, o.iatSectionBase), t, callback);
      forall i | 0 <= i < |o.pe.iat| ensures SlotInstalled(m1, o, i, libs, callback) {
        assert EntryInstalled(m1, t[i], callback);
        SlotOfEntry(m1, o, i, libs, callback, t[i]);
      }
    }
  }

  lemma ImageKeeps(
    m: Memory, o: WinRuntimeObject, libs: seq<WinRuntimeObject>, callback: Word, m1: Memory, a: int, data: seq<Byte>)
    requires ImageOk(o, libs) && InitImage(m, o, libs, callback) == Some(m1)
    requires Holds(m, a, data) && data != []
    requires forall i :: 0 <= i < |o.pe.iat| ==> Apart(o.pe.imageBase + o.pe.iat[i].key, 8, a, |data|)
    ensures Holds(m1, a, data)
  {
    hide RuntimeEntry, RegionBase, TablePatches, InitImage, ImageOk;
    if o.pe.iat == [] {
      NothingInitialised(m, o, libs, callback);
    } else {
      var t := InitialisedImage(m, o, libs, callback, m1);
      MappedApart(m, a, |data|, o.iatSectionBase, PAGE_SIZE);
      forall i | 0 <= i < |t| && t[i].value != 0
        ensures Apart(t[i].key, 8, a, |data|)
        ensures !t[i].isVariable ==> Apart(t[i].value, TRAMPOLINE_SIZE, a, |data|)
      {
        assert RuntimeEntry(o.pe.iat[i], libs, o.pe.imageBase, RegionBase(o)) == Some(t[i]);
        EntryAvoids(o, libs, i, t[i], a, |data|);
      }
      TableKeeps(FreshPage(m, o.iatSectionBase), t, callback, a, data);
    }
  }

  lemma EntryAvoids(o: WinRuntimeObject, libs: seq<WinRuntimeObject>, i: nat, r: RuntimeImport, a: int, n: nat)
    requires ImageOk(o, libs) && i < |o.pe.iat| && r.value != 0
    requires RuntimeEntry(o.pe.iat[i], libs, o.pe.imageBase, RegionBase(o)) == Some(r)
    requires Apart(o.pe.imageBase + o.pe.iat[i].key, 8, a, n) && Apart(a, n, o.iatSectionBase, PAGE_SIZE)
    ensures Apart(r.key, 8, a, n) && (!r.isVariable ==> Apart(r.value, TRAMPOLINE_SIZE, a, n))
  {
    hide RuntimeEntry, Wrap, RegionBase;
    RuntimeEntryOf(o, i, libs);
    if !r.isVariable {
      assert IsFunction(o.pe.iat[i], libs) && InFirstPage(o.pe, o.pe.iat[i]);
    }
  }

  lemma InitMapped(m: Memory, o: WinRuntimeObject, libs: seq<WinRuntimeObject>, callback: Word, m1: Memory, x: int)
    requires InitImage(m, o, libs, callback) == Some(m1) && x in m
    ensures x in m1
  {
    hide InitImage;
    if o.pe.iat == [] {
      NothingInitialised(m, o, libs, callback);
    } else {
      var t := InitialisedImage(m, o, libs, callback, m1);
      ApplyMapped(FreshPage(m, o.iatSectionBase), TablePatches(t, callback), x);
    }
  }

  // ---------------------------------------------------------------- all images

  // An initialised image: its trampoline page was unmapped when the load began at `m0`.
  ghost predicate Done(m0: Memory, m: Memory, o: WinRuntimeObject, libs: seq<WinRuntimeObject>, callback: Word) {
    && (o.pe.iat != [] ==> RangeFree(m0, o.iatSectionBase, PAGE_SIZE))
    && Installed(m, o, libs, callback)
  }

  /** A range of an image that has been initialised, apart from the slots of the next one. */
  lemma SlotsMiss(o: WinRuntimeObject, i: nat, p: WinRuntimeObject, libs: seq<WinRuntimeObject>)
    requires i < |o.pe.iat| && ImageOk(o, libs) && ImageOk(p, libs) && ImagesApart(o, p)
    ensures forall j :: 0 <= j < |p.pe.iat| ==>
      Apart(p.pe.imageBase + p.pe.iat[j].key, 8, o.pe.imageBase + o.pe.iat[i].key, 8)
  {
    forall j | 0 <= j < |p.pe.iat|
      ensures Apart(p.pe.imageBase + p.pe.iat[j].key, 8, o.pe.imageBase + o.pe.iat[i].key, 8)
    {
      assert InSection(o.pe, o.pe.iat[i].key, 8) && InSection(p.pe, p.pe.iat[j].key, 8);
      PlacesApart(o, o.pe.iat[i].key, p, p.pe.iat[j].key, 8);
    }
  }

  /** Parts of sections of two images do not overlap. */
  lemma PlacesApart(o: WinRuntimeObject, rva: int, p: WinRuntimeObject, rva': int, n: nat)
    requires ImagesApart(o, p) && InSection(o.pe, rva, n) && InSection(p.pe, rva', n)
    ensures Apart(o.pe.imageBase + rva, n, p.pe.imageBase + rva', n)
  {
    var k: nat :| k < |o.pe.sections| && SectionHolds(o.pe, k, rva, n);
    var k': nat :| k' < |p.pe.sections| && SectionHolds(p.pe, k', rva', n);
    assert SectionsApart(o, k, p, k');
  }

  /** A part of a section is in user space. */
  lemma PlaceInSpace(pe: PeData, rva: int, n: nat)
    requires ImageInSpace(pe) && InSection(pe, rva, n)
    ensures 0 <= rva && pe.imageBase + rva + n + PAGE_SIZE <= ADDRESS_LIMIT
  {
    var k: nat :| k < |pe.sections| && SectionHolds(pe, k, rva, n);
    assert pe.sections[k] in pe.sections;
  }

  lemma PageMisses(m0: Memory, o: WinRuntimeObject, i: nat, p: WinRuntimeObject, libs: seq<WinRuntimeObject>)
    requires i < |o.pe.iat| && ImageOk(o, libs) && RangeFree(m0, o.iatSectionBase, PAGE_SIZE)
    requires IsFunction(o.pe.iat[i], libs)
    requires SlotsMapped(m0, p)
    ensures forall j :: 0 <= j < |p.pe.iat| ==>
      Apart(p.pe.imageBase + p.pe.iat[j].key, 8, TrampolineOf(o, o.pe.iat[i]), TRAMPOLINE_SIZE)
  {
    assert InFirstPage(o.pe, o.pe.iat[i]);
    forall j | 0 <= j < |p.pe.iat|
      ensures Apart(p.pe.imageBase + p.pe.iat[j].key, 8, TrampolineOf(o, o.pe.iat[i]), TRAMPOLINE_SIZE)
    {
      assert SlotMapped(m0, p, j);
      MappedApart(m0, p.pe.imageBase + p.pe.iat[j].key, 8, TrampolineOf(o, o.pe.iat[i]), TRAMPOLINE_SIZE);
    }
  }

  lemma FunctionKept(
    m0: Memory, m: Memory, o: WinRuntimeObject, i: nat, p: WinRuntimeObject, libs: seq<WinRuntimeObject>,
    callback: Word, m1: Memory)
    requires i < |o.pe.iat| && ImageOk(o, libs) && RangeFree(m0, o.iatSectionBase, PAGE_SIZE)
    requires IsFunction(o.pe.iat[i], libs)
    requires FunctionInstalled(m, o, o.pe.iat[i], callback)
    requires ImageOk(p, libs) && SlotsMapped(m0, p) && ImagesApart(o, p)
    requires InitImage(m, p, libs, callback) == Some(m1)
    ensures FunctionInstalled(m1, o, o.pe.iat[i], callback)
  {
    hide InitImage, ImageOk, LeBytes, TrampolineCode, Holds, RangeFree, SlotsMapped, ImagesApart;
    var e := o.pe.iat[i];
    SlotsMiss(o, i, p, libs);
    PageMisses(m0, o, i, p, libs);
    ImageKeeps(m, p, libs, callback, m1, o.pe.imageBase + e.key, LeBytes(TrampolineOf(o, e), 8));
    ImageKeeps(m, p, libs, callback, m1, TrampolineOf(o, e), TrampolineCode(callback));
  }

  lemma VariableKept(
    m: Memory, o: WinRuntimeObject, i: nat, lib: WinRuntimeObject, s: WinSymbol, p: WinRuntimeObject,
    libs: seq<WinRuntimeObject>, callback: Word, m1: Memory)
    requires i < |o.pe.iat| && ImageOk(o, libs) && ImageOk(p, libs) && ImagesApart(o, p)
    requires VariableInstalled(m, o, o.pe.iat[i], lib, s)
    requires InitImage(m, p, libs, callback) == Some(m1)
    ensures VariableInstalled(m1, o, o.pe.iat[i], lib, s)
  {
    hide InitImage, ImageOk, Wrap, LeBytes;
    var address := Wrap(lib.pe.imageBase + SectionBase(lib.pe, s.sectionIndex) + s.value);
    if address != 0 {
      SlotsMiss(o, i, p, libs);
      ImageKeeps(m, p, libs, callback, m1, o.pe.imageBase + o.pe.iat[i].key, LeBytes(address, 8));
    }
  }

  /** Initialising another image leaves a slot and its trampoline intact. */
  lemma SlotKept(
    m0: Memory, m: Memory, o: WinRuntimeObject, i: nat, p: WinRuntimeObject, libs: seq<WinRuntimeObject>,
    callback: Word, m1: Memory)
    requires i < |o.pe.iat| && ImageOk(o, libs) && RangeFree(m0, o.iatSectionBase, PAGE_SIZE)
    requires SlotInstalled(m, o, i, libs, callback)
    requires ImageOk(p, libs) && SlotsMapped(m0, p) && ImagesApart(o, p)
    requires InitImage(m, p, libs, callback) == Some(m1)
    ensures SlotInstalled(m1, o, i, libs, callback)
  {
    var e := o.pe.iat[i];
    if e.value != 0 {
      match VariableOf(e, libs) {
        case None => FunctionKept(m0, m, o, i, p, libs, callback, m1);
        case Some((lib, s)) => VariableKept(m, o, i, lib, s, p, libs, callback, m1);
      }
    }
  }

  lemma ImageKept(
    m0: Memory, m: Memory, o: WinRuntimeObject, p: WinRuntimeObject, libs: seq<WinRuntimeObject>,
    callback: Word, m1: Memory)
    requires ImageOk(o, libs) && Done(m0, m, o, libs, callback)
    requires ImageOk(p, libs) && SlotsMapped(m0, p) && ImagesApart(o, p)
    requires InitImage(m, p, libs, callback) == Some(m1)
    ensures Done(m0, m1, o, libs, callback)
  {
    forall i | 0 <= i < |o.pe.iat| ensures SlotInstalled(m1, o, i, libs, callback) {
      SlotKept(m0, m, o, i, p, libs, callback, m1);
    }
  }

  ghost predicate DoneUpTo(
    m0: Memory, m: Memory, exe: WinRuntimeObject, libs: seq<WinRuntimeObject>, n: nat, callback: Word)
    requires n <= |libs| + 1
  {
    && (forall x :: x in m0 ==> x in m)
    && forall i :: 0 <= i < n ==> Done(m0, m, Image(exe, libs, i), libs, callback)
  }

  lemma NextDone(
    m0: Memory, m: Memory, exe: WinRuntimeObject, libs: seq<WinRuntimeObject>, n: nat, callback: Word, m1: Memory)
    requires n <= |libs| && WellPlaced(m0, exe, libs)
    requires DoneUpTo(m0, m, exe, libs, n, callback)
    requires InitImage(m, Image(exe, libs, n), libs, callback) == Some(m1)
    ensures DoneUpTo(m0, m1, exe, libs, n + 1, callback)
  {
    hide InitImage, Installed;
    var p := Image(exe, libs, n);
    assert ImageOk(p, libs) && SlotsMapped(m0, p);
    forall x | x in m0 ensures x in m1 {
      InitMapped(m, p, libs, callback, m1, x);
    }
    forall i | 0 <= i < n + 1 ensures Done(m0, m1, Image(exe, libs, i), libs, callback) {
      if i < n {
        var o := Image(exe, libs, i);
        assert ImageOk(o, libs) && ImagesApart(o, p);
        ImageKept(m0, m, o, p, libs, callback, m1);
      } else {
        assert SlotsMapped(m, p) by {
          forall j | 0 <= j < |p.pe.iat| ensures SlotMapped(m, p, j) {
            assert SlotMapped(m0, p, j);
          }
        }
        ImageInstalled(m, p, libs, callback, m1);
      }
    }
  }

  lemma {:induction false} LibrariesInstalled(
    m0: Memory, m: Memory, exe: WinRuntimeObject, libs: seq<WinRuntimeObject>, k: nat, callback: Word, m1: Memory)
    requires k <= |libs| && WellPlaced(m0, exe, libs)
    requires DoneUpTo(m0, m, exe, libs, k + 1, callback)
    requires InitFrom(m, libs, k, callback) == Some(m1)
    ensures DoneUpTo(m0, m1, exe, libs, |libs| + 1, callback)
    decreases |libs| - k
  {
    hide InitImage, WellPlaced, DoneUpTo;
    if k < |libs| {
      var next := InitImage(m, libs[k], libs, callback).value;
      NextDone(m0, m, exe, libs, k + 1, callback, next);
      LibrariesInstalled(m0, next, exe, libs, k + 1, callback, m1);
    }
  }

  /** After a successful load every slot of every image holds its intended value and every
      trampoline is intact, whatever was written for the other images. */
  lemma AllInstalled(m: Memory, exe: WinRuntimeObject, libs: seq<WinRuntimeObject>, callback: Word, m1: Memory)
    requires WellPlaced(m, exe, libs)
    requires InitAll(m, exe, libs, callback) == Some(m1)
    ensures forall i :: 0 <= i <= |libs| ==> Installed(m1, Image(exe, libs, i), libs, callback)
  {
    var next := InitImage(m, exe, libs, callback).value;
    assert Image(exe, libs, 0) == exe;
    NextDone(m, m, exe, libs, 0, callback, next);
    LibrariesInstalled(m, next, exe, libs, 0, callback, m1);
    forall i | 0 <= i <= |libs| ensures Installed(m1, Image(exe, libs, i), libs, callback) {
      assert Done(m, m1, Image(exe, libs, i), libs, callback);
    }
  }
}
