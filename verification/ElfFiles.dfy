/** What a link does, in terms of the files alone: which definition a name means, what a slot of either kind ends up
    with, and where every call through a linkage table arrives. */
module ElfFiles {
  import opened AddressSpace
  import opened ElfLazy
  import opened ElfLink
  import opened ElfLinked
  import opened ElfLoaded
  import opened ElfReady
  import opened ElfTypes
  import opened Words

  // Object 0 is the executable, object `k` the `k`-th library.
  function Dyn(l: Link, k: nat): DynamicData
    requires k <= |l.libs|
  {
    DynOf(l.exe, l.libs, k)
  }

  function Base(l: Link, k: nat): Word
    requires k <= |l.libs|
  {
    BaseOf(l.offset, l.libs, k)
  }

  // ---------------------------------------------------------------- the meaning of a name

  /** The address recorded for symbol `t` of object `k`: in a library base plus value, in the executable the value. */
  function RecordedAddress(l: Link, k: nat, t: nat): Word
    requires k <= |l.libs| && t < |Dyn(l, k).symbols|
  {
    var value := Dyn(l, k).symbols[t].value;
    if k == 0 || value == 0 then value else Wrap(l.libs[k - 1].base + value)
  }

  /** Symbol `t` of object `k` defines the name at a nonzero address other than the ignored one. */
  predicate Defines(l: Link, name: string, ignored: Word, k: nat, t: nat) {
    && k <= |l.libs| && t < |Dyn(l, k).symbols| && Dyn(l, k).symbols[t].name == name
    && RecordedAddress(l, k, t) != 0 && RecordedAddress(l, k, t) != ignored
  }

  predicate Earlier(k: nat, t: nat, k': nat, t': nat) {
    k < k' || (k == k' && t < t')
  }

  /** The first definition: no earlier object has one, and no earlier symbol of the same object. */
  ghost predicate FirstDefinition(l: Link, name: string, ignored: Word, k: nat, t: nat) {
    && Defines(l, name, ignored, k, t)
    && forall k': nat, t': nat :: Earlier(k', t', k, t) ==> !Defines(l, name, ignored, k', t')
  }

  // ---------------------------------------------------------------- symbols and relocations by place

  function SymbolsBefore(l: Link, k: nat): nat
    requires k <= |l.libs| + 1
  {
    if k == 0 then 0 else SymbolsBefore(l, k - 1) + |Dyn(l, k - 1).symbols|
  }

  function RelocationsBefore(l: Link, k: nat): nat
    requires k <= |l.libs| + 1
  {
    if k == 0 then 0 else RelocationsBefore(l, k - 1) + |Dyn(l, k - 1).varRelocs|
  }

  // The link of the executable with its first `n` libraries.
  function Prefix(l: Link, n: nat): Link
    requires n <= |l.libs|
  {
    l.(libs := l.libs[..n])
  }

  lemma {:induction false} SamePrefix(l: Link, n: nat, k: nat)
    requires n <= |l.libs| && k <= n + 1
    ensures SymbolsBefore(Prefix(l, n), k) == SymbolsBefore(l, k)
    ensures RelocationsBefore(Prefix(l, n), k) == RelocationsBefore(l, k)
  {
    if k > 0 {
      SamePrefix(l, n, k - 1);
    }
  }

  function Recorded(l: Link, k: nat, t: nat): RuntimeSymbol
    requires k <= |l.libs| && t < |Dyn(l, k).symbols|
  {
    RuntimeSymbol(RecordedAddress(l, k, t), Dyn(l, k).symbols[t].name, Dyn(l, k).symbols[t].size)
  }

  lemma OwnSymbol(l: Link, k: nat, t: nat)
    requires k <= |l.libs| && t < |Dyn(l, k).symbols|
    ensures SymbolsOf(Dyn(l, k), if k == 0 then 0 else Base(l, k))[t] == Recorded(l, k, t)
  {
  }

  /** All symbols, then, are those of the executable and of the libraries, in the order of the objects. */
  lemma {:induction false} SymbolPlace(l: Link, k: nat, t: nat)
    requires k <= |l.libs| && t < |Dyn(l, k).symbols|
    ensures SymbolsBefore(l, k) + t < |l.Symbols()| && l.Symbols()[SymbolsBefore(l, k) + t] == Recorded(l, k, t)
    decreases |l.libs|
  {
    hide SymbolsOf, RecordedAddress;
    OwnSymbol(l, k, t);
    if l.libs == [] {
      assert l.Symbols() == SymbolsOf(l.exe, 0) + [];
    } else {
      var n := |l.libs| - 1;
      var init := Prefix(l, n);
      assert l.Symbols() == init.Symbols() + SymbolsOf(l.libs[n].dyn, l.libs[n].base);
      SymbolCount(init);
      SamePrefix(l, n, k);
      if k <= n {
        SymbolPlace(init, k, t);
        OwnSymbol(init, k, t);
      }
    }
  }

  lemma {:induction false} SymbolCount(l: Link)
    ensures |l.Symbols()| == SymbolsBefore(l, |l.libs| + 1)
    decreases |l.libs|
  {
    if l.libs != [] {
      var n := |l.libs| - 1;
      SymbolCount(Prefix(l, n));
      SamePrefix(l, n, n + 1);
      assert l.Symbols() == Prefix(l, n).Symbols() + SymbolsOf(l.libs[n].dyn, l.libs[n].base);
    }
  }

  /** A run-time relocation has the place, type, addend and name of the one in the file. */
  predicate IsRelocation(reloc: RuntimeRelocation, base: Word, f: Relocation) {
    && reloc.offset == Wrap(base + f.offset) && reloc.kind == f.kind && reloc.addend == f.addend
    && reloc.name == f.symbol.name
  }

  lemma OwnRelocation(dyn: DynamicData, lib: SharedObject, base: Word, r: nat)
    requires r < |dyn.varRelocs|
    ensures IsRelocation(ExeRelocations(dyn, base)[r], base, dyn.varRelocs[r])
    ensures lib.dyn == dyn && lib.base == base ==>
      IsRelocation(OneLibraryRelocations(lib)[r], base, dyn.varRelocs[r])
  {
  }

  /** Relocation `r` of object `k` is processed after all those of earlier objects. */
  lemma {:induction false} RelocationPlace(l: Link, k: nat, r: nat)
    requires k <= |l.libs| && r < |Dyn(l, k).varRelocs|
    ensures RelocationsBefore(l, k) + r < |l.Relocations()|
    ensures IsRelocation(l.Relocations()[RelocationsBefore(l, k) + r], Base(l, k), Dyn(l, k).varRelocs[r])
    decreases |l.libs|
  {
    hide IsRelocation, ExeRelocation, LibraryRelocation;
    if l.libs == [] {
      assert l.Relocations() == ExeRelocations(l.exe, l.offset) + [];
      OwnRelocation(l.exe, SharedObject(0, l.exe, None), l.offset, r);
    } else {
      var n := |l.libs| - 1;
      var init := Prefix(l, n);
      assert l.Relocations() == init.Relocations() + OneLibraryRelocations(l.libs[n]);
      RelocationCount(init);
      SamePrefix(l, n, k);
      if k <= n {
        RelocationPlace(init, k, r);
      } else {
        OwnRelocation(l.libs[n].dyn, l.libs[n], l.libs[n].base, r);
      }
    }
  }

  lemma {:induction false} RelocationCount(l: Link)
    ensures |l.Relocations()| == RelocationsBefore(l, |l.libs| + 1)
    decreases |l.libs|
  {
    if l.libs != [] {
      var n := |l.libs| - 1;
      RelocationCount(Prefix(l, n));
      SamePrefix(l, n, n + 1);
      assert l.Relocations() == Prefix(l, n).Relocations() + OneLibraryRelocations(l.libs[n]);
    }
  }

  lemma {:induction false} BeforeGrows(l: Link, k: nat, k': nat)
    requires k < k' <= |l.libs| + 1
    ensures SymbolsBefore(l, k) + |Dyn(l, k).symbols| <= SymbolsBefore(l, k')
    decreases k'
  {
    if k < k' - 1 {
      BeforeGrows(l, k, k' - 1);
    }
  }

  lemma EarlierIndex(l: Link, k: nat, t: nat, k': nat, t': nat)
    requires k <= |l.libs| && t < |Dyn(l, k).symbols| && k' <= |l.libs| && t' < |Dyn(l, k').symbols|
    ensures Earlier(k, t, k', t') <==> SymbolsBefore(l, k) + t < SymbolsBefore(l, k') + t'
  {
    if k < k' {
      BeforeGrows(l, k, k');
    } else if k' < k {
      BeforeGrows(l, k', k);
    }
  }

  lemma {:induction false} PlaceOfIndex(l: Link, i: nat, n: nat) returns (k: nat, t: nat)
    requires n <= |l.libs| + 1 && i < SymbolsBefore(l, n)
    ensures k < n && t < |Dyn(l, k).symbols| && i == SymbolsBefore(l, k) + t
  {
    if i < SymbolsBefore(l, n - 1) {
      k, t := PlaceOfIndex(l, i, n - 1);
    } else {
      k, t := n - 1, i - SymbolsBefore(l, n - 1);
    }
  }

  lemma MatchesWhere(l: Link, name: string, ignored: Word, k: nat, t: nat)
    requires k <= |l.libs| && t < |Dyn(l, k).symbols|
    ensures SymbolsBefore(l, k) + t < |l.Symbols()|
    ensures Matches(l.Symbols()[SymbolsBefore(l, k) + t], name, ignored) <==> Defines(l, name, ignored, k, t)
  {
    SymbolPlace(l, k, t);
  }

  /** The search finds the first definition of the files. */
  lemma FirstIsFound(l: Link, name: string, ignored: Word, k: nat, t: nat)
    requires FirstDefinition(l, name, ignored, k, t)
    ensures FindSymbol(l.Symbols(), name, ignored, 0)
         == Some(RuntimeSymbol(RecordedAddress(l, k, t), name, Dyn(l, k).symbols[t].size))
  {
    hide RecordedAddress, Defines, Earlier, Matches, AllSymbols;
    DefinesPlace(l, name, ignored, k, t);
    var i := SymbolsBefore(l, k) + t;
    SymbolCount(l);
    SymbolPlace(l, k, t);
    MatchesWhere(l, name, ignored, k, t);
    forall j | 0 <= j < i ensures !Matches(l.Symbols()[j], name, ignored) {
      var k', t' := PlaceOfIndex(l, j, |l.libs| + 1);
      MatchesWhere(l, name, ignored, k', t');
      EarlierIndex(l, k', t', k, t);
    }
    FindSymbolIs(l.Symbols(), name, ignored, 0, i);
  }

  lemma DefinesPlace(l: Link, name: string, ignored: Word, k: nat, t: nat)
    requires Defines(l, name, ignored, k, t)
    ensures k <= |l.libs| && t < |Dyn(l, k).symbols| && Dyn(l, k).symbols[t].name == name
  {
  }

  /** What the search finds is the first definition. */
  lemma FoundIsFirst(l: Link, name: string, ignored: Word) returns (k: nat, t: nat)
    requires FindSymbol(l.Symbols(), name, ignored, 0).Some?
    ensures FirstDefinition(l, name, ignored, k, t)
    ensures FindSymbol(l.Symbols(), name, ignored, 0).value.value == RecordedAddress(l, k, t)
  {
    hide RecordedAddress, Defines, Matches, AllSymbols;
    var i := FindSymbolFound(l.Symbols(), name, ignored, 0);
    SymbolCount(l);
    k, t := PlaceOfIndex(l, i, |l.libs| + 1);
    SymbolPlace(l, k, t);
    MatchesWhere(l, name, ignored, k, t);
    forall k': nat, t': nat | Earlier(k', t', k, t) ensures !Defines(l, name, ignored, k', t') {
      if Defines(l, name, ignored, k', t') {
        DefinesPlace(l, name, ignored, k', t');
        EarlierIndex(l, k', t', k, t);
        MatchesWhere(l, name, ignored, k', t');
      }
    }
  }

  /** `w` is the address of the first definition of the name; none when there is no definition. */
  ghost predicate Means(l: Link, name: string, w: Option<Word>) {
    match w
    case None => forall k: nat, t: nat :: !Defines(l, name, 0, k, t)
    case Some(v) => exists k: nat, t: nat :: FirstDefinition(l, name, 0, k, t) && v == RecordedAddress(l, k, t)
  }

  lemma SearchMeans(l: Link, name: string)
    ensures match FindSymbol(l.Symbols(), name, 0, 0)
            case None => Means(l, name, None)
            case Some(s) => Means(l, name, Some(s.value))
  {
    hide Defines, RecordedAddress, FindSymbol, AllSymbols;
    if FindSymbol(l.Symbols(), name, 0, 0).Some? {
      var k, t := FoundIsFirst(l, name, 0);
    } else {
      forall k: nat, t: nat ensures !Defines(l, name, 0, k, t) {
        if Defines(l, name, 0, k, t) {
          DefinesPlace(l, name, 0, k, t);
          MatchesWhere(l, name, 0, k, t);
          NoneFound(l.Symbols(), name, 0, 0, SymbolsBefore(l, k) + t);
        }
      }
    }
  }

  lemma {:induction false} NoneFound(symbols: seq<RuntimeSymbol>, name: string, ignored: Word, from: nat, i: nat)
    requires from <= i < |symbols| && Matches(symbols[i], name, ignored)
    ensures FindSymbol(symbols, name, ignored, from).Some?
    decreases i - from
  {
    if from < i {
      NoneFound(symbols, name, ignored, from + 1, i);
    }
  }

  // ---------------------------------------------------------------- slots

  /** Interposition: the slot of a GLOB_DAT relocation of any object holds the address of the first definition of
      its name, the executable's before those of the libraries in their order. */
  lemma GlobDatOfFiles(l: Link, stale: nat -> Word, m1: Memory, o: nat, r: nat, k: nat, t: nat)
    requires l.After(stale) == Some(m1) && WellSpaced(l)
    requires o <= |l.libs| && r < |Dyn(l, o).varRelocs| && Dyn(l, o).varRelocs[r].kind == R_X86_64_GLOB_DAT
    requires FirstDefinition(l, Dyn(l, o).varRelocs[r].symbol.name, 0, k, t)
    ensures LoadWord(m1, Wrap(Base(l, o) + Dyn(l, o).varRelocs[r].offset)) == RecordedAddress(l, k, t)
  {
    hide WellSpaced, Linked, LoadWord, RecordedAddress, Defines, FindSymbol, AllSymbols, AllRelocations;
    RelocationPlace(l, o, r);
    GlobDatSlot(l, stale, m1, RelocationsBefore(l, o) + r);
    FirstIsFound(l, Dyn(l, o).varRelocs[r].symbol.name, 0, k, t);
  }

  /** A COPY relocation takes the first definition of its name whose address is not the slot's own. */
  lemma CopySourceOfFiles(l: Link, o: nat, r: nat, k: nat, t: nat)
    requires o <= |l.libs| && r < |Dyn(l, o).varRelocs|
    requires var f := Dyn(l, o).varRelocs[r];
      FirstDefinition(l, f.symbol.name, Wrap(Base(l, o) + f.offset), k, t)
    ensures k <= |l.libs| && t < |Dyn(l, k).symbols| && RelocationsBefore(l, o) + r < |l.Relocations()|
    ensures l.CopySource(RelocationsBefore(l, o) + r)
         == Some(RuntimeSymbol(RecordedAddress(l, k, t), Dyn(l, o).varRelocs[r].symbol.name, Dyn(l, k).symbols[t].size))
  {
    hide RecordedAddress, FindSymbol, AllSymbols, AllRelocations;
    var f := Dyn(l, o).varRelocs[r];
    RelocationPlace(l, o, r);
    DefinesPlace(l, f.symbol.name, Wrap(Base(l, o) + f.offset), k, t);
    FirstIsFound(l, f.symbol.name, Wrap(Base(l, o) + f.offset), k, t);
  }

  /** The first definition of a name in the libraries. */
  ghost predicate FirstInLibraries(l: Link, name: string, k: nat, t: nat) {
    && k > 0 && Defines(l, name, 0, k, t)
    && forall k': nat, t': nat :: k' > 0 && Earlier(k', t', k, t) ==> !Defines(l, name, 0, k', t')
  }

  /** The executable defines the variable of its COPY relocation `f` at the slot and nowhere else, and no library
      does so at the slot, relocated or not. */
  ghost predicate OnlyAtSlot(l: Link, f: Relocation) {
    && 0 < f.offset && l.offset + f.offset < WORD_LIMIT
    && (exists t: nat :: t < |l.exe.symbols| && l.exe.symbols[t].name == f.symbol.name
                         && l.exe.symbols[t].value == f.offset)
    && (forall t: nat :: Defines(l, f.symbol.name, 0, 0, t) ==> RecordedAddress(l, 0, t) == f.offset)
    && (forall k: nat, t: nat :: k > 0 && Defines(l, f.symbol.name, 0, k, t) ==>
          RecordedAddress(l, k, t) != f.offset && RecordedAddress(l, k, t) != l.offset + f.offset)
  }

  /** Such a relocation copies from the first library that defines the variable exactly when the executable is not
      relocated; a relocated one copies from its own unrelocated address. */
  lemma CopiesFromLibrary(l: Link, r: nat, k: nat, t: nat)
    requires r < |l.exe.varRelocs| && OnlyAtSlot(l, l.exe.varRelocs[r])
    requires FirstInLibraries(l, l.exe.varRelocs[r].symbol.name, k, t)
    ensures k <= |l.libs| && t < |Dyn(l, k).symbols| && r < |l.Relocations()| && l.CopySource(r).Some?
    ensures l.CopySource(r).value.value == RecordedAddress(l, k, t) <==> l.offset == 0
    ensures l.offset != 0 ==> l.CopySource(r).value.value == l.exe.varRelocs[r].offset
  {
    hide FindSymbol, AllSymbols, AllRelocations;
    var f := l.exe.varRelocs[r];
    var slot := l.offset + f.offset;
    assert Wrap(l.offset + f.offset) == slot;
    if l.offset == 0 {
      assert FirstDefinition(l, f.symbol.name, slot, k, t) by {
        forall k': nat, t': nat | Earlier(k', t', k, t) ensures !Defines(l, f.symbol.name, slot, k', t') {
          assert Defines(l, f.symbol.name, slot, k', t') ==> Defines(l, f.symbol.name, 0, k', t');
        }
      }
      CopySourceOfFiles(l, 0, r, k, t);
    } else {
      var own := FirstOwn(l, f, slot);
      CopySourceOfFiles(l, 0, r, 0, own);
    }
  }

  lemma FirstOwn(l: Link, f: Relocation, slot: Word) returns (own: nat)
    requires OnlyAtSlot(l, f) && slot != f.offset
    ensures FirstDefinition(l, f.symbol.name, slot, 0, own) && RecordedAddress(l, 0, own) == f.offset
  {
    own := 0;
    while !Defines(l, f.symbol.name, slot, 0, own)
      invariant own <= |l.exe.symbols| && forall t: nat :: t < own ==> !Defines(l, f.symbol.name, slot, 0, t)
      decreases |l.exe.symbols| - own
    {
      if own == |l.exe.symbols| {
        var t: nat :| t < |l.exe.symbols| && l.exe.symbols[t].name == f.symbol.name
                      && l.exe.symbols[t].value == f.offset;
        assert Defines(l, f.symbol.name, slot, 0, t);
      }
      own := own + 1;
    }
    assert Defines(l, f.symbol.name, 0, 0, own);
  }

  // ---------------------------------------------------------------- calls

  // The name that the file gives for a call through a linkage table, and the slot it goes through.
  function CallName(l: Link, c: Call): string {
    if c.owner <= |l.libs| && c.index < |Dyn(l, c.owner).funcRelocs| then
      Dyn(l, c.owner).funcRelocs[c.index].symbol.name
    else ""
  }

  function CallSlot(l: Link, c: Call): Word {
    if c.owner <= |l.libs| && c.index < |Dyn(l, c.owner).funcRelocs| then
      Wrap(Base(l, c.owner) + Dyn(l, c.owner).funcRelocs[c.index].offset)
    else 0
  }

  /** What a run of calls looks like: each arrives at what its name means, and the run ends with the first name that
      means nothing. */
  ghost predicate RunMeans(l: Link, calls: seq<Call>, found: seq<Option<Word>>) {
    && |found| <= |calls|
    && (forall i :: 0 <= i < |found| ==> Means(l, CallName(l, calls[i]), found[i]))
    && (forall i :: 0 <= i < |found| - 1 ==> found[i].Some?)
    && (|found| < |calls| ==> found != [] && found[|found| - 1] == None)
  }

  lemma FieldsOfCall(l: Link, exePlt: Plt, plts: seq<Plt>, c: Call)
    requires PltsFit(l, exePlt, plts) && IsCall(exePlt, plts, c)
    ensures Slot(exePlt, plts, c) == CallSlot(l, c)
    ensures Object(exePlt, plts, c.owner).relocs[c.index].name == CallName(l, c)
  {
    assert Describes(Object(exePlt, plts, c.owner), DynOf(l.exe, l.libs, c.owner), BaseOf(l.offset, l.libs, c.owner));
    hide PltsFit;
  }

  lemma ExpectedMeans(l: Link, exePlt: Plt, plts: seq<Plt>, c: Call)
    requires PltsFit(l, exePlt, plts) && IsCall(exePlt, plts, c)
    ensures Means(l, CallName(l, c), Expected(exePlt, plts, l.Symbols(), c))
  {
    hide PltsFit, FindSymbol, AllSymbols, Means, CallName;
    FieldsOfCall(l, exePlt, plts, c);
    SearchMeans(l, CallName(l, c));
  }

  lemma {:induction false} ExpectedRunMeans(l: Link, exePlt: Plt, plts: seq<Plt>, calls: seq<Call>)
    requires PltsFit(l, exePlt, plts) && forall c :: c in calls ==> IsCall(exePlt, plts, c)
    ensures RunMeans(l, calls, ExpectedRun(exePlt, plts, l.Symbols(), calls))
  {
    hide PltsFit, Means, Expected, AllSymbols, CallName;
    if calls != [] {
      ExpectedMeans(l, exePlt, plts, calls[0]);
      if Expected(exePlt, plts, l.Symbols(), calls[0]).Some? {
        var rest := ExpectedRun(exePlt, plts, l.Symbols(), calls[1..]);
        ExpectedRunMeans(l, exePlt, plts, calls[1..]);
        MoreMeans(l, calls, Expected(exePlt, plts, l.Symbols(), calls[0]), rest);
      }
    }
  }

  lemma MoreMeans(l: Link, calls: seq<Call>, first: Option<Word>, rest: seq<Option<Word>>)
    requires calls != [] && first.Some? && Means(l, CallName(l, calls[0]), first) && RunMeans(l, calls[1..], rest)
    ensures RunMeans(l, calls, [first] + rest)
  {
    hide Means, CallName;
    var found := [first] + rest;
    forall i | 0 <= i < |found| ensures Means(l, CallName(l, calls[i]), found[i]) {
      if i > 0 {
        assert calls[i] == calls[1..][i - 1] && found[i] == rest[i - 1];
      }
    }
  }

  /** From files to calls: in every linked program, every run of calls through the linkage tables, cached or not,
      arrives at the first definitions of the names that the files give for the calls. */
  lemma CallsOfFiles(
    l: Link, stale: nat -> Word, m1: Memory, exePlt: Plt, plts: seq<Plt>, caching: bool, calls: seq<Call>)
    requires l.After(stale) == Some(m1) && WellSpaced(l) && ExeCellIsZero(l) && PltsFit(l, exePlt, plts)
    requires forall c :: c in calls ==> IsCall(exePlt, plts, c)
    ensures RunMeans(l, calls, Run(m1, exePlt, plts, l.Symbols(), caching, calls))
  {
    hide Linked, WellSpaced, PltsFit, ExeCellIsZero, Run, ExpectedRun, RunMeans;
    LinkedRunArrives(l, stale, m1, exePlt, plts, caching, calls);
    ExpectedRunMeans(l, exePlt, plts, calls);
  }

  /** With caching, a call that goes to the resolver leaves the address in the slot that the file names for it, and
      nothing else in memory changes. */
  lemma CachesInSlot(l: Link, exePlt: Plt, plts: seq<Plt>, m: Memory, c: Call, m1: Memory, w: Word)
    requires PltsFit(l, exePlt, plts) && Ready(m, exePlt, plts, l.Symbols(), l.callback, l.table)
    requires IsCall(exePlt, plts, c) && CallOnce(m, exePlt, plts, l.Symbols(), true, c) == Some((m1, w))
    ensures LoadWord(m1, CallSlot(l, c)) == w
    ensures m1 == m || m1 == WriteBytes(m, CallSlot(l, c), LeBytes(w, 8))
  {
    hide PltsFit, Ready, PltsApart, FindSymbol, AllSymbols, CallSlot, CallName;
    FieldsOfCall(l, exePlt, plts, c);
    SelectsOwn(m, exePlt, plts, l.Symbols(), l.callback, l.table, c);
    hide LoadWord;
    if LoadWord(m, CallSlot(l, c)) == Object(exePlt, plts, c.owner).stubs[c.index] {
      assert m1 == WriteBytes(m, CallSlot(l, c), LeBytes(w, 8));
      HoldsWord(m1, CallSlot(l, c), w);
    }
  }
}
