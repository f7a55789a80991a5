/** A call through an import address table slot, from the program's `call` to the function that was
    imported, over the machine code in memory, the callback, and the assembly that leaves it. */
module WinCall {
  import opened Words
  import opened AddressSpace
  import opened ElfTypes
  import opened WinImages
  import opened WinIat
  import opened WinLoader
  import opened WinInstall
  import opened WinDispatch
  import opened X64

  // What became of the call: the loader exits, the function is running in place of the callback,
  // or it has run and its caller goes on. `entry` is the state a Linux function was entered in.
  datatype Outcome = Exited | Entered | Returned(entry: State)

  /** What a call that was dispatched to `target` must look like, `c` being the state a direct call
      would have entered the function in. */
  ghost predicate DispatchedWell(
    c: State, d: State, outcome: Outcome, target: Option<Target>, callee: Callee)
    requires CallFrame(c)
  {
    match target
    case None => outcome == Exited
    case Some(t) =>
      if t.isNtdll then outcome.Returned? && WentToLinux(c, outcome.entry, d, t.address, callee)
      else outcome == Entered && WentTo(c, d, t.address)
  }

  lemma DispatchShift(
    c: State, c': State, d: State, outcome: Outcome, target: Option<Target>, callee: Callee)
    requires SameCall(c, c') && CallFrame(c) && CallFrame(c')
    requires DispatchedWell(c', d, outcome, target, callee)
    ensures DispatchedWell(c, d, outcome, target, callee)
  {
    if target.Some? {
      if target.value.isNtdll {
        LinuxShift(c, c', outcome.entry, d, target.value.address, callee);
      } else {
        DirectShift(c, c', d, target.value.address);
      }
    }
  }

  /** `dynamic_callback_windows`, entered from the trampoline through the alignment stub. */
  method DynamicCallbackWindows(
    cpu: Cpu, loader: Loader, junk: State, callee: Callee, next: int)
    returns (outcome: Outcome)
    requires cpu.c.rip == loader.callback
    requires cpu.c.rsp in cpu.c.stack && 0 <= cpu.c.stack[cpu.c.rsp] < WORD_LIMIT
    requires CallFrame(cpu.c.(rsp := cpu.c.rsp + 8)) && KeepsSysV(callee)
    modifies cpu
    ensures DispatchedWell(
      old(cpu.c).(rsp := old(cpu.c.rsp) + 8), cpu.c, outcome,
      CallbackTarget(loader.exe, loader.libs, loader.ntdll, loader.initialBase, old(cpu.c.Top())), callee)
  {
    cpu.EnterCallback(loader.callback);
    var trampolineEnd := cpu.c.stack[cpu.c.rbp + 16];
    var target := loader.LookUp(trampolineEnd);
    ghost var c, c' := old(cpu.c).(rsp := old(cpu.c.rsp) + 8), CallState(cpu.c);
    FrameShift(c, c');
    if target == None {
      return Exited;
    }
    if target.value.isNtdll {
      var entry := cpu.LeaveToLinux(junk, target.value.address, next, callee);
      outcome := Returned(entry);
    } else {
      cpu.LeaveToWindows(junk, target.value.address);
      outcome := Entered;
    }
    DispatchShift(c, c', cpu.c, outcome, target, callee);
  }

  lemma TrampolineInMemory(m: Memory, at: int, callback: Word)
    requires callback < UINT32_LIMIT && Holds(m, at, TrampolineCode(callback))
    ensures ByteAt(m, at) == 0xb8 && ByteAt(m, at + 5) == 0xff && ByteAt(m, at + 6) == 0xd0
    ensures LeValue(LoadBytes(m, at + 1, 4)) == callback
  {
    var code := TrampolineCode(callback);
    forall x | at <= x < at + TRAMPOLINE_SIZE ensures ByteAt(m, x) == code[x - at] {
      assert x in m;
    }
    assert LoadBytes(m, at + 1, 4) == code[1..5];
    TrampolineImmediate(callback);
  }

  /** The trampoline: two instructions fetched from memory. */
  method RunTrampoline(cpu: Cpu, memory: Memory, callback: Word) returns (ok: bool)
    requires callback < UINT32_LIMIT && Holds(memory, cpu.c.rip, TrampolineCode(callback))
    modifies cpu
    ensures ok && cpu.c == old(cpu.c).(rax := callback).Call(callback, old(cpu.c.rip) + TRAMPOLINE_SIZE)
  {
    TrampolineInMemory(memory, cpu.c.rip, callback);
    ok := cpu.Step(memory);
    ok := cpu.Step(memory);
  }

  /** What the call goes through: the slot holds the trampoline, the trampoline is intact, and the
      callback recovers the name the entry was annotated with. */
  lemma SlotLeadsTo(
    m: Memory, exe: WinRuntimeObject, libs: seq<WinRuntimeObject>, ntdll: seq<RuntimeSymbol>, base: Word,
    callback: Word, k: nat, i: nat)
    requires k <= |libs| && ImageOk(Image(exe, libs, k), libs) && Placement(exe, libs, base)
    requires Installed(m, Image(exe, libs, k), libs, callback)
    requires i < |Image(exe, libs, k).pe.iat| && IsFunction(Image(exe, libs, k).pe.iat[i], libs)
    requires AnnotatedBy(Image(exe, libs, k).pe) && DistinctAddresses(Image(exe, libs, k).pe.importDir)
    ensures var o := Image(exe, libs, k);
      var e, start := o.pe.iat[i], LoadWord(m, o.pe.imageBase + o.pe.iat[i].key);
      && Holds(m, start, TrampolineCode(callback))
      && start + TRAMPOLINE_SIZE < WORD_LIMIT
      && CallbackTarget(exe, libs, ntdll, base, start + TRAMPOLINE_SIZE)
         == NamedTarget(libs, ntdll, e.libName.value, e.importName.value)
  {
    hide CallbackTarget, NamedTarget, TargetIn, Placement, AnnotatedBy, DistinctAddresses, TrampolineCode, LeBytes;
    hide PageOk, InSection, LoadWord;
    var o := Image(exe, libs, k);
    assert SlotInstalled(m, o, i, libs, callback);
    HoldsWord(m, o.pe.imageBase + o.pe.iat[i].key, TrampolineOf(o, o.pe.iat[i]));
    CallbackInverts(exe, libs, ntdll, base, k, i);
    TargetOfEntry(o, i, libs, ntdll);
  }

  /** The program calls function import `i` of image `k`: slot, trampoline, callback, function. */
  method CallImport(
    cpu: Cpu, loader: Loader, k: nat, i: nat, junk: State, callee: Callee, next: int)
    returns (outcome: Outcome)
    requires k <= |loader.libs| && ImageOk(Image(loader.exe, loader.libs, k), loader.libs)
    requires Placement(loader.exe, loader.libs, loader.initialBase)
    requires Installed(loader.memory, Image(loader.exe, loader.libs, k), loader.libs, loader.callback)
    requires var pe := Image(loader.exe, loader.libs, k).pe;
      && i < |pe.iat| && IsFunction(pe.iat[i], loader.libs)
      && AnnotatedBy(pe) && DistinctAddresses(pe.importDir)
    requires loader.callback < UINT32_LIMIT && CallFrame(cpu.c) && KeepsSysV(callee)
    modifies cpu
    ensures var e := Image(loader.exe, loader.libs, k).pe.iat[i];
      DispatchedWell(
        old(cpu.c), cpu.c, outcome,
        NamedTarget(loader.libs, loader.ntdll, e.libName.value, e.importName.value), callee)
  {
    hide ImageOk, Placement, Installed, AnnotatedBy, DistinctAddresses, CallbackTarget, NamedTarget, TrampolineCode,
      LoadWord, DispatchedWell, KeepsSysV;
    SlotLeadsTo(loader.memory, loader.exe, loader.libs, loader.ntdll, loader.initialBase, loader.callback, k, i);
    var image := Image(loader.exe, loader.libs, k).pe;
    cpu.c := cpu.c.(rip := LoadWord(loader.memory, image.imageBase + image.iat[i].key));
    var ok := RunTrampoline(cpu, loader.memory, loader.callback);
    ghost var c' := cpu.c.(rsp := cpu.c.rsp + 8);
    FrameShift(old(cpu.c), c');
    outcome := DynamicCallbackWindows(cpu, loader, junk, callee, next);
    ghost var e := image.iat[i];
    DispatchShift(
      old(cpu.c), c', cpu.c, outcome,
      NamedTarget(loader.libs, loader.ntdll, e.libName.value, e.importName.value), callee);
  }
}
