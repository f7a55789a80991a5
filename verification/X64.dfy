/** The processor as far as the hand-written assembly of the loaders needs it: the general registers,
    two floating point registers, and a stack of 8-byte words. Register contents are plain integers;
    arithmetic is only done on the two stack registers, far from both ends of the address space. */
module X64 {
  import opened Words
  import opened AddressSpace

  type Stack = map<int, int>

  datatype State = State(
    rax: int, rbx: int, rcx: int, rdx: int, rsi: int, rdi: int, rbp: int, rsp: int,
    r8: int, r9: int, r10: int, r11: int, r12: int, r13: int, r14: int, r15: int,
    xmm0: int, xmm1: int, rip: int, stack: Stack)
  {
    function Push(v: int): State {
      this.(rsp := rsp - 8, stack := stack[rsp - 8 := v])
    }

    function Top(): int
      requires rsp in stack
    {
      stack[rsp]
    }

    function Call(target: int, next: int): State {
      Push(next).(rip := target)
    }

    function Ret(): State
      requires rsp in stack
    {
      this.(rip := Top(), rsp := rsp + 8)
    }
  }

  /** Two stacks agree from an address upwards. */
  ghost predicate SameFrom(s: Stack, s': Stack, low: int) {
    forall a :: a >= low ==> (a in s <==> a in s') && (a in s ==> s[a] == s'[a])
  }

  /** All registers a caller or callee may rely on agree; `rax`, `r10` and `r11` are scratch. */
  predicate SameButScratch(c: State, d: State) {
    && c.rbx == d.rbx && c.rcx == d.rcx && c.rdx == d.rdx && c.rsi == d.rsi && c.rdi == d.rdi && c.rbp == d.rbp
    && c.r8 == d.r8 && c.r9 == d.r9 && c.r12 == d.r12 && c.r13 == d.r13 && c.r14 == d.r14 && c.r15 == d.r15
    && c.xmm0 == d.xmm0 && c.xmm1 == d.xmm1
  }

  datatype SwapState = SwapState(rbx: int, rdi: int, rsi: int)

  datatype StackArgs = StackArgs(p5: int, p6: int, p7: int, p8: int)

  /** The System V calling convention: the function returns above its return address with the
      callee-saved registers intact. What it does to the stack is its own affair. */
  predicate SysVReturn(c: State, d: State) {
    && c.rsp in c.stack && d.rip == c.stack[c.rsp]
    && d.rsp == c.rsp + 8
    && d.rbx == c.rbx && d.rbp == c.rbp
    && d.r12 == c.r12 && d.r13 == c.r13 && d.r14 == c.r14 && d.r15 == c.r15
  }

  /** A call to a Linux function that is dispatched while another one runs: what its caller held in the three
      registers, and the calls dispatched while it ran in turn. */
  datatype Dispatch = Dispatch(caller: SwapState, within: seq<Dispatch>)

  /** The global swap state after a list of dispatched calls. */
  function SwapAfter(swap: SwapState, calls: seq<Dispatch>): SwapState
    decreases calls
  {
    if calls == [] then swap
    else
      var last := calls[|calls| - 1];
      SwapAfter(last.caller, last.within)
  }

  /** All calls of such a list, at any depth, in the order they are dispatched. */
  function Callers(calls: seq<Dispatch>): seq<SwapState>
    decreases calls
  {
    if calls == [] then []
    else Callers(calls[..|calls| - 1]) + [calls[|calls| - 1].caller] + Callers(calls[|calls| - 1].within)
  }

  /** The swap state is that of the last call dispatched, at whatever depth. */
  lemma {:induction false} SwapAfterIsLast(swap: SwapState, calls: seq<Dispatch>)
    ensures Callers(calls) == [] <==> calls == []
    ensures SwapAfter(swap, calls) == if calls == [] then swap else Callers(calls)[|Callers(calls)| - 1]
    decreases calls
  {
    if calls != [] {
      SwapAfterIsLast(calls[|calls| - 1].caller, calls[|calls| - 1].within);
    }
  }

  /** A Linux function: from the state it is entered in to the state it returns in, and the calls to Linux
      functions that are dispatched in between. */
  datatype Callee = Callee(run: State -> State, dispatches: State -> seq<Dispatch>)

  ghost predicate KeepsSysV(callee: Callee) {
    forall c: State :: c.rsp in c.stack ==> SysVReturn(c, callee.run(c))
  }

  // The registers that the callback keeps in the global swap state.
  function Preserved(c: State): SwapState {
    SwapState(c.rbx, c.rdi, c.rsi)
  }

  // ---------------------------------------------------------------- what a dispatched call looks like

  /** The stack a caller leaves at the entry of a function: its return address, and at least the
      words up to the eighth parameter. */
  predicate CallFrame(c: State) {
    && c.rsp in c.stack
    && c.rsp + 40 in c.stack && c.rsp + 48 in c.stack && c.rsp + 56 in c.stack && c.rsp + 64 in c.stack
  }

  function CallArgs(c: State): StackArgs
    requires CallFrame(c)
  {
    StackArgs(c.stack[c.rsp + 40], c.stack[c.rsp + 48], c.stack[c.rsp + 56], c.stack[c.rsp + 64])
  }

  /** The same call as far as the called function can tell. */
  ghost predicate SameCall(c: State, d: State) {
    d.rsp == c.rsp && SameButScratch(d, c) && SameFrom(d.stack, c.stack, c.rsp)
  }

  /** Control is at the function as if it had been called directly, in state `c`. */
  ghost predicate WentTo(c: State, d: State, address: int) {
    d.rip == address && SameCall(c, d)
  }

  /** The eight parameters of the Windows call in `c` are in the places of the System V convention in
      `e`, on an equally aligned stack that is unchanged from the fifth parameter upwards. */
  ghost predicate EnteredAsSysV(c: State, e: State, address: int)
    requires CallFrame(c)
  {
    && e.rip == address
    && e.rdi == c.rcx && e.rsi == c.rdx && e.rdx == c.r8 && e.rcx == c.r9
    && e.r8 == c.stack[c.rsp + 40] && e.r9 == c.stack[c.rsp + 48]
    && e.rsp + 8 in e.stack && e.stack[e.rsp + 8] == c.stack[c.rsp + 56]
    && e.rsp + 16 in e.stack && e.stack[e.rsp + 16] == c.stack[c.rsp + 64]
    && e.xmm0 == c.xmm0 && e.xmm1 == c.xmm1
    && e.rsp == c.rsp + 16
    && SameFrom(e.stack, c.stack, c.rsp + 40)
  }

  /** The Linux function was run for the Windows call in `c`, entered in state `e`, and the caller goes
      on in state `d`; rbx, rdi and rsi are those of the swap state at the end. The stack from the fifth
      parameter upwards is as the function has left it. */
  ghost predicate WentToLinux(c: State, e: State, d: State, address: int, callee: Callee)
    requires CallFrame(c)
  {
    var r := callee.run(e);
    && EnteredAsSysV(c, e, address)
    && d.rip == c.stack[c.rsp] && d.rsp == c.rsp + 8 && d.rbp == c.rbp
    && d.r12 == c.r12 && d.r13 == c.r13 && d.r14 == c.r14 && d.r15 == c.r15
    && Preserved(d) == SwapAfter(Preserved(c), callee.dispatches(e))
    && d.rax == r.rax && d.xmm0 == r.xmm0
    && SameFrom(d.stack, r.stack, c.rsp + 40)
  }

  lemma DirectShift(c: State, c': State, d: State, address: int)
    requires SameCall(c, c') && WentTo(c', d, address)
    ensures WentTo(c, d, address)
  {
  }

  lemma FrameShift(c: State, c': State)
    requires SameCall(c, c') && CallFrame(c)
    ensures CallFrame(c') && CallArgs(c') == CallArgs(c)
  {
  }

  lemma LinuxShift(c: State, c': State, e: State, d: State, address: int, callee: Callee)
    requires SameCall(c, c') && CallFrame(c) && CallFrame(c') && WentToLinux(c', e, d, address, callee)
    ensures WentToLinux(c, e, d, address, callee)
  {
  }

  /** A System V function entered for an aligned Windows call finds its stack aligned. Its caller gets back
      rbx, rdi and rsi exactly when no call is dispatched while it runs, or the last one was made with the
      same three registers. */
  lemma SwapPreserves(c: State, e: State, d: State, address: int, callee: Callee)
    requires CallFrame(c) && WentToLinux(c, e, d, address, callee)
    ensures (c.rsp + 8) % 16 == 0 <==> (e.rsp + 8) % 16 == 0
    ensures var callers := Callers(callee.dispatches(e));
      (d.rbx == c.rbx && d.rdi == c.rdi && d.rsi == c.rsi) <==>
      callee.dispatches(e) == [] || (callers != [] && callers[|callers| - 1] == Preserved(c))
  {
    SwapAfterIsLast(Preserved(c), callee.dispatches(e));
  }

  /** A nested call loses them: here a Windows function that is called back calls a Linux one, holding 7, 8
      and 9 where the first caller held 1, 2 and 3. */
  lemma NestedCallLoses(c: State, e: State, d: State, address: int, callee: Callee)
    requires CallFrame(c) && WentToLinux(c, e, d, address, callee)
    requires Preserved(c) == SwapState(1, 2, 3) && callee.dispatches(e) == [Dispatch(SwapState(7, 8, 9), [])]
    ensures Preserved(d) == SwapState(7, 8, 9) != Preserved(c)
  {
    assert SwapAfter(SwapState(7, 8, 9), []) == SwapState(7, 8, 9);
  }

  // The state of the interrupted call, read back from the frame of a callback.
  function CallState(f: State): State
    requires f.rbp in f.stack
  {
    f.(rbp := f.stack[f.rbp], rsp := f.rbp + 24)
  }

  class Cpu {
    var c: State
    var swap: SwapState              // preserved_swap_state

    constructor (c: State, swap: SwapState)
      ensures this.c == c && this.swap == swap
    {
      this.c, this.swap := c, swap;
    }

    /** Fetches and executes one of the two instructions a trampoline consists of:
        `mov eax, imm32` or `call rax`. */
    method Step(memory: Memory) returns (ok: bool)
      modifies this`c
      ensures old(ByteAt(memory, c.rip)) == 0xb8 ==>
        ok && c == old(c).(rax := LeValue(LoadBytes(memory, old(c.rip) + 1, 4)), rip := old(c.rip) + 5)
      ensures old(ByteAt(memory, c.rip)) == 0xff && old(ByteAt(memory, c.rip + 1)) == 0xd0 ==>
        ok && c == old(c).Call(old(c.rax), old(c.rip) + 2)
    {
      if ByteAt(memory, c.rip) == 0xb8 {
        c := c.(rax := LeValue(LoadBytes(memory, c.rip + 1, 4)), rip := c.rip + 5);
        return true;
      }
      if ByteAt(memory, c.rip) == 0xff && ByteAt(memory, c.rip + 1) == 0xd0 {
        c := c.Call(c.rax, c.rip + 2);
        return true;
      }
      return false;
    }

    /** The compiled part of a callback: it may leave anything in every register but the frame
        pointer, and anything on the stack below the frame. */
    method CompiledBody(junk: State)
      modifies this`c
      ensures c == junk.(rbp := old(c.rbp), rip := old(c.rip), stack := c.stack)
      ensures SameFrom(c.stack, old(c.stack), c.rbp)
    {
      var frame := c.rbp;
      var stack := (map a | a in c.stack && a >= frame :: c.stack[a])
                 + (map a | a in junk.stack && a < frame :: junk.stack[a]);
      c := junk.(rbp := frame, rip := c.rip, stack := stack);
    }

    // -------------------------------------------------------------- Linux to Linux

    /** The assembly at the end of `dynamic_callback_linux`; `f` holds the registers of the snapshot. */
    method ResumeLinux(f: State, target: int)
      requires c.rbp in c.stack
      modifies this`c
      ensures SameButScratch(c, f.(rbp := old(c.stack[c.rbp])))
      ensures c.rsp == old(c.rbp) + 24 && c.rip == target && c.stack == old(c.stack)
    {
      c := c.(rdi := f.rdi);
      c := c.(rsi := f.rsi);
      c := c.(rdx := f.rdx);
      c := c.(rcx := f.rcx);
      c := c.(r8 := f.r8);
      c := c.(r9 := f.r9);
      c := c.(r12 := f.r12);
      c := c.(r13 := f.r13);
      c := c.(r14 := f.r14);
      c := c.(r15 := f.r15);
      c := c.(xmm0 := f.xmm0);
      c := c.(xmm1 := f.xmm1);
      c := c.(rbx := f.rbx);
      c := c.(rsp := c.rbp);
      c := c.(rbp := c.Top(), rsp := c.rsp + 8);
      c := c.(rsp := c.rsp + 16);
      c := c.(rip := target);
    }

    // -------------------------------------------------------------- Windows to Windows

    /** The assembly of `dynamic_callback_windows` for an export of a DLL. */
    method ResumeWindows(f: State, target: int)
      requires c.rbp in c.stack
      modifies this`c
      ensures SameButScratch(c, f.(rbp := old(c.stack[c.rbp])))
      ensures c.rsp == old(c.rbp) + 24 && c.rip == target && c.stack == old(c.stack)
    {
      c := c.(rcx := f.rcx);
      c := c.(rdx := f.rdx);
      c := c.(r8 := f.r8);
      c := c.(r9 := f.r9);
      c := c.(r12 := f.r12);
      c := c.(r13 := f.r13);
      c := c.(r14 := f.r14);
      c := c.(r15 := f.r15);
      c := c.(rbx := f.rbx);
      c := c.(rdi := f.rdi);
      c := c.(rsi := f.rsi);
      c := c.(xmm0 := f.xmm0);
      c := c.(xmm1 := f.xmm1);
      c := c.(rsp := c.rbp);
      c := c.(rbp := c.Top(), rsp := c.rsp + 8);
      c := c.(rsp := c.rsp + 16);
      c := c.(rip := target);
    }

    // -------------------------------------------------------------- Windows to Linux and back

    /** The first half of the swap, up to and including the call. The frame holds the saved rbp, the
        alignment word, the trampoline's return address and, at `s`, the caller's return address. */
    method SwapToLinux(f: State, args: StackArgs, target: int, next: int)
      requires c.rbp in c.stack && c.rbp + 24 in c.stack
      modifies this`c
      ensures var s := old(c.rbp) + 24;
        && c.rsp == s + 16 && c.rip == target
        && c.stack == old(c.stack)[s + 32 := args.p8][s + 24 := args.p7][s + 16 := next]
        && c.rbx == old(c.stack[c.rbp + 24]) && c.rbp == old(c.stack[c.rbp])
      ensures c.rdi == f.rcx && c.rsi == f.rdx && c.rdx == f.r8 && c.rcx == f.r9
      ensures c.r8 == args.p5 && c.r9 == args.p6 && c.xmm0 == f.xmm0 && c.xmm1 == f.xmm1
      ensures c.r12 == f.r12 && c.r13 == f.r13 && c.r14 == f.r14 && c.r15 == f.r15
    {
      c := c.(rdi := f.rcx);
      c := c.(rsi := f.rdx);
      c := c.(rdx := f.r8);
      c := c.(rcx := f.r9);
      c := c.(r8 := args.p5);
      c := c.(r9 := args.p6);
      c := c.(r12 := f.r12);
      c := c.(r13 := f.r13);
      c := c.(r14 := f.r14);
      c := c.(r15 := f.r15);
      c := c.(xmm0 := f.xmm0);
      c := c.(xmm1 := f.xmm1);
      c := c.(r10 := args.p7);
      c := c.(r11 := args.p8);
      c := c.(rsp := c.rbp);
      c := c.(rbp := c.Top(), rsp := c.rsp + 8);
      c := c.(rsp := c.rsp + 16);
      c := c.(rbx := c.Top(), rsp := c.rsp + 8);
      c := c.(rsp := c.rsp + 32);
      c := c.Push(c.r11);
      c := c.Push(c.r10);
      c := c.Call(target, next);
    }

    /** The second half, from the return of the Linux function to the caller. */
    method SwapToWindows()
      modifies this`c
      ensures c == old(c).(rsp := old(c.rsp) - 16, rip := old(c.rbx), rbx := swap.rbx, rdi := swap.rdi,
                           rsi := swap.rsi, stack := old(c.stack)[old(c.rsp) - 24 := old(c.rbx)])
    {
      c := c.(rsp := c.rsp + 16);
      c := c.(rsp := c.rsp - 32);
      c := c.Push(c.rbx);
      c := c.(rbx := swap.rbx);
      c := c.(rdi := swap.rdi);
      c := c.(rsi := swap.rsi);
      c := c.Ret();
    }

    /** The calls dispatched while a Linux function runs, each storing its caller's registers first. */
    method RunDispatches(calls: seq<Dispatch>)
      modifies this`swap
      ensures swap == SwapAfter(old(swap), calls)
      decreases calls
    {
      for i := 0 to |calls|
        invariant swap == SwapAfter(old(swap), calls[..i])
      {
        swap := calls[i].caller;
        RunDispatches(calls[i].within);
        assert calls[..i + 1][i] == calls[i];
      }
      assert calls[..|calls|] == calls;
    }

    /** The alignment stub of the Windows callback and the prologue of its compiled part. */
    method EnterCallback(callback: int)
      requires c.rip == callback
      modifies this`c
      ensures var top := old(c.rsp);
        c == old(c).(rsp := top - 16, rbp := top - 16, stack := old(c.stack)[top - 8 := 0][top - 16 := old(c.rbp)])
    {
      c := c.Push(0);
      c := c.Push(c.rbp);
      c := c.(rbp := c.rsp);
    }

    /** From the snapshot to the DLL function: compiled code, then the assembly. */
    method LeaveToWindows(junk: State, address: int)
      requires c.rbp in c.stack
      modifies this`c
      ensures WentTo(CallState(old(c)), c, address)
    {
      var f := c;
      CompiledBody(junk);
      ResumeWindows(f, address);
    }

    /** The prologue of the Linux callback, entered from a procedure linkage table. */
    method EnterLinuxCallback(callback: int)
      requires c.rip == callback
      modifies this`c
      ensures var top := old(c.rsp);
        c == old(c).(rsp := top - 8, rbp := top - 8, stack := old(c.stack)[top - 8 := old(c.rbp)])
    {
      c := c.Push(c.rbp);
      c := c.(rbp := c.rsp);
    }

    /** From the snapshot to the function a Linux object called. */
    method LeaveToFunction(junk: State, address: int)
      requires c.rbp in c.stack
      modifies this`c
      ensures WentTo(CallState(old(c)), c, address)
    {
      var f := c;
      CompiledBody(junk);
      ResumeLinux(f, address);
    }

    /** From the snapshot through libntdll and back to the caller. */
    method LeaveToLinux(junk: State, address: int, next: int, callee: Callee) returns (entry: State)
      requires c.rbp in c.stack && CallFrame(CallState(c)) && KeepsSysV(callee)
      modifies this
      ensures WentToLinux(CallState(old(c)), entry, c, address, callee)
      ensures callee.dispatches(entry) == [] ==> Preserved(c) == Preserved(old(c))
    {
      var f := c;
      var args := CallArgs(CallState(f));
      CompiledBody(junk);
      swap := SwapState(f.rbx, f.rdi, f.rsi);
      SwapToLinux(f, args, address, next);
      entry := c;
      assert SysVReturn(entry, callee.run(entry));
      RunDispatches(callee.dispatches(entry));
      c := callee.run(entry);
      SwapToWindows();
    }
  }
}
