/** The initial process stack of the System V AMD64 psABI (section 3.4.1), which the Linux loader
    shifts in place so that the loaded program does not see the loader's own argument. */
module InitialStack {
  import opened Words

  datatype Aux = Aux(kind: Word, value: Word)

  /** The auxiliary vector with its terminating null entry. */
  function AuxWords(aux: seq<Aux>): seq<Word> {
    if aux == [] then [0, 0] else [aux[0].kind, aux[0].value] + AuxWords(aux[1..])
  }

  function Layout(args: seq<Word>, env: seq<Word>, aux: seq<Aux>): seq<Word>
    requires |args| < WORD_LIMIT
  {
    [|args|] + args + [0] + env + [0] + AuxWords(aux)
  }

  // Environment pointers are not null, and only the terminator has type AT_NULL.
  ghost predicate WellFormed(env: seq<Word>, aux: seq<Aux>) {
    (forall e :: e in env ==> e != 0) && (forall a :: a in aux ==> a.kind != 0)
  }

  lemma {:induction false} AuxAt(aux: seq<Aux>)
    ensures |AuxWords(aux)| == 2 * |aux| + 2
    ensures AuxWords(aux)[2 * |aux|] == 0 && AuxWords(aux)[2 * |aux| + 1] == 0
    ensures forall k :: 0 <= k < |aux| ==>
      AuxWords(aux)[2 * k] == aux[k].kind && AuxWords(aux)[2 * k + 1] == aux[k].value
  {
    if aux != [] {
      AuxAt(aux[1..]);
      forall k | 0 <= k < |aux|
        ensures AuxWords(aux)[2 * k] == aux[k].kind && AuxWords(aux)[2 * k + 1] == aux[k].value
      {
        if k > 0 {
          assert aux[k] == aux[1..][k - 1];
          assert AuxWords(aux)[2 * k] == AuxWords(aux[1..])[2 * (k - 1)];
          assert AuxWords(aux)[2 * k + 1] == AuxWords(aux[1..])[2 * (k - 1) + 1];
        }
      }
    }
  }

  lemma AuxLength(aux: seq<Aux>)
    ensures |AuxWords(aux)| == 2 * |aux| + 2
  {
    AuxAt(aux);
  }

  /** Where the word-wise scan for two null words stops: at the terminator, or one word before it when
      the last value is 0. */
  lemma ScanStops(aux: seq<Aux>, n: nat)
    requires forall a :: a in aux ==> a.kind != 0
    requires n + 1 < |AuxWords(aux)| && AuxWords(aux)[n] == 0 && AuxWords(aux)[n + 1] == 0
    ensures n == 2 * |aux| || (n == 2 * |aux| - 1 && aux[|aux| - 1].value == 0)
  {
    hide AuxWords;
    AuxAt(aux);
    if n % 2 == 0 && n < 2 * |aux| {
      KindAt(aux, n / 2);
    } else if n % 2 == 1 && n + 1 < 2 * |aux| {
      KindAt(aux, (n + 1) / 2);
    } else if n == 2 * |aux| - 1 {
      assert AuxWords(aux)[2 * (|aux| - 1) + 1] == aux[|aux| - 1].value;
    }
  }

  lemma KindAt(aux: seq<Aux>, k: nat)
    requires k < |aux| && forall a :: a in aux ==> a.kind != 0
    ensures 2 * k < |AuxWords(aux)| && AuxWords(aux)[2 * k] != 0
  {
    AuxAt(aux);
    assert aux[k] in aux;
  }

  lemma LayoutTail(args: seq<Word>, env: seq<Word>, aux: seq<Aux>)
    requires 0 < |args| < WORD_LIMIT
    ensures |Layout(args[1..], env, aux)| == |Layout(args, env, aux)| - 1
    ensures forall i :: 1 <= i < |Layout(args, env, aux)| - 1 ==>
      Layout(args[1..], env, aux)[i] == Layout(args, env, aux)[i + 1]
  {
    var rest := [0] + env + [0] + AuxWords(aux);
    assert Layout(args, env, aux) == [|args| as Word, args[0]] + (args[1..] + rest);
    assert Layout(args[1..], env, aux) == [|args| - 1 as Word] + (args[1..] + rest);
  }

  /** The words of the three parts, by position. */
  lemma LayoutAt(args: seq<Word>, env: seq<Word>, aux: seq<Aux>)
    requires |args| < WORD_LIMIT
    ensures var w, e, a := Layout(args, env, aux), |args| + 2, |args| + |env| + 3;
      && |w| == a + |AuxWords(aux)|
      && w[0] == |args|
      && w[e..a - 1] == env && w[a - 1] == 0
      && w[a..] == AuxWords(aux)
  {
  }

  method CountEnvironment(stack: array<Word>, envv: nat, ghost env: seq<Word>) returns (n: nat)
    requires envv + |env| < stack.Length && stack[..][envv..envv + |env|] == env && stack[envv + |env|] == 0
    requires forall e :: e in env ==> e != 0
    ensures n == |env|
  {
    assert forall i :: 0 <= i < |env| ==> stack[envv + i] == stack[..][envv..envv + |env|][i] && env[i] in env;
    n := 0;
    while stack[envv + n] != 0
      invariant n <= |env|
      decreases |env| - n
    {
      n := n + 1;
    }
  }

  method CountAuxiliary(stack: array<Word>, auxv: nat, ghost aux: seq<Aux>) returns (n: nat)
    requires auxv + |AuxWords(aux)| <= stack.Length
    requires stack[..][auxv..auxv + |AuxWords(aux)|] == AuxWords(aux)
    requires forall a :: a in aux ==> a.kind != 0
    ensures n == 2 * |aux| || (n == 2 * |aux| - 1 && aux[|aux| - 1].value == 0)
  {
    AuxAt(aux);
    ghost var w := AuxWords(aux);
    assert forall i :: 0 <= i < |w| ==> stack[auxv + i] == stack[..][auxv..auxv + |w|][i] == w[i];
    n := 0;
    while !(stack[auxv + n] == 0 && stack[auxv + n + 1] == 0)
      invariant n <= 2 * |aux|
      decreases 2 * |aux| - n
    {
      n := n + 1;
    }
    ScanStops(aux, n);
  }

  lemma SamePart(was: seq<Word>, w: seq<Word>, from: nat, n: nat)
    requires |w| <= |was| && was[..|w|] == w && from + n <= |w|
    ensures was[from..from + n] == w[from..from + n]
    ensures from + n < |w| ==> was[from + n] == w[from + n]
  {
    assert forall i :: 0 <= i < |w| ==> was[i] == was[..|w|][i];
  }

  /** The stack surgery at the end of `main`. The stack starts at `address`; the ghost parameters name
      what it holds on entry. */
  method ShiftStack(
    stack: array<Word>, address: Word, ghost args: seq<Word>, ghost env: seq<Word>, ghost aux: seq<Aux>)
    returns (ok: bool)
    requires |args| < WORD_LIMIT && |Layout(args, env, aux)| <= stack.Length
    requires stack[..|Layout(args, env, aux)|] == Layout(args, env, aux)
    requires WellFormed(env, aux)
    modifies stack
    ensures ok <==> |args| >= 2 && address % 16 == 0
    ensures !ok ==> stack[..] == old(stack[..])
    ensures ok ==> stack[..|Layout(args, env, aux)| - 1] == Layout(args[1..], env, aux)
    ensures ok ==> stack[|Layout(args, env, aux)| - 1..] == old(stack[|Layout(args, env, aux)| - 1..])
  {
    ghost var w := Layout(args, env, aux);
    ghost var was := stack[..];
    LayoutAt(args, env, aux);
    SamePart(was, w, 0, 0);
    hide Layout, AuxWords;
    var argc: int := stack[0];
    if argc < 2 {
      return false;
    }
    var envv := argc + 2;
    SamePart(was, w, envv, |env|);
    var envCount := CountEnvironment(stack, envv, env);
    var auxv := envv + envCount + 1;
    SamePart(was, w, auxv, |AuxWords(aux)|);
    assert w[auxv..auxv + |AuxWords(aux)|] == w[auxv..];
    var auxCount := CountAuxiliary(stack, auxv, aux);
    if address % 16 != 0 {
      return false;
    }
    AuxAt(aux);
    ShiftWords(stack, argc, argc + envCount + 1 + auxCount + 1);
    ShiftedStack(was, stack[..], args, env, aux, auxCount);
    return true;
  }

  // Words 1 to n have moved down by one; the others, but for the count, have not moved.
  predicate IsShift(was: seq<Word>, now: seq<Word>, n: nat)
    requires n + 2 <= |was|
  {
    |now| == |was| && forall k {:trigger now[k]} | 1 <= k < |was| :: now[k] == if k <= n then was[k + 1] else was[k]
  }

  method ShiftWords(stack: array<Word>, argc: Word, n: nat)
    requires n + 2 <= stack.Length && 0 < argc
    modifies stack
    ensures stack[0] == argc - 1
    ensures IsShift(old(stack[..]), stack[..], n)
  {
    stack[0] := argc - 1;
    for i := 0 to n
      invariant stack[0] == argc - 1
      invariant forall k :: 1 <= k <= i ==> stack[k] == old(stack[k + 1])
      invariant forall k :: i < k < stack.Length ==> k > 0 ==> stack[k] == old(stack[k])
    {
      stack[i + 1] := stack[i + 2];
    }
  }

  lemma ShiftedStack(
    was: seq<Word>, now: seq<Word>, args: seq<Word>, env: seq<Word>, aux: seq<Aux>, auxCount: nat)
    requires 0 < |args| < WORD_LIMIT && |Layout(args, env, aux)| <= |was|
    requires was[..|Layout(args, env, aux)|] == Layout(args, env, aux)
    requires auxCount == 2 * |aux| || (auxCount == 2 * |aux| - 1 && aux[|aux| - 1].value == 0)
    requires |args| + |env| + auxCount + 4 <= |was| == |now| && now[0] == |args| - 1
    requires IsShift(was, now, |args| + |env| + auxCount + 2)
    ensures now[..|Layout(args, env, aux)| - 1] == Layout(args[1..], env, aux)
    ensures now[|Layout(args, env, aux)| - 1..] == was[|Layout(args, env, aux)| - 1..]
  {
    LayoutAt(args, env, aux);
    LayoutTail(args, env, aux);
    Shifted(was, now, Layout(args, env, aux), Layout(args[1..], env, aux), |args| + |env| + 3, aux, auxCount);
  }

  /** The words the loop did not move are already right: the target `t` is the old stack `w` without
      its first argument. */
  lemma Shifted(
    was: seq<Word>, now: seq<Word>, w: seq<Word>, t: seq<Word>, a: nat, aux: seq<Aux>, auxCount: nat)
    requires 1 < |w| <= |was| == |now| && was[..|w|] == w && |t| == |w| - 1 && now[0] == t[0]
    requires forall i {:trigger t[i]} :: 1 <= i < |t| ==> t[i] == w[i + 1]
    requires a <= |w| && w[a..] == AuxWords(aux) && 0 < a
    requires auxCount == 2 * |aux| || (auxCount == 2 * |aux| - 1 && aux[|aux| - 1].value == 0)
    requires a + auxCount + 1 <= |was| && IsShift(was, now, a + auxCount - 1)
    ensures now[..|t|] == t && now[|t|..] == was[|t|..]
  {
    hide AuxWords, IsShift;
    AuxLength(aux);
    forall i | 1 <= i < |t| ensures now[i] == t[i] {
      OneWord(was, now, w, a, aux, auxCount, i);
    }
    SamePrefix(now, t);
    Unmoved(was, now, a + auxCount - 1, |t|);
  }

  lemma SamePrefix(now: seq<Word>, t: seq<Word>)
    requires 0 < |t| <= |now| && now[0] == t[0]
    requires forall i :: 1 <= i < |t| ==> now[i] == t[i]
    ensures now[..|t|] == t
  {
  }

  lemma Unmoved(was: seq<Word>, now: seq<Word>, n: nat, from: nat)
    requires n < from && n + 2 <= |was| && IsShift(was, now, n) && from <= |was|
    ensures now[from..] == was[from..]
  {
  }

  lemma OneWord(was: seq<Word>, now: seq<Word>, w: seq<Word>, a: nat, aux: seq<Aux>, auxCount: nat, i: nat)
    requires 1 <= i < |w| - 1 && |w| <= |was| && was[..|w|] == w
    requires a <= |w| && w[a..] == AuxWords(aux) && 0 < a
    requires auxCount == 2 * |aux| || (auxCount == 2 * |aux| - 1 && aux[|aux| - 1].value == 0)
    requires a + auxCount + 1 <= |was| && IsShift(was, now, a + auxCount - 1)
    ensures now[i] == w[i + 1]
  {
    hide AuxWords;
    assert was[i] == w[i] && was[i + 1] == w[i + 1];
    AuxAt(aux);
    var j := i - a;
    if j >= auxCount {
      TailIsNull(aux, auxCount, j);
      assert w[i] == w[a..][j] && w[i + 1] == w[a..][j + 1];
    }
  }

  lemma TailIsNull(aux: seq<Aux>, auxCount: nat, j: nat)
    requires auxCount == 2 * |aux| || (auxCount == 2 * |aux| - 1 && aux[|aux| - 1].value == 0)
    requires auxCount <= j <= 2 * |aux|
    ensures j + 1 < |AuxWords(aux)| && AuxWords(aux)[j] == 0 && AuxWords(aux)[j + 1] == 0
  {
    AuxAt(aux);
    if j == 2 * |aux| - 1 {
      assert AuxWords(aux)[2 * (|aux| - 1) + 1] == aux[|aux| - 1].value;
    }
  }

  // ---------------------------------------------------------------- how the program reads its stack

  /** Words from `i` up to the next null word. */
  function UpToNull(w: seq<Word>, i: nat): seq<Word>
    decreases |w| - i
  {
    if i >= |w| || w[i] == 0 then [] else [w[i]] + UpToNull(w, i + 1)
  }

  function AuxFrom(w: seq<Word>, i: nat): seq<Aux>
    decreases |w| - i
  {
    if i + 1 >= |w| || w[i] == 0 then [] else [Aux(w[i], w[i + 1])] + AuxFrom(w, i + 2)
  }

  lemma {:induction false} UpToNullIs(w: seq<Word>, i: nat, xs: seq<Word>)
    requires i + |xs| < |w| && w[i..i + |xs|] == xs && w[i + |xs|] == 0
    requires forall x :: x in xs ==> x != 0
    ensures UpToNull(w, i) == xs
    decreases |xs|
  {
    if xs != [] {
      assert w[i] == w[i..i + |xs|][0] == xs[0] && xs[0] in xs;
      assert w[i + 1..i + 1 + |xs[1..]|] == w[i..i + |xs|][1..];
      assert forall x :: x in xs[1..] ==> x in xs;
      UpToNullIs(w, i + 1, xs[1..]);
    }
  }

  lemma {:induction false} AuxFromIs(w: seq<Word>, i: nat, aux: seq<Aux>)
    requires i <= |w| && w[i..] == AuxWords(aux)
    requires forall a :: a in aux ==> a.kind != 0
    ensures AuxFrom(w, i) == aux
    decreases |aux|
  {
    AuxAt(aux);
    assert |w| - i == 2 * |aux| + 2;
    assert w[i] == w[i..][0] && w[i + 1] == w[i..][1];
    if aux != [] {
      assert w[i + 2..] == AuxWords(aux)[2..] == AuxWords(aux[1..]);
      AuxFromIs(w, i + 2, aux[1..]);
    }
  }

  /** The startup code of the loaded program finds argument count, arguments, environment and auxiliary
      vector at the places it computes from the count alone. */
  lemma StartupReads(args: seq<Word>, env: seq<Word>, aux: seq<Aux>)
    requires |args| < WORD_LIMIT && WellFormed(env, aux)
    ensures var w := Layout(args, env, aux);
      var argc: int := w[0];
      && argc == |args| && w[1..1 + argc] == args && w[1 + argc] == 0
      && UpToNull(w, argc + 2) == env
      && AuxFrom(w, argc + 2 + |UpToNull(w, argc + 2)| + 1) == aux
  {
    var w := Layout(args, env, aux);
    LayoutAt(args, env, aux);
    assert |args| + 2 + |env| < |w| && w[|args| + 2..|args| + 2 + |env|] == env;
    UpToNullIs(w, |args| + 2, env);
    AuxFromIs(w, |args| + |env| + 3, aux);
  }
}
