/** The command line of a Windows program: joined and widened by the loader, narrowed and split
    again by the C runtime. Characters are bytes; the strings are without their terminating null. */
module CommandLine {
  import opened Strings
  import opened Words

  const SPACE: Byte := 0x20
  const MAX_COMMAND_LINE := 0x100
  const MAX_ARGUMENTS := 100

  type Wchar = x: int | 0 <= x < 0x1_0000

  // ---------------------------------------------------------------- joining and widening

  /** `(WCHAR)c` for a signed `char`. */
  function Widen(c: Byte): Wchar {
    if c < 0x80 then c else 0xff00 + c
  }

  function Signed8(c: Byte): int {
    if c < 0x80 then c else c - 0x100
  }

  function Signed16(w: Wchar): int {
    if w < 0x8000 then w else w - 0x1_0000
  }

  /** The widened character is the one with the same signed value. */
  lemma WidensValue(c: Byte, w: Wchar)
    ensures w == Widen(c) <==> Signed16(w) == Signed8(c)
  {
  }

  /** `(char)w`. */
  function Narrow(w: Wchar): Byte {
    w % 0x100
  }

  function WidenAll(s: Str): (r: seq<Wchar>)
    ensures |r| == |s| && forall i :: 0 <= i < |s| ==> r[i] == Widen(s[i])
  {
    seq<Wchar>(|s|, i requires 0 <= i < |s| => Widen(s[i]))
  }

  function NarrowAll(s: seq<Wchar>): (r: Str)
    ensures |r| == |s| && forall i :: 0 <= i < |s| ==> r[i] == Narrow(s[i])
  {
    seq<Byte>(|s|, i requires 0 <= i < |s| => Narrow(s[i]))
  }

  lemma NarrowWiden(s: Str)
    ensures NarrowAll(WidenAll(s)) == s
    ensures 0 !in s ==> 0 !in WidenAll(s)
  {
    assert forall i :: 0 <= i < |s| ==> Narrow(Widen(s[i])) == s[i];
  }

  // The first `n` cells of the line hold `s`; the others are as they were.
  predicate LineHolds(now: seq<Wchar>, was: seq<Wchar>, s: Str) {
    |s| <= |now| == |was| && now[..|s|] == WidenAll(s) && now[|s|..] == was[|s|..]
  }

  lemma LineGrows(now: seq<Wchar>, was: seq<Wchar>, s: Str, c: Byte)
    requires LineHolds(now, was, s) && |s| < |now|
    ensures LineHolds(now[|s| := Widen(c)], was, s + [c])
  {
    var next := now[|s| := Widen(c)];
    assert WidenAll(s + [c]) == WidenAll(s) + [Widen(c)];
    assert next[..|s| + 1] == now[..|s|] + [Widen(c)];
    assert next[|s| + 1..] == now[|s|..][1..] == was[|s|..][1..];
  }

  method AppendWidened(cmd: array<Wchar>, from: nat, arg: Str, ghost line: Str, ghost was: seq<Wchar>) returns (n: nat)
    requires from == |line| && LineHolds(cmd[..], was, line) && |line| + |arg| <= cmd.Length
    modifies cmd
    ensures n == |line| + |arg| && LineHolds(cmd[..], was, line + arg)
  {
    n := from;
    assert line + arg[..0] == line;
    for j := 0 to |arg|
      invariant n == |line| + j && LineHolds(cmd[..], was, line + arg[..j])
    {
      LineGrows(cmd[..], was, line + arg[..j], arg[j]);
      assert line + arg[..j + 1] == line + arg[..j] + [arg[j]];
      cmd[n] := Widen(arg[j]);
      n := n + 1;
    }
    assert arg[..|arg|] == arg;
  }

  /** The loop of `main` that fills the command line. The buffer is arena memory, zero from its first
      use; a line that is too long is noticed only after it has been written, into the memory behind. */
  method JoinCommandLine(args: seq<Str>, cmd: array<Wchar>) returns (len: Option<nat>)
    requires MAX_COMMAND_LINE <= cmd.Length && |Joined(args, SPACE)| <= cmd.Length
    modifies cmd
    ensures len == if |Joined(args, SPACE)| < MAX_COMMAND_LINE then Some(|Joined(args, SPACE)|) else None
    ensures LineHolds(cmd[..], old(cmd[..]), Joined(args, SPACE))
  {
    var n := 0;
    ghost var line: Str := [];
    for i := 0 to |args|
      invariant line == Joined(args[..i], SPACE) + (if 0 < i < |args| then [SPACE] else [])
      invariant n == |line| && LineHolds(cmd[..], old(cmd[..]), line)
    {
      JoinedAppend(args, i, SPACE);
      JoinedGrows(args, i + 1, SPACE);
      n := AppendWidened(cmd, n, args[i], line, old(cmd[..]));
      line := line + args[i];
      if i + 1 != |args| {
        LineGrows(cmd[..], old(cmd[..]), line, SPACE);
        cmd[n] := SPACE;
        n := n + 1;
        line := line + [SPACE];
      }
    }
    assert args[..|args|] == args;
    if n >= MAX_COMMAND_LINE {
      return None;
    }
    return Some(n);
  }

  // ---------------------------------------------------------------- narrowing and splitting

  method WcsLen(data: array<Wchar>, ghost n: nat) returns (length: nat)
    requires n < data.Length && data[n] == 0 && forall k :: 0 <= k < n ==> data[k] != 0
    ensures length == n
  {
    length := 0;
    while data[length] != 0
      invariant length <= n
      decreases n - length
    {
      length := length + 1;
    }
  }

  method ToCharPointer(data: array<Wchar>, ghost n: nat) returns (s: Str)
    requires n < data.Length && data[n] == 0 && forall k :: 0 <= k < n ==> data[k] != 0
    ensures s == NarrowAll(data[..n])
  {
    var length := WcsLen(data, n);
    s := [];
    for i := 0 to length
      invariant s == NarrowAll(data[..n])[..i]
    {
      s := s + [Narrow(data[i])];
    }
  }

  method StrChrNul(s: Str, c: Byte, from: nat) returns (i: nat)
    requires from <= |s|
    ensures i == IndexFrom(s, c, from)
  {
    i := from;
    while i < |s| && s[i] != c
      invariant from <= i <= |s| && IndexFrom(s, c, from) == IndexFrom(s, c, i)
    {
      i := i + 1;
    }
  }

  function Split(s: Str): seq<Str> {
    SplitFrom(s, SPACE, 0)
  }

  /** The loop of `__getmainargs`; its array holds 100 arguments. */
  method GetMainArgs(s: Str) returns (r: Option<seq<Str>>)
    ensures r == if |Split(s)| <= MAX_ARGUMENTS then Some(Split(s)) else None
  {
    hide SplitFrom, IndexFrom;
    var args: seq<Str> := [];
    var cursor := 0;
    while true
      invariant cursor <= |s| && |args| <= MAX_ARGUMENTS
      invariant SplitFrom(s, SPACE, 0) == args + SplitFrom(s, SPACE, cursor)
      decreases |s| - cursor
    {
      if |args| == MAX_ARGUMENTS {
        return None;
      }
      var start := cursor;
      cursor := StrChrNul(s, SPACE, cursor);
      SplitStep(s, SPACE, start, cursor);
      ghost var rest := if cursor == |s| then [] else SplitFrom(s, SPACE, cursor + 1);
      assert args + ([s[start..cursor]] + rest) == args + [s[start..cursor]] + rest;
      args := args + [s[start..cursor]];
      if cursor == |s| {
        assert s[start..cursor] == s[start..];
        assert args == SplitFrom(s, SPACE, 0);
        break;
      }
      cursor := cursor + 1;
    }
    return Some(args);
  }

  // ---------------------------------------------------------------- the round trip

  /** From the loader's arguments to the program's: through one buffer, both conversions and both
      loops. Exactly the space-free lists of at most 100 arguments that fit the line arrive unchanged. */
  method PassArguments(args: seq<Str>, cmd: array<Wchar>) returns (r: Option<seq<Str>>)
    requires args != [] && forall a :: a in args ==> 0 !in a
    requires MAX_COMMAND_LINE <= cmd.Length && |Joined(args, SPACE)| <= cmd.Length
    requires forall i :: 0 <= i < cmd.Length ==> cmd[i] == 0
    modifies cmd
    ensures r == Some(args) <==> |Joined(args, 0x20)| < 0x100 && |args| <= 100 && FreeOf(args, 0x20)
  {
    ghost var line := Joined(args, SPACE);
    ghost var before := cmd[..];
    SplitUndoesJoin(args, SPACE);
    var len := JoinCommandLine(args, cmd);
    if len == None {
      return None;
    }
    NoNull(args);
    NarrowWiden(line);
    assert cmd[|line|] == cmd[..][|line|..][0] == before[|line|..][0] == 0;
    assert cmd[..|line|] == cmd[..][..|line|] == WidenAll(line);
    forall k | 0 <= k < |line| ensures cmd[k] != 0 {
      assert cmd[k] == WidenAll(line)[k];
    }
    var s := ToCharPointer(cmd, |line|);
    assert s == line;
    r := GetMainArgs(s);
  }

  lemma {:induction false} NoNull(args: seq<Str>)
    requires forall a :: a in args ==> 0 !in a
    ensures 0 !in Joined(args, SPACE)
  {
    if |args| > 1 {
      assert args[0] in args && forall a :: a in args[1..] ==> a in args;
      NoNull(args[1..]);
    } else if |args| == 1 {
      assert args[0] in args;
    }
  }
}
