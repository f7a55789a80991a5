/** Byte strings, lists of them joined by a separator, and strings split at one. */
module Strings {
  import opened Words

  // Without the terminating null.
  type Str = seq<Byte>

  // ---------------------------------------------------------------- joining

  function Joined(args: seq<Str>, sep: Byte): Str {
    if args == [] then []
    else if |args| == 1 then args[0]
    else args[0] + [sep] + Joined(args[1..], sep)
  }

  predicate FreeOf(args: seq<Str>, sep: Byte) {
    forall a | a in args :: sep !in a
  }

  lemma JoinedFirst(args: seq<Str>, sep: Byte)
    requires args != []
    ensures Joined(args, sep) == args[0] + (if |args| == 1 then [] else [sep] + Joined(args[1..], sep))
  {
  }

  lemma Regroup(a: Str, b: Str, c: Str, d: Str)
    ensures a + (b + (c + d)) == a + b + (c + d) == a + b + c + d
  {
  }

  lemma {:induction false} JoinedAppend(args: seq<Str>, i: nat, sep: Byte)
    requires i < |args|
    ensures Joined(args[..i + 1], sep) == (if i == 0 then [] else Joined(args[..i], sep) + [sep]) + args[i]
  {
    if i > 0 {
      JoinedAppend(args[1..], i - 1, sep);
      assert args[..i + 1][1..] == args[1..][..i] && args[..i][1..] == args[1..][..i - 1];
    }
  }

  lemma {:induction false} JoinedGrows(args: seq<Str>, i: nat, sep: Byte)
    requires i <= |args|
    ensures |Joined(args[..i], sep)| + (if 0 < i < |args| then 1 else 0) <= |Joined(args, sep)|
    decreases |args| - i
  {
    if i < |args| {
      JoinedAppend(args, i, sep);
      JoinedGrows(args, i + 1, sep);
    } else {
      assert args[..i] == args;
    }
  }

  // ---------------------------------------------------------------- splitting

  /** The first position from `from` on that holds the byte, or the end of the string. */
  function IndexFrom(s: Str, c: Byte, from: nat): (i: nat)
    requires from <= |s|
    ensures from <= i <= |s| && (i < |s| ==> s[i] == c) && forall k :: from <= k < i ==> s[k] != c
    decreases |s| - from
  {
    if from == |s| || s[from] == c then from else IndexFrom(s, c, from + 1)
  }

  /** The pieces between single separators from a position on; never an empty list. */
  function SplitFrom(s: Str, sep: Byte, from: nat): (r: seq<Str>)
    requires from <= |s|
    ensures r != []
    decreases |s| - from
  {
    var i := IndexFrom(s, sep, from);
    if i == |s| then [s[from..]] else [s[from..i]] + SplitFrom(s, sep, i + 1)
  }

  lemma SplitStep(s: Str, sep: Byte, from: nat, i: nat)
    requires from <= |s| && i == IndexFrom(s, sep, from)
    ensures SplitFrom(s, sep, from) == if i == |s| then [s[from..]] else [s[from..i]] + SplitFrom(s, sep, i + 1)
  {
  }

  lemma {:induction false} PiecesFree(s: Str, sep: Byte, from: nat)
    requires from <= |s|
    ensures FreeOf(SplitFrom(s, sep, from), sep)
    decreases |s| - from
  {
    var i := IndexFrom(s, sep, from);
    if i < |s| {
      PiecesFree(s, sep, i + 1);
    }
  }

  // ---------------------------------------------------------------- each undoes the other

  lemma FirstPiece(before: Str, piece: Str, after: Str, sep: Byte)
    requires sep !in piece && (after == [] || after[0] == sep)
    ensures IndexFrom(before + piece + after, sep, |before|) == |before| + |piece|
    ensures (before + piece + after)[|before|..|before| + |piece|] == piece
  {
    var s, end := before + piece + after, |before| + |piece|;
    assert forall k :: |before| <= k < end ==> s[k] == piece[k - |before|];
    assert end < |s| ==> s[end] == after[0];
  }

  lemma LastPieceSplit(before: Str, piece: Str, sep: Byte)
    requires sep !in piece
    ensures SplitFrom(before + piece, sep, |before|) == [piece]
  {
    hide SplitFrom, IndexFrom;
    FirstPiece(before, piece, [], sep);
    assert before + piece + [] == before + piece;
    SplitStep(before + piece, sep, |before|, |before + piece|);
  }

  lemma PieceSplit(before: Str, piece: Str, rest: Str, sep: Byte)
    requires sep !in piece
    ensures SplitFrom(before + piece + [sep] + rest, sep, |before|)
         == [piece] + SplitFrom(before + piece + [sep] + rest, sep, |before + piece + [sep]|)
  {
    hide SplitFrom, IndexFrom;
    FirstPiece(before, piece, [sep] + rest, sep);
    var s := before + piece + [sep] + rest;
    assert before + piece + ([sep] + rest) == s;
    SplitStep(s, sep, |before|, |before + piece|);
  }

  lemma {:induction false} SplitOfJoined(before: Str, args: seq<Str>, sep: Byte)
    requires args != [] && FreeOf(args, sep)
    ensures SplitFrom(before + Joined(args, sep), sep, |before|) == args
    decreases |args|
  {
    hide SplitFrom, IndexFrom, Joined;
    assert args[0] in args && forall a :: a in args[1..] ==> a in args;
    JoinedFirst(args, sep);
    if |args| == 1 {
      assert args[0] + [] == args[0];
      LastPieceSplit(before, args[0], sep);
      assert args == [args[0]];
    } else {
      var rest := Joined(args[1..], sep);
      Regroup(before, args[0], [sep], rest);
      PieceSplit(before, args[0], rest, sep);
      SplitOfJoined(before + args[0] + [sep], args[1..], sep);
      assert args == [args[0]] + args[1..];
    }
  }

  /** Splitting undoes joining exactly when no piece contains the separator; empty pieces are kept. */
  lemma SplitUndoesJoin(args: seq<Str>, sep: Byte)
    requires args != []
    ensures SplitFrom(Joined(args, sep), sep, 0) == args <==> FreeOf(args, sep)
  {
    PiecesFree(Joined(args, sep), sep, 0);
    if FreeOf(args, sep) {
      SplitOfJoined([], args, sep);
      assert [] + Joined(args, sep) == Joined(args, sep);
    }
  }

  /** Joining undoes splitting, always. */
  lemma {:induction false} JoinUndoesSplit(s: Str, sep: Byte, from: nat)
    requires from <= |s|
    ensures Joined(SplitFrom(s, sep, from), sep) == s[from..]
    decreases |s| - from
  {
    hide SplitFrom, Joined, IndexFrom;
    var i := IndexFrom(s, sep, from);
    SplitStep(s, sep, from, i);
    JoinedFirst(SplitFrom(s, sep, from), sep);
    if i < |s| {
      JoinUndoesSplit(s, sep, i + 1);
      assert SplitFrom(s, sep, from)[1..] == SplitFrom(s, sep, i + 1);
      assert s[from..] == s[from..i] + ([sep] + s[i + 1..]);
    }
  }
}
