/** The splitting loop of the sample C library: it ends a piece at every separator and at the last byte,
    whatever that byte is. */
module StringSplit {
  import opened Words
  import opened Strings

  const MAX_SPLIT_ENTRIES := 100

  /** The pieces with one more byte behind the last one. */
  function Extended(pieces: seq<Str>, last: Byte): (r: seq<Str>)
    requires pieces != []
    ensures |r| == |pieces|
  {
    pieces[..|pieces| - 1] + [pieces[|pieces| - 1] + [last]]
  }

  /** The reference: set the last byte aside, split at every separator before it, and put it back. */
  function PiecesFrom(s: Str, sep: Byte, start: nat): seq<Str>
    requires start <= |s|
  {
    if start == |s| then [] else Extended(SplitFrom(s[..|s| - 1], sep, start), s[|s| - 1])
  }

  function Pieces(s: Str, sep: Byte): seq<Str> {
    PiecesFrom(s, sep, 0)
  }

  lemma ExtendedStep(piece: Str, rest: seq<Str>, last: Byte)
    ensures rest != [] ==> Extended([piece] + rest, last) == [piece] + Extended(rest, last)
    ensures Extended([piece], last) == [piece + [last]]
  {
  }

  // A separator before the last byte ends a piece.
  lemma SeparatorAt(s: Str, sep: Byte, start: nat, i: nat)
    requires start <= i < |s| - 1 && s[i] == sep && sep !in s[start..i]
    ensures PiecesFrom(s, sep, start) == [s[start..i]] + PiecesFrom(s, sep, i + 1)
  {
    hide SplitFrom, Extended;
    var body := s[..|s| - 1];
    forall k | start <= k < i ensures body[k] != sep {
      assert body[k] == s[start..i][k - start];
    }
    SplitStep(body, sep, start, i);
    assert body[start..i] == s[start..i];
    ExtendedStep(s[start..i], SplitFrom(body, sep, i + 1), s[|s| - 1]);
  }

  // The last byte ends a piece that contains it.
  lemma LastByteAt(s: Str, sep: Byte, start: nat)
    requires start < |s| && sep !in s[start..|s| - 1]
    ensures PiecesFrom(s, sep, start) == [s[start..]]
  {
    hide SplitFrom, Extended;
    var body := s[..|s| - 1];
    forall k | start <= k < |body| ensures body[k] != sep {
      assert body[k] == s[start..|s| - 1][k - start];
    }
    SplitStep(body, sep, start, |body|);
    ExtendedStep(body[start..], [], s[|s| - 1]);
    assert body[start..] + [s[|s| - 1]] == s[start..];
  }

  /** `string_split`: it fails as soon as the hundredth piece is stored. */
  method StringSplit(s: Str, sep: Byte) returns (r: Option<seq<Str>>)
    ensures r == if |Pieces(s, sep)| < 100 then Some(Pieces(s, sep)) else None
  {
    hide PiecesFrom;
    var entries := new Str[MAX_SPLIT_ENTRIES](_ => []);
    var count, start := 0, 0;
    for i := 0 to |s|
      invariant start <= i && count < MAX_SPLIT_ENTRIES && sep !in s[start..i] && (i == |s| ==> start == i)
      invariant Pieces(s, sep) == entries[..count] + PiecesFrom(s, sep, start)
    {
      var isLast := i + 1 == |s|;
      if s[i] == sep || isLast {
        var length := if isLast then i - start + 1 else i - start;
        ghost var before := entries[..count];
        var piece := s[start..start + length];
        if isLast {
          assert s[start..i + 1] == s[start..];
          LastByteAt(s, sep, start);
          NoPieces(s, sep);
        } else {
          SeparatorAt(s, sep, start, i);
        }
        assert before + ([piece] + PiecesFrom(s, sep, i + 1)) == before + [piece] + PiecesFrom(s, sep, i + 1);
        entries[count] := piece;
        count := count + 1;
        assert entries[..count] == before + [piece];
        assert Pieces(s, sep) == entries[..count] + PiecesFrom(s, sep, i + 1);
        if count == MAX_SPLIT_ENTRIES {
          return None;
        }
        start := i + 1;
      } else {
        assert s[start..i + 1] == s[start..i] + [s[i]];
      }
    }
    NoPieces(s, sep);
    assert s[..|s|] == s && entries[..count] + [] == entries[..count];
    r := Some(entries[..count]);
  }

  lemma NoPieces(s: Str, sep: Byte)
    ensures PiecesFrom(s, sep, |s|) == []
  {
  }

  // ---------------------------------------------------------------- what a split is

  // Only the last piece may hold the separator, and only as its last byte.
  predicate SeparatorsOut(pieces: seq<Str>, sep: Byte) {
    && (forall k | 0 <= k < |pieces| - 1 :: sep !in pieces[k])
    && (pieces != [] ==>
          var last := pieces[|pieces| - 1]; last != [] && sep !in last[..|last| - 1])
  }

  lemma {:induction false} JoinedExtended(pieces: seq<Str>, last: Byte, sep: Byte)
    requires pieces != []
    ensures Joined(Extended(pieces, last), sep) == Joined(pieces, sep) + [last]
  {
    hide Joined, Extended;
    JoinedFirst(pieces, sep);
    JoinedFirst(Extended(pieces, last), sep);
    ExtendedStep(pieces[0], pieces[1..], last);
    if |pieces| == 1 {
      assert pieces == [pieces[0]];
      assert pieces[0] + [] == pieces[0] && pieces[0] + [last] + [] == pieces[0] + [last];
    } else {
      assert pieces == [pieces[0]] + pieces[1..];
      JoinedExtended(pieces[1..], last, sep);
      assert Extended(pieces, last)[1..] == Extended(pieces[1..], last);
      Regroup(pieces[0], [sep], Joined(pieces[1..], sep), [last]);
    }
  }

  /** Nothing is lost, and separators are left in no piece but, as its final byte, the last. */
  lemma SplitConserves(s: Str, sep: Byte)
    ensures Joined(Pieces(s, sep), sep) == s && SeparatorsOut(Pieces(s, sep), sep)
  {
    if s != [] {
      var body, last := s[..|s| - 1], s[|s| - 1];
      var inner := SplitFrom(body, sep, 0);
      JoinUndoesSplit(body, sep, 0);
      JoinedExtended(inner, last, sep);
      assert body[0..] + [last] == s;
      PiecesFree(body, sep, 0);
      var tail := inner[|inner| - 1];
      assert tail in inner && (tail + [last])[..|tail + [last]| - 1] == tail;
    }
  }

  /** A joined list comes back exactly when it has that shape: in particular its last piece is not empty. */
  lemma SplitOfJoin(pieces: seq<Str>, sep: Byte)
    ensures Pieces(Joined(pieces, sep), sep) == pieces <==> SeparatorsOut(pieces, sep)
  {
    SplitConserves(Joined(pieces, sep), sep);
    if pieces != [] && SeparatorsOut(pieces, sep) {
      var n := |pieces| - 1;
      var tail := pieces[n];
      var inner := pieces[..n] + [tail[..|tail| - 1]];
      var last := tail[|tail| - 1];
      assert tail[..|tail| - 1] + [last] == tail;
      assert Extended(inner, last) == pieces;
      JoinedExtended(inner, last, sep);
      SplitUndoesJoin(inner, sep);
      assert (Joined(inner, sep) + [last])[..|Joined(inner, sep)|] == Joined(inner, sep);
    }
  }
}
