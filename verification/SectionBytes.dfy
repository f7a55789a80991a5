/** Reading numbers and strings from the bytes of a file section. */
module SectionBytes {
  import opened Words

  // A read outside the section has no meaning; 0 stands for what is read there.
  function FileByte(buf: seq<Byte>, o: int): Byte {
    if 0 <= o < |buf| then buf[o] else 0
  }

  /** The bytes from `o` to `end`, least significant first. */
  function LeBetween(buf: seq<Byte>, o: int, end: int): nat
    decreases end - o
  {
    if o >= end then 0 else FileByte(buf, o) + 0x100 * LeBetween(buf, o + 1, end)
  }

  lemma {:induction false} LeBound(buf: seq<Byte>, o: int, n: nat)
    ensures LeBetween(buf, o, o + n) < Pow(0x100, n)
    decreases n
  {
    if n > 0 {
      LeBound(buf, o + 1, n - 1);
    }
  }

  function WordAt(buf: seq<Byte>, o: int): Word {
    LeBound(buf, o, 8);
    WordFits();
    LeBetween(buf, o, o + 8)
  }

  function DwordAt(buf: seq<Byte>, o: int): nat {
    LeBetween(buf, o, o + 4)
  }

  /** The little-endian decoding of the bytes themselves. */
  lemma {:induction false} LeIsValue(buf: seq<Byte>, o: nat, n: nat)
    requires o + n <= |buf|
    ensures LeBetween(buf, o, o + n) == LeValue(buf[o..o + n])
    decreases n
  {
    if n > 0 {
      LeIsValue(buf, o + 1, n - 1);
      assert buf[o..o + n][1..] == buf[o + 1..o + 1 + (n - 1)];
    }
  }

  predicate IsEmpty(buf: seq<Byte>, o: int, end: int)
    decreases end - o
  {
    o >= end || (FileByte(buf, o) == 0 && IsEmpty(buf, o + 1, end))
  }

  method MemIsEmpty(buf: seq<Byte>, o: int, n: nat) returns (r: bool)
    ensures r == IsEmpty(buf, o, o + n)
  {
    for i := 0 to n
      invariant IsEmpty(buf, o, o + n) == IsEmpty(buf, o + i, o + n)
    {
      if FileByte(buf, o + i) != 0 {
        return false;
      }
    }
    return true;
  }

  /** The characters up to the next null byte. */
  function StringFrom(buf: seq<Byte>, o: int): string
    decreases |buf| - o
  {
    if FileByte(buf, o) == 0 then [] else [FileByte(buf, o) as char] + StringFrom(buf, o + 1)
  }

  /** Bytes that are the encoding of a number decode to it. */
  lemma DecodesTo(buf: seq<Byte>, o: nat, x: nat, n: nat)
    requires o + n <= |buf| && buf[o..o + n] == LeBytes(x, n) && x < Pow(0x100, n)
    ensures LeBetween(buf, o, o + n) == x
  {
    LeIsValue(buf, o, n);
    LeRoundTrip(x, n);
  }

  lemma SliceOfSlice(buf: seq<Byte>, o: nat, n: nat, i: nat, k: nat)
    requires o + n <= |buf| && i <= k <= n
    ensures buf[o..o + n][i..k] == buf[o + i..o + k]
  {
    var a, b := buf[o..o + n][i..k], buf[o + i..o + k];
    forall j | 0 <= j < |a| ensures a[j] == b[j] {
      assert a[j] == buf[o..o + n][i + j] == buf[o + (i + j)];
    }
  }

  // ---------------------------------------------------------------- encoded data

  /** The bytes lie in the section from `o` on. */
  predicate BytesAt(buf: seq<Byte>, o: int, data: seq<Byte>) {
    0 <= o && o + |data| <= |buf| && buf[o..o + |data|] == data
  }

  lemma BytesSplit(buf: seq<Byte>, o: int, a: seq<Byte>, b: seq<Byte>)
    requires BytesAt(buf, o, a + b)
    ensures BytesAt(buf, o, a) && BytesAt(buf, o + |a|, b)
  {
    SliceOfSlice(buf, o, |a + b|, 0, |a|);
    SliceOfSlice(buf, o, |a + b|, |a|, |a + b|);
    assert (a + b)[0..|a|] == a && (a + b)[|a|..|a + b|] == b;
  }

  /** A word is read from its eight bytes, a double word from its four, least significant first. */
  lemma WordRead(buf: seq<Byte>, o: int, w: Word)
    requires BytesAt(buf, o, LeBytes(w, 8))
    ensures WordAt(buf, o) == w
  {
    WordFits();
    DecodesTo(buf, o, w, 8);
  }

  lemma DwordRead(buf: seq<Byte>, o: int, d: Dword)
    requires BytesAt(buf, o, LeBytes(d, 4))
    ensures DwordAt(buf, o) == d
  {
    WordFits();
    DecodesTo(buf, o, d, 4);
  }

  // Characters of one nonzero byte.
  predicate IsName(s: string) {
    forall i | 0 <= i < |s| :: 0 < s[i] as int < 0x100
  }

  function NameBytes(s: string): (r: seq<Byte>)
    requires IsName(s)
    ensures |r| == |s| && forall i :: 0 <= i < |s| ==> r[i] == s[i] as int
  {
    seq<Byte>(|s|, i requires 0 <= i < |s| => s[i] as int)
  }

  /** A null-terminated string is read back. */
  lemma {:induction false} NameRead(buf: seq<Byte>, o: int, s: string)
    requires IsName(s) && BytesAt(buf, o, NameBytes(s) + [0])
    ensures StringFrom(buf, o) == s
    decreases |s|
  {
    var data := NameBytes(s) + [0];
    assert buf[o] == data[0] == buf[o..o + |data|][0];
    if s != [] {
      assert IsName(s[1..]);
      assert data == [s[0] as int] + (NameBytes(s[1..]) + [0]);
      BytesSplit(buf, o, [s[0] as int], NameBytes(s[1..]) + [0]);
      NameRead(buf, o + 1, s[1..]);
    }
  }

  lemma {:induction false} ZerosAreEmpty(buf: seq<Byte>, o: int, n: nat)
    requires BytesAt(buf, o, seq(n, _ => 0))
    ensures IsEmpty(buf, o, o + n)
    decreases n
  {
    if n > 0 {
      var zeros := seq(n, _ => 0);
      assert buf[o] == buf[o..o + n][0] == zeros[0];
      assert zeros == [0] + seq(n - 1, _ => 0);
      BytesSplit(buf, o, [0], seq(n - 1, _ => 0));
      ZerosAreEmpty(buf, o + 1, n - 1);
    }
  }

  lemma {:induction false} NotEmpty(buf: seq<Byte>, o: int, n: nat, i: nat)
    requires 0 <= o && o + n <= |buf| && i < n && buf[o + i] != 0
    ensures !IsEmpty(buf, o, o + n)
    decreases i
  {
    if i > 0 {
      NotEmpty(buf, o + 1, n - 1, i - 1);
    }
  }
}
