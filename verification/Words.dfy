/** 64-bit words, bytes, and the little-endian encoding that both loaders rely on
    when they reinterpret a `size_t` as bytes. */
module Words {

  datatype Option<+T> = None | Some(value: T)

  const WORD_LIMIT := 0x1_0000_0000_0000_0000
  const UINT32_LIMIT := 0x1_0000_0000
  const PAGE_SIZE := 0x1000
  const ADDRESS_LIMIT := 0x1_0000_0000_0000       // the end of user space

  type Word = x: int | 0 <= x < 0x1_0000_0000_0000_0000
  type Dword = x: int | 0 <= x < 0x1_0000_0000
  type Byte = x: int | 0 <= x < 0x100

  /** `size_t` arithmetic: reduction modulo 2^64, also for a negative difference. */
  function Wrap(x: int): Word {
    x % WORD_LIMIT
  }

  lemma WrapCancels(a: int, b: int)
    ensures Wrap(Wrap(a) - b) == Wrap(a - b)
    ensures Wrap(a - Wrap(b)) == Wrap(a - b)
  {
    assert a == a / WORD_LIMIT * WORD_LIMIT + Wrap(a);
    assert b == b / WORD_LIMIT * WORD_LIMIT + Wrap(b);
    WrapShift(Wrap(a) - b, a / WORD_LIMIT);
    WrapShift(a - Wrap(b), -(b / WORD_LIMIT));
  }

  lemma WrapShift(x: int, k: int)
    ensures Wrap(x + k * WORD_LIMIT) == Wrap(x)
  {
    var q, q' := x / WORD_LIMIT, (x + k * WORD_LIMIT) / WORD_LIMIT;
    var d := q' - q - k;
    assert d * WORD_LIMIT == Wrap(x) - Wrap(x + k * WORD_LIMIT);
    assert -WORD_LIMIT < d * WORD_LIMIT < WORD_LIMIT;
  }

  function Pow(b: nat, n: nat): nat {
    if n == 0 then 1 else b * Pow(b, n - 1)
  }

  /** The low `n` bytes of `x`, least significant first. */
  function LeBytes(x: nat, n: nat): (bs: seq<Byte>)
    ensures |bs| == n
  {
    if n == 0 then [] else [x % 0x100] + LeBytes(x / 0x100, n - 1)
  }

  function LeValue(bs: seq<Byte>): nat {
    if bs == [] then 0 else bs[0] + 0x100 * LeValue(bs[1..])
  }

  lemma {:induction false} LeRoundTrip(x: nat, n: nat)
    requires x < Pow(0x100, n)
    ensures LeValue(LeBytes(x, n)) == x
  {
    if n > 0 {
      LeRoundTrip(x / 0x100, n - 1);
      assert LeBytes(x, n)[1..] == LeBytes(x / 0x100, n - 1);
    }
  }

  lemma {:induction false} LePrefix(x: nat, n: nat, k: nat)
    requires k <= n
    ensures LeBytes(x, n)[..k] == LeBytes(x, k)
  {
    if k > 0 {
      LePrefix(x / 0x100, n - 1, k - 1);
    }
  }

  lemma {:induction false} LeValueBound(bs: seq<Byte>)
    ensures LeValue(bs) < Pow(0x100, |bs|)
  {
    if bs != [] {
      LeValueBound(bs[1..]);
    }
  }

  lemma WordFits()
    ensures Pow(0x100, 8) == WORD_LIMIT
    ensures Pow(0x100, 4) == UINT32_LIMIT
    ensures Pow(0x100, 2) == 0x1_0000
  {
    assert Pow(0x100, 2) == 0x1_0000;
    assert Pow(0x100, 3) == 0x100_0000;
    assert Pow(0x100, 4) == UINT32_LIMIT;
    assert Pow(0x100, 5) == 0x100 * UINT32_LIMIT;
    assert Pow(0x100, 6) == 0x1_0000 * UINT32_LIMIT;
    assert Pow(0x100, 7) == 0x100_0000 * UINT32_LIMIT;
  }
}
