/** The process address space: the mapped bytes, and runs of stores into them. */
module AddressSpace {
  import opened Words

  // The keys are the mapped addresses.
  type Memory = map<int, Byte>

  // One store: `data` goes to the addresses from `at` on.
  datatype Patch = Patch(at: int, data: seq<Byte>)

  predicate Covers(a: int, n: int, x: int) {
    a <= x < a + n
  }

  function WriteBytes(m: Memory, a: int, data: seq<Byte>): (r: Memory)
    ensures forall x :: x in r <==> x in m || a <= x < a + |data|
    ensures forall x :: x in r ==> r[x] == if a <= x < a + |data| then data[x - a] else m[x]
  {
    m + map x | a <= x < a + |data| && Covers(a, |data|, x) :: data[x - a]
  }

  function Zeros(n: nat): (r: seq<Byte>)
    ensures |r| == n && forall i :: 0 <= i < n ==> r[i] == 0
  {
    seq(n, _ => 0)
  }

  ghost predicate Holds(m: Memory, a: int, data: seq<Byte>) {
    forall x :: a <= x < a + |data| ==> x in m && m[x] == data[x - a]
  }

  /** A byte as read by the loader; a read of an unmapped address has no meaning. */
  function ByteAt(m: Memory, a: int): Byte {
    if a in m then m[a] else 0
  }

  function LoadBytes(m: Memory, a: int, n: nat): (r: seq<Byte>)
    ensures |r| == n
    ensures forall i :: 0 <= i < n ==> r[i] == ByteAt(m, a + i)
  {
    seq<Byte>(n, i requires 0 <= i < n => ByteAt(m, a + i))
  }

  function LoadWord(m: Memory, a: int): Word {
    LeValueBound(LoadBytes(m, a, 8));
    WordFits();
    LeValue(LoadBytes(m, a, 8))
  }

  lemma HoldsWord(m: Memory, a: int, w: Word)
    requires Holds(m, a, LeBytes(w, 8))
    ensures LoadWord(m, a) == w
  {
    assert LoadBytes(m, a, 8) == LeBytes(w, 8);
    WordFits();
    LeRoundTrip(w, 8);
  }

  /** Two address ranges without a common address. */
  predicate Apart(a: int, n: int, b: int, k: int) {
    a + n <= b || b + k <= a
  }

  predicate RangeFree(m: Memory, a: int, n: nat) {
    forall x | a <= x < a + n :: x !in m
  }

  function Apply(m: Memory, ps: seq<Patch>): Memory {
    if ps == [] then m
    else WriteBytes(Apply(m, ps[..|ps| - 1]), ps[|ps| - 1].at, ps[|ps| - 1].data)
  }

  ghost predicate Misses(p: Patch, a: int, n: int) {
    Apart(p.at, |p.data|, a, n)
  }

  /** Stores elsewhere leave a range alone. */
  lemma {:induction false} ApplyKeeps(m: Memory, ps: seq<Patch>, a: int, data: seq<Byte>)
    requires Holds(m, a, data)
    requires forall p :: p in ps ==> Misses(p, a, |data|)
    ensures Holds(Apply(m, ps), a, data)
  {
    if ps != [] {
      var last := ps[|ps| - 1];
      ApplyKeeps(m, ps[..|ps| - 1], a, data);
      assert Misses(last, a, |data|);
    }
  }

  /** A store is still visible at the end when no later store touches its range. */
  lemma {:induction false} ApplyHolds(m: Memory, ps: seq<Patch>, i: nat)
    requires i < |ps|
    requires forall j :: i < j < |ps| ==> Misses(ps[j], ps[i].at, |ps[i].data|)
    ensures Holds(Apply(m, ps), ps[i].at, ps[i].data)
  {
    if i < |ps| - 1 {
      assert Misses(ps[|ps| - 1], ps[i].at, |ps[i].data|);
      ApplyHolds(m, ps[..|ps| - 1], i);
    }
  }

  /** An address no store covers keeps its byte; nothing that was mapped is lost. */
  lemma {:induction false} ApplyFrame(m: Memory, ps: seq<Patch>, x: int)
    requires forall p :: p in ps ==> Misses(p, x, 1)
    ensures x in Apply(m, ps) <==> x in m
    ensures x in m ==> Apply(m, ps)[x] == m[x]
  {
    if ps != [] {
      ApplyFrame(m, ps[..|ps| - 1], x);
      assert Misses(ps[|ps| - 1], x, 1);
    }
  }

  lemma {:induction false} ApplyMapped(m: Memory, ps: seq<Patch>, x: int)
    requires x in m
    ensures x in Apply(m, ps)
  {
    if ps != [] {
      ApplyMapped(m, ps[..|ps| - 1], x);
    }
  }

  lemma {:induction false} ApplyConcat(m: Memory, ps: seq<Patch>, qs: seq<Patch>)
    ensures Apply(m, ps + qs) == Apply(Apply(m, ps), qs)
  {
    if qs == [] {
      assert ps + qs == ps;
    } else {
      ApplyConcat(m, ps, qs[..|qs| - 1]);
      assert (ps + qs)[..|ps + qs| - 1] == ps + qs[..|qs| - 1];
    }
  }

  lemma OnePatch(m: Memory, p: Patch)
    ensures Apply(m, [p]) == WriteBytes(m, p.at, p.data)
  {
    assert [p][..0] == [];
  }

  lemma TwoPatches(m: Memory, p: Patch, q: Patch)
    ensures Apply(m, [p, q]) == WriteBytes(WriteBytes(m, p.at, p.data), q.at, q.data)
  {
    OnePatch(m, p);
    assert [p, q][..1] == [p];
  }
}
