/** The loader's arena allocator and the doubling lists on top of it. Elements are raw bytes, and every list
    lives in the one byte memory of the arena. */
module ArenaLists {
  import opened AddressSpace
  import opened Arithmetic
  import opened Words

  const LOADER_BUFFER_LEN := 0x21_0000
  const ALIGNMENT := 8
  const MIN_CAPACITY := 16
  const MAX_ELEMENT_SIZE := 0x1000

  // ---------------------------------------------------------------- allocation sizes

  function RoundUp(n: nat): nat {
    if n % ALIGNMENT == 0 then n else n + ALIGNMENT - n % ALIGNMENT
  }

  /** The heap index after an allocation, in `size_t` arithmetic. */
  function IndexAfter(index: Word, n: Word): Word {
    Wrap(index + Wrap(RoundUp(n)))
  }

  predicate Granted(index: Word, n: Word) {
    IndexAfter(index, n) <= LOADER_BUFFER_LEN
  }

  /** The bound check means what it says exactly as long as the sums do not wrap around. */
  lemma GrantedIsRoom(index: Word, n: Word)
    requires index <= LOADER_BUFFER_LEN && index % ALIGNMENT == 0
    ensures (Granted(index, n) <==> index + n <= 0x21_0000) <==> index + RoundUp(n) < WORD_LIMIT
  {
    if index + RoundUp(n) < WORD_LIMIT {
      RoundedIndex(index, n);
    } else {
      RoundedNear(n);
      hide RoundUp, Wrap;
      WrapOnce(RoundUp(n));
      WrapOnce(index + Wrap(RoundUp(n)));
    }
  }

  /** A request that reaches 2^64 from the index on is granted, and moves the index back, except for the last seven
      sizes, which leave it where it is. */
  lemma WrapMovesBack(index: Word, n: Word)
    requires index <= LOADER_BUFFER_LEN && index % ALIGNMENT == 0 && index + RoundUp(n) >= WORD_LIMIT
    ensures Granted(index, n) && IndexAfter(index, n) <= index
    ensures IndexAfter(index, n) == index <==> n > WORD_LIMIT - ALIGNMENT
  {
    RoundedNear(n);
    WrapOnce(RoundUp(n));
    WrapOnce(index + Wrap(RoundUp(n)));
    hide Wrap;
    assert RoundUp(n) == WORD_LIMIT <==> n > WORD_LIMIT - ALIGNMENT;
  }

  /** After 0x20000 bytes, such a request takes the index back to 0x10000; the next 8 bytes then lie inside the
      first block. */
  lemma BlocksOverlap()
    ensures IndexAfter(0, 0x2_0000) == 0x2_0000
    ensures Granted(0x2_0000, WORD_LIMIT - 0x1_0000) && IndexAfter(0x2_0000, WORD_LIMIT - 0x1_0000) == 0x1_0000
    ensures Granted(0x1_0000, 8) && !Apart(0, 0x2_0000, 0x1_0000, 8)
  {
  }

  lemma RoundedNear(n: Word)
    ensures n <= RoundUp(n) < n + ALIGNMENT && RoundUp(n) <= WORD_LIMIT
  {
  }

  lemma WrapOnce(x: nat)
    requires x < 2 * WORD_LIMIT
    ensures Wrap(x) == if x < WORD_LIMIT then x else x - WORD_LIMIT
  {
  }

  lemma RoundedIndex(index: Word, n: Word)
    requires index % ALIGNMENT == 0 && index + RoundUp(n) < WORD_LIMIT
    ensures IndexAfter(index, n) == index + RoundUp(n) && n <= RoundUp(n)
    ensures (index + RoundUp(n)) % ALIGNMENT == 0
    ensures index + RoundUp(n) <= LOADER_BUFFER_LEN <==> index + n <= LOADER_BUFFER_LEN
  {
  }

  // ---------------------------------------------------------------- blocks and lists

  datatype Block = Block(start: nat, len: nat)

  /** A list of elements of `size` bytes; `data` is 0 for the null pointer. */
  datatype List = List(size: nat, data: nat, length: nat, capacity: nat)

  /** The slots a list has asked for and the slots it has copied, over its whole life. */
  datatype Cost = Cost(requested: nat, copied: nat)

  predicate BlockIn(b: Block, base: nat, index: nat) {
    b.start % ALIGNMENT == 0 && base <= b.start && b.start + b.len <= base + index
  }

  // Aligned, in bounds, and in order without overlaps.
  predicate BlocksOk(blocks: seq<Block>, base: nat, index: nat) {
    && (forall i | 0 <= i < |blocks| :: BlockIn(blocks[i], base, index))
    && (forall i, j | 0 <= i < j < |blocks| :: blocks[i].start + blocks[i].len <= blocks[j].start)
  }

  lemma OneMoreBlock(blocks: seq<Block>, base: nat, index: nat, len: nat, next: nat)
    requires BlocksOk(blocks, base, index) && base % ALIGNMENT == 0 == index % ALIGNMENT && index + len <= next
    ensures BlocksOk(blocks + [Block(base + index, len)], base, next)
  {
  }

  lemma BlocksApart(blocks: seq<Block>, base: nat, index: nat, a: Block, b: Block)
    requires BlocksOk(blocks, base, index) && a in blocks && b in blocks && a.start != b.start
    ensures Apart(a.start, a.len, b.start, b.len)
  {
    var i :| 0 <= i < |blocks| && blocks[i] == a;
    var j :| 0 <= j < |blocks| && blocks[j] == b;
  }

  ghost predicate Mapped(m: Memory, base: nat) {
    forall x :: base <= x < base + LOADER_BUFFER_LEN ==> x in m
  }

  // A list holds the appended bytes, in a block of its own capacity.
  ghost predicate ListOk(m: Memory, blocks: seq<Block>, l: List, content: seq<Byte>) {
    && 0 < l.size <= MAX_ELEMENT_SIZE && l.length <= l.capacity && |content| == Times(l.length, l.size)
    && (l.capacity > 0 ==> Block(l.data, Times(l.capacity, l.size)) in blocks && Holds(m, l.data, content))
  }

  predicate DataApart(a: List, b: List) {
    a.capacity > 0 && b.capacity > 0 ==> a.data != b.data
  }

  predicate CostOk(l: List, c: Cost) {
    && c.requested == (if l.capacity == 0 then 0 else 2 * l.capacity - MIN_CAPACITY)
    && c.copied == (if l.capacity == 0 then 0 else l.capacity - MIN_CAPACITY)
    && (l.capacity <= MIN_CAPACITY || l.capacity <= 2 * l.length)
    && (l.capacity == 0 || l.capacity >= MIN_CAPACITY)
  }

  /** What the doubling costs: at most four slots requested and less than two copied for every element. */
  lemma Amortised(l: List, c: Cost)
    requires CostOk(l, c) && l.length <= l.capacity
    ensures c.requested <= if 4 * l.length < MIN_CAPACITY then MIN_CAPACITY else 4 * l.length
    ensures l.length > 0 ==> c.copied < 2 * l.length
    ensures l.capacity == 0 ==> c.requested == c.copied == 0
  {
  }

  function Grown(l: List): (r: List)
    ensures r.size == l.size && r.length == l.length && r.data == l.data && r.capacity > l.capacity
  {
    l.(capacity := if l.capacity < MIN_CAPACITY then MIN_CAPACITY else l.capacity * 2)
  }

  lemma GrownBytes(l: List)
    requires 0 < l.size <= MAX_ELEMENT_SIZE && Times(l.capacity, l.size) <= LOADER_BUFFER_LEN
    ensures Times(l.capacity, l.size) <= Times(Grown(l).capacity, l.size) <= 2 * LOADER_BUFFER_LEN
  {
    hide Times;
    if l.capacity < MIN_CAPACITY {
      TimesMonotone(l.capacity, MIN_CAPACITY, l.size);
      SmallProduct(MIN_CAPACITY, l.size);
    } else {
      TimesSum(l.capacity, l.capacity, l.size);
    }
  }

  lemma SmallProduct(a: nat, p: nat)
    requires a <= MIN_CAPACITY && p <= MAX_ELEMENT_SIZE
    ensures Times(a, p) <= 0x1_0000
  {
    TimesMonotone(a, MIN_CAPACITY, p);
  }

  // ---------------------------------------------------------------- the steps on memory

  // A list that neither moves nor lies under the stored bytes is as it was.
  lemma ListKept(m: Memory, at: int, data: seq<Byte>, blocks: seq<Block>, more: seq<Block>, l: List, content: seq<Byte>)
    requires ListOk(m, blocks, l, content) && (forall b :: b in blocks ==> b in more)
    requires l.capacity > 0 ==> Apart(at, |data|, l.data, Times(l.capacity, l.size))
    ensures ListOk(WriteBytes(m, at, data), more, l, content)
  {
    hide Times, WriteBytes;
    TimesMonotone(l.length, l.capacity, l.size);
  }

  // Moving a list: its old bytes, all of the old capacity, are copied to the start of the new block.
  lemma ListMoved(m: Memory, blocks: seq<Block>, l: List, to: nat, content: seq<Byte>)
    requires ListOk(m, blocks, l, content) && l.length == l.capacity
    requires Block(to, Times(Grown(l).capacity, l.size)) in blocks
    ensures ListOk(WriteBytes(m, to, LoadBytes(m, l.data, Times(l.capacity, l.size))), blocks, Grown(l).(data := to),
                   content)
  {
    hide Times, WriteBytes, LoadBytes, Holds;
    TimesZero(l.size);
    BytesRead(m, l.data, content);
    BytesWritten(m, to, content);
  }

  lemma BytesWritten(m: Memory, a: int, data: seq<Byte>)
    ensures Holds(WriteBytes(m, a, data), a, data)
  {
  }

  lemma BytesRead(m: Memory, a: int, data: seq<Byte>)
    requires data == [] || Holds(m, a, data)
    ensures LoadBytes(m, a, |data|) == data
  {
  }

  lemma ElementStored(m: Memory, blocks: seq<Block>, l: List, content: seq<Byte>, element: seq<Byte>)
    requires ListOk(m, blocks, l, content) && l.length < l.capacity && |element| == l.size
    ensures l.data + Times(l.length, l.size) + |element| <= l.data + Times(l.capacity, l.size)
    ensures ListOk(WriteBytes(m, l.data + Times(l.length, l.size), element), blocks, l.(length := l.length + 1),
                   content + element)
  {
    hide Times, WriteBytes;
    TimesNext(l.length, l.size);
    TimesMonotone(l.length + 1, l.capacity, l.size);
  }

  ghost predicate AllOk(m: Memory, blocks: seq<Block>, lists: seq<List>, contents: seq<seq<Byte>>) {
    && |lists| == |contents|
    && (forall i | 0 <= i < |lists| :: ListOk(m, blocks, lists[i], contents[i]))
    && (forall i, j | 0 <= i < |lists| && 0 <= j < |lists| && i != j :: DataApart(lists[i], lists[j]))
  }

  predicate AllCostsOk(lists: seq<List>, costs: seq<Cost>) {
    |lists| == |costs| && forall i | 0 <= i < |lists| :: CostOk(lists[i], costs[i])
  }

  // One list of all moves to a new block.
  lemma AllMoved(m: Memory, blocks: seq<Block>, lists: seq<List>, contents: seq<seq<Byte>>, l: nat, base: nat,
                 index: nat)
    requires AllOk(m, blocks, lists, contents) && BlocksOk(blocks, base, index)
    requires l < |lists| && lists[l].length == lists[l].capacity
    ensures var grown := Grown(lists[l]).(data := base + index);
      AllOk(WriteBytes(m, base + index, LoadBytes(m, lists[l].data, Times(lists[l].capacity, lists[l].size))),
            blocks + [Block(base + index, Times(grown.capacity, grown.size))], lists[l := grown], contents)
  {
    hide Times, WriteBytes, LoadBytes, BlocksOk, ListOk;
    var list, to := lists[l], base + index;
    var block := Block(to, Times(Grown(list).capacity, list.size));
    var more := blocks + [block];
    var copied := LoadBytes(m, list.data, Times(list.capacity, list.size));
    forall i | 0 <= i < |lists|
      ensures ListOk(WriteBytes(m, to, copied), more, lists[l := Grown(list).(data := to)][i], contents[i])
      ensures i != l && lists[i].capacity > 0 ==> lists[i].data < to
    {
      BlockBelow(m, blocks, lists[i], contents[i], base, index);
      if i == l {
        MoreBlocks(m, blocks, block, list, contents[l]);
        ListMoved(m, more, list, to, contents[l]);
      } else {
        ListKept(m, to, copied, blocks, more, lists[i], contents[i]);
      }
    }
  }

  lemma BlockBelow(m: Memory, blocks: seq<Block>, l: List, content: seq<Byte>, base: nat, index: nat)
    requires ListOk(m, blocks, l, content) && BlocksOk(blocks, base, index)
    ensures l.capacity > 0 ==> l.data + Times(l.capacity, l.size) <= base + index && l.data < base + index
  {
    hide Times;
    if l.capacity > 0 {
      TimesPositive(l.capacity, l.size);
    }
  }

  lemma CapacityBound(m: Memory, blocks: seq<Block>, lists: seq<List>, contents: seq<seq<Byte>>, l: nat, base: nat,
                      index: nat)
    requires AllOk(m, blocks, lists, contents) && l < |lists|
    requires BlocksOk(blocks, base, index) && index <= LOADER_BUFFER_LEN
    ensures 0 < lists[l].size <= MAX_ELEMENT_SIZE && Times(lists[l].capacity, lists[l].size) <= LOADER_BUFFER_LEN
  {
    hide Times;
    assert ListOk(m, blocks, lists[l], contents[l]);
    TimesZero(lists[l].size);
  }

  lemma MoreBlocks(m: Memory, blocks: seq<Block>, block: Block, l: List, content: seq<Byte>)
    requires ListOk(m, blocks, l, content)
    ensures ListOk(m, blocks + [block], l, content) && block in blocks + [block]
  {
  }

  // One list of all takes one more element.
  lemma AllStored(m: Memory, blocks: seq<Block>, lists: seq<List>, contents: seq<seq<Byte>>, l: nat, element: seq<Byte>,
                  base: nat, index: nat)
    requires AllOk(m, blocks, lists, contents) && BlocksOk(blocks, base, index)
    requires l < |lists| && lists[l].length < lists[l].capacity && |element| == lists[l].size
    ensures AllOk(WriteBytes(m, lists[l].data + Times(lists[l].length, lists[l].size), element), blocks,
                  lists[l := lists[l].(length := lists[l].length + 1)], contents[l := contents[l] + element])
  {
    hide Times, WriteBytes, BlocksOk;
    var list := lists[l];
    var at := list.data + Times(list.length, list.size);
    ElementStored(m, blocks, list, contents[l], element);
    forall i | 0 <= i < |lists| && i != l
      ensures ListOk(WriteBytes(m, at, element), blocks, lists[i], contents[i])
    {
      if lists[i].capacity > 0 {
        assert DataApart(lists[i], list);
        BlocksApart(blocks, base, index, Block(lists[i].data, Times(lists[i].capacity, lists[i].size)),
                    Block(list.data, Times(list.capacity, list.size)));
      }
      ListKept(m, at, element, blocks, blocks, lists[i], contents[i]);
    }
  }

  // No list changes its element size, and only list `l` its length.
  predicate SameOthers(was: seq<List>, now: seq<List>, l: nat) {
    && |was| == |now|
    && forall i | 0 <= i < |was| :: was[i].size == now[i].size && (i != l ==> was[i].length == now[i].length)
  }

  lemma OneChanged(was: seq<List>, l: nat, list: List)
    requires l < |was| && list.size == was[l].size
    ensures SameOthers(was, was, l) && SameOthers(was, was[l := list], l)
  {
  }

  lemma OthersStay(was: seq<List>, mid: seq<List>, now: seq<List>, l: nat)
    requires SameOthers(was, mid, l) && SameOthers(mid, now, l)
    ensures SameOthers(was, now, l)
  {
  }

  lemma SizeKept(was: seq<List>, now: seq<List>, l: nat)
    requires SameOthers(was, now, l)
    ensures |was| == |now| && forall i :: 0 <= i < |was| ==> was[i].size == now[i].size
  {
  }

  lemma CostsGrown(lists: seq<List>, costs: seq<Cost>, l: nat, to: nat)
    requires AllCostsOk(lists, costs) && l < |lists| && lists[l].length == lists[l].capacity
    ensures AllCostsOk(lists[l := Grown(lists[l]).(data := to)],
                       costs[l := Cost(costs[l].requested + Grown(lists[l]).capacity,
                                       costs[l].copied + lists[l].capacity)])
  {
  }

  lemma CostsKept(lists: seq<List>, costs: seq<Cost>, l: nat)
    requires AllCostsOk(lists, costs) && l < |lists|
    ensures AllCostsOk(lists[l := lists[l].(length := lists[l].length + 1)], costs)
  {
  }

  // ---------------------------------------------------------------- elements

  function FirstElements(content: seq<Byte>, k: nat, size: nat): seq<Byte> {
    if Times(k, size) <= |content| then content[..Times(k, size)] else content
  }

  function ElementOf(content: seq<Byte>, k: nat, size: nat): seq<Byte> {
    if Times(k, size) + size <= |content| then content[Times(k, size)..Times(k, size) + size] else []
  }

  lemma NextElement(content: seq<Byte>, k: nat, n: nat, size: nat)
    requires k < n && |content| == Times(n, size)
    ensures |ElementOf(content, k, size)| == size
    ensures FirstElements(content, k + 1, size) == FirstElements(content, k, size) + ElementOf(content, k, size)
  {
    hide Times;
    TimesNext(k, size);
    TimesMonotone(k + 1, n, size);
  }

  lemma AllElements(content: seq<Byte>, n: nat, size: nat)
    requires |content| == Times(n, size)
    ensures FirstElements(content, n, size) == content && FirstElements(content, 0, size) == []
  {
    hide Times;
    TimesZero(size);
  }

  lemma ElementLoaded(m: Memory, blocks: seq<Block>, l: List, content: seq<Byte>, k: nat)
    requires ListOk(m, blocks, l, content) && k < l.length
    ensures LoadBytes(m, l.data + Times(k, l.size), l.size) == ElementOf(content, k, l.size)
  {
    hide Times;
    TimesNext(k, l.size);
    TimesMonotone(k + 1, l.length, l.size);
  }

  lemma ListLength(m: Memory, blocks: seq<Block>, lists: seq<List>, contents: seq<seq<Byte>>, l: nat)
    requires AllOk(m, blocks, lists, contents) && l < |lists|
    ensures lists[l].length <= lists[l].capacity && |contents[l]| == Times(lists[l].length, lists[l].size)
  {
    assert ListOk(m, blocks, lists[l], contents[l]);
  }

  lemma ElementLength(m: Memory, blocks: seq<Block>, l: List, content: seq<Byte>, k: nat)
    requires ListOk(m, blocks, l, content) && k < l.length
    ensures |ElementOf(content, k, l.size)| == l.size
  {
    hide Times, FirstElements;
    NextElement(content, k, l.length, l.size);
  }

  lemma LengthBound(m: Memory, blocks: seq<Block>, lists: seq<List>, contents: seq<seq<Byte>>, l: nat, base: nat,
                    index: nat)
    requires AllOk(m, blocks, lists, contents) && l < |lists|
    requires BlocksOk(blocks, base, index) && index <= LOADER_BUFFER_LEN
    ensures lists[l].length <= LOADER_BUFFER_LEN && ListOk(m, blocks, lists[l], contents[l])
  {
    hide AllOk, BlocksOk, ListOk;
    CapacityBound(m, blocks, lists, contents, l, base, index);
    ListLength(m, blocks, lists, contents, l);
    OneOk(m, blocks, lists, contents, l);
    TimesAtLeast(lists[l].capacity, lists[l].size);
  }

  lemma OneOk(m: Memory, blocks: seq<Block>, lists: seq<List>, contents: seq<seq<Byte>>, l: nat)
    requires AllOk(m, blocks, lists, contents) && l < |lists|
    ensures ListOk(m, blocks, lists[l], contents[l])
  {
  }

  lemma TimesAtLeast(a: nat, p: nat)
    requires p > 0
    ensures a <= Times(a, p)
  {
  }

  // ---------------------------------------------------------------- the arena

  /** Adding one element to a list, or cloning a list to the end of another. */
  datatype Operation = Add(list: nat, element: seq<Byte>) | Clone(dest: nat, src: nat)

  function Applied(contents: seq<seq<Byte>>, op: Operation): (r: seq<seq<Byte>>)
    ensures |r| == |contents|
  {
    match op
    case Add(l, element) => if l < |contents| then contents[l := contents[l] + element] else contents
    case Clone(dest, src) =>
      if dest < |contents| && src < |contents| then contents[dest := contents[dest] + contents[src]] else contents
  }

  // The operation is on lists that exist, and moves elements of their size.
  predicate Suits(lists: seq<List>, op: Operation) {
    match op
    case Add(l, element) => l < |lists| && |element| == lists[l].size
    case Clone(dest, src) => dest < |lists| && src < |lists| && lists[dest].size == lists[src].size
  }

  function AppliedAll(contents: seq<seq<Byte>>, ops: seq<Operation>): seq<seq<Byte>> {
    if ops == [] then contents else Applied(AppliedAll(contents, ops[..|ops| - 1]), ops[|ops| - 1])
  }

  class Arena {
    const base: nat                  // loader_buffer
    var memory: Memory
    var index: nat                   // loader_heap_index
    var lists: seq<List>
    ghost var contents: seq<seq<Byte>>     // what was appended to each list
    ghost var blocks: seq<Block>     // every block handed out so far
    ghost var costs: seq<Cost>

    ghost predicate HeapOk()
      reads this
    {
      && base % ALIGNMENT == 0 == index % ALIGNMENT && index <= LOADER_BUFFER_LEN
      && Mapped(memory, base) && BlocksOk(blocks, base, index)
    }

    ghost predicate ListsOk()
      reads this
    {
      && |lists| == |contents| == |costs|
      && AllOk(memory, blocks, lists, contents) && AllCostsOk(lists, costs)
    }

    ghost predicate Valid()
      reads this
    {
      HeapOk() && ListsOk()
    }

    /** A fresh zeroed buffer and any number of empty lists, with elements of the given sizes. */
    constructor (buffer: nat, sizes: seq<nat>)
      requires buffer % 0x1000 == 0
      requires forall i :: 0 <= i < |sizes| ==> 0 < sizes[i] <= MAX_ELEMENT_SIZE
      ensures Valid() && base == buffer
      ensures contents == seq(|sizes|, _ => [])
      ensures |lists| == |sizes| && forall i :: 0 <= i < |sizes| ==> lists[i].size == sizes[i]
    {
      base := buffer;
      memory := WriteBytes(map[], buffer, Zeros(LOADER_BUFFER_LEN));
      index := 0;
      lists := seq(|sizes|, i requires 0 <= i < |sizes| => List(sizes[i], 0, 0, 0));
      contents := seq(|sizes|, _ => []);
      blocks := [];
      costs := seq(|sizes|, _ => Cost(0, 0));
    }

    /** `loader_malloc_arena`, on a buffer that is mapped. As long as the sums do not wrap around it grants what
        there is room for, and the heap stays in order. */
    method Malloc(n: Word) returns (address: Option<nat>)
      requires HeapOk()
      modifies this`index, this`blocks
      ensures address == if Granted(old(index), n) then Some(base + old(index)) else None
      ensures index == if address.Some? then IndexAfter(old(index), n) else old(index)
      ensures blocks == if address.Some? then old(blocks) + [Block(base + old(index), n)] else old(blocks)
      ensures address == None ==> HeapOk()
      ensures old(index) + RoundUp(n) < WORD_LIMIT ==>
        HeapOk() && (address.Some? <==> old(index) + n <= LOADER_BUFFER_LEN)
    {
      var mod := n % ALIGNMENT;
      var alignedEnd := if mod == 0 then n else n + ALIGNMENT - mod;
      var next := Wrap(index + Wrap(alignedEnd));
      assert alignedEnd == RoundUp(n) && next == IndexAfter(index, n);
      hide Wrap, RoundUp, IndexAfter, BlocksOk;
      if index + RoundUp(n) < WORD_LIMIT {
        RoundedIndex(index, n);
        OneMoreBlock(blocks, base, index, n, index + RoundUp(n));
      }
      if next > LOADER_BUFFER_LEN {
        return None;
      }
      address := Some(base + index);
      blocks := blocks + [Block(base + index, n)];
      index := next;
    }

    // The allocation for a list that had to grow was refused, and the list is left without memory.
    ghost predicate Exhausted(l: nat)
      reads this
    {
      && l < |lists| && lists[l].data == 0
      && index + Times(lists[l].capacity, lists[l].size) > LOADER_BUFFER_LEN
    }

    /** The first half of `List_add`, for a full list. */
    method Grow(l: nat) returns (ok: bool)
      requires Valid() && l < |lists| && lists[l].length == lists[l].capacity
      modifies this`memory, this`index, this`lists, this`blocks, this`costs
      ensures SameOthers(old(lists), lists, l) && (ok ==> lists[l].length == old(lists[l].length))
      ensures ok ==> Valid() && lists[l].length < lists[l].capacity && contents == old(contents)
      ensures !ok ==> Exhausted(l)
    {
      hide Times, BlocksOk, AllOk, AllCostsOk, SameOthers, WriteBytes, LoadBytes, Grown;
      var list := lists[l];
      CapacityBound(memory, blocks, lists, contents, l, base, index);
      GrownBytes(list);
      var grown := Grown(list);
      var size: Word := Times(grown.capacity, list.size);
      AllMoved(memory, blocks, lists, contents, l, base, index);
      OneChanged(lists, l, grown.(data := 0));
      OneChanged(lists, l, grown.(data := base + index));
      CostsGrown(lists, costs, l, base + index);
      var data := Malloc(size);
      if data == None {
        lists := lists[l := grown.(data := 0)];
        return false;
      }
      var oldSize := Times(list.capacity, list.size);
      memory := WriteBytes(memory, data.value, LoadBytes(memory, list.data, oldSize));
      lists := lists[l := grown.(data := data.value)];
      costs := costs[l := Cost(costs[l].requested + grown.capacity, costs[l].copied + list.capacity)];
      return true;
    }

    /** `List_add`. When the allocation is refused the list has lost its memory, and the capacity is already
        the new one. */
    method Add(l: nat, element: seq<Byte>) returns (ok: bool)
      requires Valid() && l < |lists| && |element| == lists[l].size
      modifies this`memory, this`index, this`lists, this`blocks, this`costs, this`contents
      ensures SameOthers(old(lists), lists, l) && (ok ==> lists[l].length == old(lists[l].length) + 1)
      ensures ok ==> Valid() && contents == old(contents)[l := old(contents)[l] + element]
      ensures !ok ==> Exhausted(l)
    {
      hide Times, BlocksOk, AllOk, AllCostsOk, SameOthers, CostOk;
      ListLength(memory, blocks, lists, contents, l);
      OneChanged(lists, l, lists[l]);
      SizeKept(lists, lists, l);
      if lists[l].length == lists[l].capacity {
        ok := Grow(l);
        SizeKept(old(lists), lists, l);
        if !ok {
          return;
        }
      }
      AllStored(memory, blocks, lists, contents, l, element, base, index);
      CostsKept(lists, costs, l);
      var list := lists[l];
      var stored := list.(length := list.length + 1);
      OneChanged(lists, l, stored);
      OthersStay(old(lists), lists, lists[l := stored], l);
      memory := WriteBytes(memory, list.data + Times(list.length, list.size), element);
      lists := lists[l := stored];
      contents := contents[l := contents[l] + element];
      return true;
    }

    /** The element at a position of a list. */
    method Element(l: nat, k: nat) returns (element: seq<Byte>)
      requires Valid() && l < |lists| && k < lists[l].length
      ensures element == ElementOf(contents[l], k, lists[l].size)
    {
      hide Times, BlocksOk, ListOk;
      var list := lists[l];
      assert ListOk(memory, blocks, list, contents[l]);
      ElementLoaded(memory, blocks, list, contents[l], k);
      element := LoadBytes(memory, list.data + Times(k, list.size), list.size);
    }

    /** `List_clone`: it reports failure even when every element has been added. An addition that fails is
        not noticed; none is recorded here, as the next one would go through a null pointer. A list cloned to
        its own end grows with every step, until an addition fails. */
    method CloneList(dest: nat, src: nat) returns (result: Option<bool>)
      requires Valid() && dest < |lists| && src < |lists| && lists[dest].size == lists[src].size
      modifies this`memory, this`index, this`lists, this`blocks, this`costs, this`contents
      ensures SameOthers(old(lists), lists, dest)
      ensures result.Some? ==>
        result == Some(false) && Valid() && contents == old(contents)[dest := old(contents)[dest] + old(contents)[src]]
      ensures result == None ==> Exhausted(dest)
      ensures dest == src && old(lists[src].length) > 0 ==> result == None
    {
      hide Times, BlocksOk, AllOk, AllCostsOk, FirstElements, ElementOf;
      ghost var all, n, size := contents[src], lists[src].length, lists[src].size;
      ListLength(memory, blocks, lists, contents, src);
      AllElements(all, n, size);
      assert contents[dest] + [] == contents[dest];
      var i := 0;
      while i < lists[src].length
        invariant Valid() && SameOthers(old(lists), lists, dest)
        invariant if dest == src then lists[src].length == n + i && (n == 0 ==> i == 0) else i <= n
        invariant dest != src ==> contents[src] == all
        invariant dest != src ==> contents == old(contents)[dest := old(contents)[dest] + FirstElements(all, i, size)]
        invariant i == 0 ==> contents == old(contents)
        decreases LOADER_BUFFER_LEN - i
      {
        LengthBound(memory, blocks, lists, contents, src, base, index);
        var item := Element(src, i);
        ElementLength(memory, blocks, lists[src], contents[src], i);
        if dest != src {
          NextElement(all, i, n, size);
        }
        var ok := Add(dest, item);
        if !ok {
          return None;
        }
        ghost var before := old(contents)[dest];
        assert before + FirstElements(all, i, size) + item == before + (FirstElements(all, i, size) + item);
        i := i + 1;
      }
      return Some(false);
    }

    /** Any interleaving of additions and clones, until the first refused allocation. */
    method Perform(ops: seq<Operation>) returns (ok: bool)
      requires Valid() && forall op :: op in ops ==> Suits(lists, op)
      modifies this`memory, this`index, this`lists, this`blocks, this`costs, this`contents
      ensures ok ==> Valid() && contents == AppliedAll(old(contents), ops)
      ensures !ok ==> exists l :: Exhausted(l)
    {
      hide AllOk, AllCostsOk, BlocksOk, SameOthers;
      for i := 0 to |ops|
        invariant Valid() && forall op :: op in ops ==> Suits(lists, op)
        invariant contents == AppliedAll(old(contents), ops[..i])
      {
        assert ops[i] in ops && ops[..i + 1][..i] == ops[..i];
        label step:
        match ops[i] {
          case Add(l, element) =>
            ok := Add(l, element);
            SizeKept(old@step(lists), lists, l);
          case Clone(dest, src) =>
            var result := CloneList(dest, src);
            ok := result.Some?;
            SizeKept(old@step(lists), lists, dest);
        }
        if !ok {
          return;
        }
      }
      assert ops[..|ops|] == ops;
      return true;
    }
  }
}
