/** The heap as it is kept: headers in memory, chained by next pointers, with head and tail. */
module HeapLists {
  import opened Wrappers
  import opened HeapModel
  import opened HeapProofs

  datatype Header = Header(next: Option<nat>, size: nat, free: bool)

  ghost predicate Distinct(blocks: seq<Block>) {
    forall i, j | 0 <= i < j < |blocks| :: blocks[i].addr != blocks[j].addr
  }

  function AddrAt(blocks: seq<Block>, i: nat): Option<nat> {
    if i < |blocks| then Some(blocks[i].addr) else None
  }

  /** The header of the `i`th block says so, and points at the next. */
  ghost predicate HeaderAt(mem: map<nat, Header>, blocks: seq<Block>, i: nat)
    requires i < |blocks|
  {
    blocks[i].addr in mem && mem[blocks[i].addr] == Header(AddrAt(blocks, i + 1), blocks[i].size, blocks[i].free)
  }

  lemma TiledDistinct(h: Heap)
    requires Tiled(h)
    ensures Distinct(h.blocks)
  {
    forall i, j | 0 <= i < j < |h.blocks| ensures h.blocks[i].addr != h.blocks[j].addr {
      if h.blocks[i].addr == h.blocks[j].addr { OneBlockEach(h, i, j, h.blocks[i].addr); }
    }
  }

  lemma SplitHeader(was: map<nat, Header>, before: seq<Block>, mem: map<nat, Header>, blocks: seq<Block>, k: nat,
      size: nat, i: nat)
    requires k < |before| && blocks == Split(before, k, size) && before[k].size >= size + HEADER + HEAP_ALIGN
             && i < |blocks|
    requires Distinct(blocks) && forall j | 0 <= j < |before| :: HeaderAt(was, before, j)
    requires var rest := before[k].addr + HEADER + size;
             mem == was[rest := Header(AddrAt(before, k + 1), before[k].size - size - HEADER, true)]
                       [before[k].addr := Header(Some(rest), size, before[k].free)]
    ensures HeaderAt(mem, blocks, i)
  {
    if i < k {
      assert HeaderAt(was, before, i) && blocks[i] == before[i] && blocks[i].addr != blocks[k].addr
          && blocks[i].addr != blocks[k + 1].addr;
    } else if i > k + 1 {
      assert HeaderAt(was, before, i - 1) && blocks[i] == before[i - 1] && blocks[k].addr != blocks[i].addr
          && blocks[k + 1].addr != blocks[i].addr;
    } else {
      assert blocks[k].addr != blocks[k + 1].addr;
    }
  }

  class KernelHeap {
    var mem: map<nat, Header>
    var head: Option<nat>
    var tail: Option<nat>
    ghost var heap: Heap

    ghost predicate Valid()
      reads this
    {
      && HeapOk(heap) && head == AddrAt(heap.blocks, 0)
      && (forall i | 0 <= i < |heap.blocks| :: HeaderAt(mem, heap.blocks, i))
      && tail == if heap.blocks == [] then None else Some(heap.blocks[|heap.blocks| - 1].addr)
    }

    constructor ()
      ensures Valid() && heap == BOOT.heap
    {
      mem, head, tail, heap := map[], None, None, BOOT.heap;
      new;
      forall a ensures TiledAt(heap, a) {}
    }

    /** `phys` is the page allocator's answer; its pages are nobody else's. */
    method Grow(min: nat, phys: nat)
      requires Valid() && min % HEAP_ALIGN == 0 && min > 0 && FreshPages(heap, phys, PagesFor(min) * PAGE_SIZE)
      modifies this
      ensures Valid() && heap == HeapModel.Grow(old(heap), min, phys)
    {
      GrowOk(heap, min, phys);
      ghost var was, wasMem := heap.blocks, mem;
      heap := HeapModel.Grow(heap, min, phys);
      TiledDistinct(heap);
      mem := mem[phys := Header(None, PagesFor(min) * PAGE_SIZE - HEADER, true)];
      if tail.None? {
        head := Some(phys);
      } else {
        assert HeaderAt(wasMem, was, |was| - 1);
        mem := mem[tail.value := mem[tail.value].(next := Some(phys))];
      }
      tail := Some(phys);
      forall i | 0 <= i < |heap.blocks| ensures HeaderAt(mem, heap.blocks, i) {
        if i < |was| { assert HeaderAt(wasMem, was, i); }
      }
    }

    method Split(block: nat, size: nat, ghost k: nat)
      requires Valid() && k < |heap.blocks| && heap.blocks[k].addr == block && heap.blocks[k].size >= size
      requires size % HEAP_ALIGN == 0 && size > 0
      modifies this
      ensures Valid() && heap == old(heap).(blocks := HeapModel.Split(old(heap).blocks, k, size))
    {
      SplitOk(heap, k, size);
      assert HeaderAt(mem, heap.blocks, k);
      var b := mem[block];
      if b.size < size + HEADER + HEAP_ALIGN { return; }
      ghost var was, wasMem := heap.blocks, mem;
      TiledDistinct(heap);
      heap := heap.(blocks := HeapModel.Split(heap.blocks, k, size));
      TiledDistinct(heap);
      var rest := block + HEADER + size;
      mem := mem[rest := Header(b.next, b.size - size - HEADER, true)];
      mem := mem[block := Header(Some(rest), size, b.free)];
      if tail == Some(block) { tail := Some(rest); }
      forall i | 0 <= i < |heap.blocks| ensures HeaderAt(mem, heap.blocks, i) {
        SplitHeader(wasMem, was, mem, heap.blocks, k, size, i);
      }
    }

    method Mark(block: nat, free: bool, ghost k: nat)
      requires Valid() && k < |heap.blocks| && heap.blocks[k].addr == block
      modifies this`mem, this`heap
      ensures Valid() && heap == old(heap).(blocks := old(heap).blocks[k := old(heap).blocks[k].(free := free)])
    {
      MarkOk(heap, k, free);
      TiledDistinct(heap);
      ghost var was, wasMem := heap.blocks, mem;
      assert HeaderAt(mem, heap.blocks, k);
      mem := mem[block := mem[block].(free := free)];
      heap := heap.(blocks := heap.blocks[k := heap.blocks[k].(free := free)]);
      forall i | 0 <= i < |heap.blocks| ensures HeaderAt(mem, heap.blocks, i) { assert HeaderAt(wasMem, was, i); }
    }

    /** The first free block that is large enough. */
    method Find(size: nat) returns (b: Option<nat>, ghost k: nat)
      requires Valid()
      ensures var i := Fitting(heap.blocks, size);
              k == (if i.Some? then i.value else |heap.blocks|) && b == AddrAt(heap.blocks, k)
    {
      b := head;
      k := 0;
      while b.Some?
        invariant k <= |heap.blocks| && b == AddrAt(heap.blocks, k)
        invariant Fitting(heap.blocks, size) == FirstFrom(heap.blocks, k, (b: Block) => b.free && b.size >= size)
        decreases |heap.blocks| - k
      {
        assert HeaderAt(mem, heap.blocks, k);
        if mem[b.value].free && mem[b.value].size >= size { return; }
        b := mem[b.value].next;
        k := k + 1;
      }
    }

    method TakeBlock(block: nat, size: nat, ghost k: nat)
      requires Valid() && k < |heap.blocks| && heap.blocks[k].addr == block && heap.blocks[k].size >= size
      requires size % HEAP_ALIGN == 0 && size > 0
      modifies this
      ensures Valid() && heap == old(heap).(blocks := Take(old(heap).blocks, k, size))
    {
      Split(block, size, k);
      Mark(block, false, k);
    }

    method FindOrGrow(size: nat, phys: Option<nat>) returns (b: Option<nat>, ghost k: nat)
      requires Valid() && size % HEAP_ALIGN == 0 && size > 0
      requires phys.Some? ==> FreshPages(heap, phys.value, PagesFor(size) * PAGE_SIZE)
      modifies this
      ensures Valid()
      ensures var i := Fitting(old(heap).blocks, size);
              && (b.None? <==> i.None? && phys.None?)
              && heap == (if i.Some? || phys.None? then old(heap) else HeapModel.Grow(old(heap), size, phys.value))
              && k == (if i.Some? then i.value else |old(heap).blocks|)
              && (b.Some? ==> k < |heap.blocks| && heap.blocks[k].addr == b.value && heap.blocks[k].size >= size)
    {
      b, k := Find(size);
      if b.None? && phys.Some? {
        GrowOk(heap, size, phys.value);
        Grow(size, phys.value);
        b := phys;
      }
    }

    method Malloc(request: nat, phys: Option<nat>) returns (ptr: Option<nat>)
      requires Valid() && (phys.Some? ==> FreshPages(heap, phys.value, PagesFor(RequestSize(request)) * PAGE_SIZE))
      modifies this
      ensures Valid() && (ptr, heap) == HeapModel.Malloc(old(heap), request, phys)
    {
      var size := RequestSize(request);
      var b, k := FindOrGrow(size, phys);
      if b.None? { return None; }
      TakeBlock(b.value, size, k);
      ptr := Some(b.value + HEADER);
    }

    method Free(ptr: nat, ghost k: nat)
      requires Valid() && k < |heap.blocks| && heap.blocks[k].addr + HEADER == ptr
      modifies this
      ensures Valid() && heap == old(heap).(blocks := Release(old(heap).blocks, k))
    {
      ReleaseOk(heap, k);
      var block := ptr - HEADER;
      Mark(block, true, k);
      assert HeaderAt(mem, heap.blocks, k);
      var b := mem[block];
      if b.next.None? { return; }
      assert HeaderAt(mem, heap.blocks, k + 1);
      var n := mem[b.next.value];
      if !n.free || b.next.value != block + HEADER + b.size { return; }
      Merge(block, b, n, k);
    }

    /** Joins a free block with the free one that starts where it ends. */
    method Merge(block: nat, b: Header, n: Header, ghost k: nat)
      requires Valid() && k + 1 < |heap.blocks| && heap.blocks[k].addr == block && HeaderAt(mem, heap.blocks, k)
      requires b == mem[block] && HeaderAt(mem, heap.blocks, k + 1) && n == mem[heap.blocks[k + 1].addr]
      requires HeapOk(heap.(blocks := Joined(heap.blocks, k)))
      modifies this
      ensures Valid() && heap == old(heap).(blocks := Joined(old(heap).blocks, k))
    {
      TiledDistinct(heap);
      ghost var was, wasMem := heap.blocks, mem;
      var next := b.next.value;
      mem := mem[block := Header(n.next, b.size + HEADER + n.size, b.free)];
      if tail == Some(next) { tail := Some(block); }
      heap := heap.(blocks := Joined(was, k));
      forall i | 0 <= i < |heap.blocks| ensures HeaderAt(mem, heap.blocks, i) {
        if i < k { assert HeaderAt(wasMem, was, i); }
        if i > k { assert HeaderAt(wasMem, was, i + 1); }
      }
    }
  }

  /** Blocks `k` and `k + 1` as one. */
  ghost function Joined(blocks: seq<Block>, k: nat): seq<Block>
    requires k + 1 < |blocks|
  {
    blocks[..k] + [blocks[k].(size := blocks[k].size + HEADER + blocks[k + 1].size)] + blocks[k + 2..]
  }
}
