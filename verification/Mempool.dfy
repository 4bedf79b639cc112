/** The chunk allocator of src/nty_mempool.c: a free list of runs whose headers live inside the free chunks.

    Chunks are numbered by position.  A live chunk belongs to its owner, who may have overwritten the header. */
module Mempool {
  import opened Lists

  /** A maximal piece of free memory as the list sees it: `len` chunks from `start`. */
  datatype Span = Span(start: nat, len: nat)

  const NULL := -1

  function Total(spans: seq<Span>): nat { if spans == [] then 0 else spans[0].len + Total(spans[1..]) }

  /** The chunks the spans cover. */
  function Cover(spans: seq<Span>): set<int> {
    if spans == [] then {} else Chunks(spans[0].start, spans[0].start + spans[0].len) + Cover(spans[1..])
  }

  function Chunks(lo: int, hi: int): set<int> { set i | lo <= i < hi && Within(lo, i, hi) }

  predicate Within(lo: int, i: int, hi: int) { lo <= i < hi }

  lemma {:induction false} ChunksCount(lo: int, hi: int)
    requires lo <= hi
    ensures |Chunks(lo, hi)| == hi - lo
    decreases hi - lo
  {
    if lo == hi {
      assert Chunks(lo, hi) == {};
    } else {
      ChunksCount(lo, hi - 1);
      assert Chunks(lo, hi) == Chunks(lo, hi - 1) + {hi - 1};
    }
  }

  /** No chunk is covered twice. */
  predicate Disjoint(spans: seq<Span>) {
    spans != [] ==>
      && Chunks(spans[0].start, spans[0].start + spans[0].len) !! Cover(spans[1..])
      && Disjoint(spans[1..])
  }

  lemma {:induction false} CoverCount(spans: seq<Span>)
    requires Disjoint(spans)
    ensures |Cover(spans)| == Total(spans)
  {
    if spans != [] {
      CoverCount(spans[1..]);
      ChunksCount(spans[0].start, spans[0].start + spans[0].len);
    }
  }

  /** nty_mem_chunk: what the allocator writes into the first bytes of a free chunk. */
  datatype Header = Header(run: int, next: int)

  /** The free list, followed from `p` through the headers in `mem`, is `list`. */
  predicate Linked(mem: seq<Header>, list: seq<Span>, p: int) {
    if list == [] then p == NULL else
    0 <= p < |mem| && p == list[0].start && mem[p].run == list[0].len > 0 && Linked(mem, list[1..], mem[p].next)
  }

  /** A list reads no header outside the chunks it covers. */
  lemma {:induction false} Untouched(mem: seq<Header>, now: seq<Header>, list: seq<Span>, p: int)
    requires Linked(mem, list, p) && |mem| == |now|
    requires forall i :: 0 <= i < |mem| && i in Cover(list) ==> mem[i] == now[i]
    ensures Linked(now, list, p)
  {
    if list != [] {
      assert p in Chunks(p, p + list[0].len);
      Untouched(mem, now, list[1..], mem[p].next);
    }
  }

  /** Every chunk is either live or free, and free once. */
  ghost predicate Partition(spans: seq<Span>, live: set<int>, total: nat) {
    Disjoint(spans) && Cover(spans) !! live && Cover(spans) + live == Chunks(0, total)
  }

  class Pool {
    const total: nat               // mp_total_chunks
    const mem: array<Header>       // the first bytes of every chunk
    var freePtr: int
    var freeChunks: int
    ghost var spans: seq<Span>     // the free list
    ghost var live: set<int>       // the chunks handed out

    ghost predicate Valid()
      reads this, mem
    {
      && mem.Length == total && Linked(mem[..], spans, freePtr) && freeChunks == Total(spans)
      && Partition(spans, live, total)
    }

    /** nty_mempool_create: as many chunks as the size rounds up to, in one run. */
    constructor (chunkSize: int, size: int)
      requires chunkSize > 0 && size > 0
      ensures Valid() && live == {} && fresh(mem) && freeChunks == total
      ensures size <= total * chunkSize < size + chunkSize
    {
      var n := (size + chunkSize - 1) / chunkSize;
      RoundedUp(chunkSize, size);
      total, freeChunks, freePtr := n, n, 0;
      mem := new Header[n](_ => Header(0, 0));
      spans, live := [Span(0, n)], {};
      new;
      mem[0] := Header(total, NULL);
      OneSpan(spans[0]);
    }

    /** nty_mempool_alloc: NULL exactly when nothing is free, and never a chunk that is live. */
    method Alloc() returns (p: int)
      requires Valid()
      modifies `freePtr, `freeChunks, `spans, `live, mem
      ensures Valid()
      ensures p == NULL <==> old(freeChunks) == 0
      ensures p == NULL ==> live == old(live) && freeChunks == old(freeChunks)
      ensures p != NULL ==> 0 <= p < total && p !in old(live) && live == old(live) + {p}
      ensures p != NULL ==> freeChunks == old(freeChunks) - 1
      ensures forall i :: i in old(live) && 0 <= i < total ==> mem[i] == old(mem[i])
    {
      p := freePtr;
      if freeChunks == 0 {
        return NULL;
      }
      assert mem[p].run > 0;
      ghost var was := mem[..];
      FirstChunk(spans, live, total);
      mem[p] := mem[p].(run := mem[p].run - 1);
      freeChunks := freeChunks - 1;
      if mem[p].run != 0 {
        freePtr := p + 1;
        mem[freePtr] := Header(mem[p].run, mem[p].next);
      } else {
        freePtr := mem[p].next;
      }
      StillLinked(was, mem[..], spans);
      spans, live := Rest(spans), live + {p};
    }

    /** nty_mempool_free of a live chunk, whatever its owner left in it. */
    method Free(p: int)
      requires Valid() && p in live
      modifies `freePtr, `freeChunks, `spans, `live, mem
      ensures Valid() && live == old(live) - {p} && freeChunks == old(freeChunks) + 1
      ensures forall i :: i in live && 0 <= i < total ==> mem[i] == old(mem[i])
    {
      ghost var rest := spans;
      LiveInside(p);
      mem[p] := Header(1, freePtr);
      freePtr := p;
      freeChunks := freeChunks + 1;
      spans, live := [Span(p, 1)] + rest, live - {p};
      Untouched(old(mem[..]), mem[..], rest, old(freePtr));
    }

    /** Every chunk is live or free, and the count of free ones is right. */
    lemma Accounts()
      requires Valid()
      ensures freeChunks + |live| == total
    {
      CoverCount(spans);
      ChunksCount(0, total);
    }

    /** What an owner may do with its chunk: overwrite it, header included. */
    method Scribble(p: int, junk: Header)
      requires Valid() && p in live
      modifies mem
      ensures Valid() && mem[..] == old(mem[..])[p := junk]
    {
      LiveInside(p);
      mem[p] := junk;
      Untouched(old(mem[..]), mem[..], spans, freePtr);
    }

    /** The operation, for a client that holds `held`. */
    method Do(op: Op, held: seq<int>) returns (kept: seq<int>)
      requires Valid() && Holding(held, live)
      modifies this, mem
      ensures Valid() && Holding(kept, live) && Did(op, Book(held, old(freeChunks)), Book(kept, freeChunks))
      ensures forall i :: i in held && i in kept && 0 <= i < total ==>
                mem[i] == if Writes(op, held, i) then op.junk else old(mem[i])
    {
      kept := held;
      match op
      case Take =>
        var p := Alloc();
        if p != NULL {
          HoldOne(held, old(live), p);
          kept := held + [p];
        }
      case Give(k) =>
        if k < |held| {
          Free(held[k]);
          DropOne(held, old(live), k);
          kept := held[..k] + held[k + 1..];
        }
      case Write(k, junk) =>
        if k < |held| {
          Scribble(held[k], junk);
        }
    }

    /** Over any run of allocations, frees of live chunks and owners' writes, each has the effect that Did says, the
        chunks held are distinct, they are the live ones, and the free count accounts for the rest. */
    method Run(ops: seq<Op>) returns (held: seq<int>, ghost books: seq<Book>)
      requires Valid() && live == {}
      modifies this, mem
      ensures Valid() && Holding(held, live) && freeChunks + |live| == total
      ensures |books| == |ops| + 1 && books[0] == Book([], old(freeChunks)) && books[|ops|] == Book(held, freeChunks)
      ensures forall i :: 0 <= i < |ops| ==> Did(ops[i], books[i], books[i + 1])
    {
      hide Pool.Valid, Holding, Did;
      held, books := [], [Book([], freeChunks)];
      NoneHeld();
      for i := 0 to |ops|
        invariant Valid() && Holding(held, live)
        invariant |books| == i + 1 && books[0] == Book([], old(freeChunks)) && books[i] == Book(held, freeChunks)
        invariant forall k :: 0 <= k < i ==> Did(ops[k], books[k], books[k + 1])
      {
        held := Do(ops[i], held);
        books := books + [Book(held, freeChunks)];
      }
      Accounts();
    }

    lemma LiveInside(p: int)
      requires Valid() && p in live
      ensures 0 <= p < total && p !in Cover(spans)
    {
      assert p in Chunks(0, total);
    }
  }

  /** What a client of the pool does; the chunks it holds are numbered in the order it got them. */
  datatype Op = Take | Give(k: nat) | Write(k: nat, junk: Header)

  /** The chunks a client holds, and how many are free. */
  datatype Book = Book(held: seq<int>, free: int)

  /** What the operation makes of the book: a chunk more, which the client did not hold, unless nothing is free; or one
      chunk less. */
  ghost predicate Did(op: Op, was: Book, now: Book) {
    match op
    case Take =>
      if was.free == 0 then now == was
      else
        && |now.held| == |was.held| + 1 && now.held[|was.held|] !in was.held
        && now == Book(was.held + [now.held[|was.held|]], was.free - 1)
    case Give(k) =>
      now == if k < |was.held| then Book(was.held[..k] + was.held[k + 1..], was.free + 1) else was
    case Write(_, _) => now == was
  }

  ghost predicate Writes(op: Op, held: seq<int>, i: int) { op.Write? && op.k < |held| && held[op.k] == i }

  /** `held` lists every chunk of `live` once. */
  ghost predicate Holding(held: seq<int>, live: set<int>) {
    && NoDup(held)
    && (forall i :: 0 <= i < |held| ==> held[i] in live)
    && (forall p :: p in live ==> p in held)
  }

  lemma NoneHeld()
    ensures Holding([], {})
  {
  }

  lemma HoldOne(held: seq<int>, live: set<int>, p: int)
    requires Holding(held, live) && p !in live
    ensures Holding(held + [p], live + {p})
  {
  }

  lemma DropOne(held: seq<int>, live: set<int>, k: nat)
    requires Holding(held, live) && k < |held|
    ensures Holding(held[..k] + held[k + 1..], live - {held[k]})
  {
    var rest := held[..k] + held[k + 1..];
    forall p | p in live - {held[k]} ensures p in rest {
      var i :| 0 <= i < |held| && held[i] == p;
      assert rest[if i < k then i else i - 1] == p;
    }
  }

  lemma RoundedUp(chunkSize: int, size: int)
    requires chunkSize > 0 && size > 0
    ensures var n := (size + chunkSize - 1) / chunkSize; n > 0 && size <= n * chunkSize < size + chunkSize
  {
  }

  lemma OneSpan(s: Span)
    ensures Disjoint([s]) && Cover([s]) == Chunks(s.start, s.start + s.len) && Total([s]) == s.len
  {
  }

  /** The free list after an allocation. */
  function Rest(spans: seq<Span>): seq<Span>
    requires spans != [] && spans[0].len > 0
  {
    if spans[0].len == 1 then spans[1..] else [Span(spans[0].start + 1, spans[0].len - 1)] + spans[1..]
  }

  lemma FirstChunk(spans: seq<Span>, live: set<int>, total: nat)
    requires spans != [] && spans[0].len > 0 && Partition(spans, live, total)
    ensures var p := spans[0].start;
      && 0 <= p < total && p !in live && (spans[0].len > 1 ==> p + 1 < total && p + 1 !in live)
      && Partition(Rest(spans), live + {p}, total) && Total(Rest(spans)) == Total(spans) - 1
  {
    hide Disjoint, Cover, Rest;
    RestCover(spans);
    assert forall i :: i in Chunks(0, total) ==> 0 <= i < total;
  }

  lemma RestCover(spans: seq<Span>)
    requires spans != [] && spans[0].len > 0 && Disjoint(spans)
    ensures Disjoint(Rest(spans)) && Cover(Rest(spans)) == Cover(spans) - {spans[0].start}
    ensures Total(Rest(spans)) == Total(spans) - 1
    ensures spans[0].start in Cover(spans) && (spans[0].len > 1 ==> spans[0].start + 1 in Cover(spans))
  {
    var s, rest, p := spans[0], spans[1..], spans[0].start;
    assert p in Chunks(p, p + s.len);
    assert s.len > 1 ==> p + 1 in Chunks(p, p + s.len);
    assert Chunks(p, p + s.len) == {p} + Chunks(p + 1, p + s.len);
    assert s.len > 1 ==> Rest(spans)[1..] == rest;
  }

  /** The list after an allocation, as it now stands in memory. */
  lemma StillLinked(mem: seq<Header>, now: seq<Header>, spans: seq<Span>)
    requires spans != [] && Linked(mem, spans, spans[0].start) && Disjoint(spans) && |mem| == |now|
    requires spans[0].len > 1 ==> spans[0].start + 1 < |mem|
    requires var p, n := spans[0].start, spans[0].len;
      && (n > 1 ==> now[p + 1] == Header(n - 1, mem[p].next))
      && forall i :: 0 <= i < |mem| && i != p && (n == 1 || i != p + 1) ==> now[i] == mem[i]
    ensures Linked(now, Rest(spans), if spans[0].len > 1 then spans[0].start + 1 else mem[spans[0].start].next)
  {
    var s, rest, p := spans[0], spans[1..], spans[0].start;
    assert p in Chunks(p, p + s.len) && (s.len > 1 ==> p + 1 in Chunks(p, p + s.len));
    Untouched(mem, now, rest, mem[p].next);
    assert s.len > 1 ==> Rest(spans)[1..] == rest;
  }
}
