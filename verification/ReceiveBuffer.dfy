/** The reassembly buffer of src/nty_buffer.c: RBInit, RBPut and RBRemove.

    Besides the C fields the class has one ghost field, `base`: the unbounded stream position (0 for the
    first byte after the SYN) that the 32-bit `headSeq` stands for.  What the buffer means is the map
    `Bytes()` from stream positions to the bytes held for them. */
module ReceiveBuffer {
  import opened SeqArith
  import opened Fragments

  /** The byte at position `p` of bytes that start at position `at`. */
  function ByteAt(bytes: seq<u8>, at: int, p: int): u8
    requires at <= p < at + |bytes|
  {
    bytes[p - at]
  }

  /** The bytes of one segment, by stream position. */
  function Payload(at: int, payload: seq<u8>): map<int, u8> {
    map p | at <= p < at + |payload| :: ByteAt(payload, at, p)
  }

  /** The bytes at positions `from` and later. */
  function Since(bytes: map<int, u8>, from: int): map<int, u8> {
    map p | p in bytes && from <= p :: bytes[p]
  }

  /** Whether the byte at stream position `p` has arrived, when the head stands at position `base`. */
  ghost predicate Has(frags: seq<Frag>, h: u32, base: int, p: int) {
    Covered(frags, h, p - base)
  }

  /** What a fragment list says about a stretch of memory that starts at the head pointer. */
  ghost function Held(frags: seq<Frag>, h: u32, base: int, window: seq<u8>): map<int, u8> {
    map p | base <= p < base + |window| && Has(frags, h, base, p) :: ByteAt(window, base, p)
  }

  /** A stretch of memory after `payload` was copied to offset `d`. */
  function Splice(window: seq<u8>, d: nat, payload: seq<u8>): seq<u8>
    requires d + |payload| <= |window|
  {
    window[..d] + payload + window[d + |payload|..]
  }

  /** Length of the run of bytes that starts at the head sequence number. */
  function FrontLen(frags: seq<Frag>, h: u32): nat {
    if frags != [] && frags[0].start == h then frags[0].len else 0
  }

  /** One past the last offset in use. */
  function Extent(frags: seq<Frag>, h: u32): nat {
    if frags == [] then 0 else Hi(frags[|frags| - 1], h)
  }

  lemma CoveredWithinExtent(frags: seq<Frag>, h: u32, size: nat)
    requires Canonical(frags, h, size)
    ensures Extent(frags, h) <= size
    ensures forall k :: Covered(frags, h, k) ==> 0 <= k < Extent(frags, h)
    ensures frags != [] ==> Covered(frags, h, Extent(frags, h) - 1)
  {
    hide Lo;
    if frags != [] { assert In(frags[|frags| - 1], h, Extent(frags, h) - 1); }
  }

  /** The front run is exactly what is readable: it is all there, and the next byte is missing. */
  lemma FrontRun(frags: seq<Frag>, h: u32, size: nat)
    requires Canonical(frags, h, size)
    ensures forall k :: 0 <= k < FrontLen(frags, h) ==> Covered(frags, h, k)
    ensures !Covered(frags, h, FrontLen(frags, h))
    ensures FrontLen(frags, h) <= Extent(frags, h)
  {
    if frags != [] {
      assert frags[0].start == h <==> Lo(frags[0], h) == 0 by { WrapInjective(frags[0].start, h); }
      hide Lo;
      GapAfterFirst(frags, h, size);
      assert forall k :: 0 <= k < FrontLen(frags, h) ==> In(frags[0], h, k);
      LastIsLargest(frags, h, size);
    }
  }

  lemma LastIsLargest(frags: seq<Frag>, h: u32, size: nat)
    requires Canonical(frags, h, size) && frags != []
    ensures Hi(frags[0], h) <= Extent(frags, h)
  {
  }

  /** The window loses its first `n` offsets when the front run is shortened by `n`. */
  function DropFront(frags: seq<Frag>, n: nat): seq<Frag>
    requires frags != [] && n <= frags[0].len
  {
    if n == frags[0].len then frags[1..]
    else [Frag(Wrap(frags[0].start + n), frags[0].len - n)] + frags[1..]
  }

  lemma Rebase(f: Frag, h: u32, n: nat)
    requires n <= Lo(f, h)
    ensures Lo(f, Wrap(h + n)) == Lo(f, h) - n
  {
    hide Wrap;
    Ends(f, h);
    WrapSub(h + Lo(f, h), h + n);
  }

  /** Node by node: only the first node of the shortened list can be new, and it starts at the new head. */
  lemma DropFrontOffsets(frags: seq<Frag>, h: u32, size: nat, n: nat)
    requires size <= MAX_SIZE && Canonical(frags, h, size) && 0 < n <= FrontLen(frags, h)
    ensures ShiftedBy(frags, DropFront(frags, n), h, Wrap(h + n), n)
  {
    hide Lo, Wrap;
    var rest := DropFront(frags, n);
    StartsHere(frags[0], h);
    StartsHere(Frag(Wrap(h + n), 1), Wrap(h + n));
    forall i | 1 <= i < |frags| ensures Lo(frags[i], Wrap(h + n)) == Lo(frags[i], h) - n {
      Rebase(frags[i], h, n);
    }
    if n < frags[0].len {
      SameStart(rest[0], Frag(Wrap(h + n), 1), Wrap(h + n));
    }
  }

  lemma StartsHere(f: Frag, h: u32)
    requires f.start == h
    ensures Lo(f, h) == 0
  {
  }

  lemma SameStart(f: Frag, g: Frag, h: u32)
    requires f.start == g.start
    ensures Lo(f, h) == Lo(g, h)
  {
  }

  /** Shortening the front run by `n` and moving the head by `n` drops the first `n` offsets and nothing else. */
  lemma DropFrontWindow(frags: seq<Frag>, h: u32, size: nat, n: nat)
    requires size <= MAX_SIZE && Canonical(frags, h, size) && 0 < n <= FrontLen(frags, h)
    ensures var rest := DropFront(frags, n); var h' := Wrap(h + n);
            && Canonical(rest, h', size - n)
            && (forall k :: Covered(rest, h', k) <==> 0 <= k && Covered(frags, h, k + n))
            && (rest != [] ==> Extent(rest, h') == Extent(frags, h) - n)
            && (rest == [] ==> Extent(frags, h) == n)
  {
    hide Lo, Hi, Wrap, DropFront, Covered, Canonical, Extent, ShiftedBy;
    var rest, h' := DropFront(frags, n), Wrap(h + n);
    DropFrontOffsets(frags, h, size, n);
    Shifted(frags, rest, h, h', size, n);
    forall k {:trigger Covered(rest, h', k)} ensures Covered(rest, h', k) <==> 0 <= k && Covered(frags, h, k + n) {
      ShiftedCover(frags, rest, h, h', n, k);
    }
  }

  /** How the nodes of the shortened list lie: each is a node of the old one, `n` offsets further to the front;
      only the first may have lost its beginning. */
  ghost predicate ShiftedBy(frags: seq<Frag>, rest: seq<Frag>, h: u32, h': u32, n: nat) {
    var g := |frags| - |rest|;
    && frags != [] && 0 <= g <= 1 && Lo(frags[0], h) == 0
    && n <= Hi(frags[0], h) && (g == 1 <==> n == Hi(frags[0], h))
    && forall j :: 0 <= j < |rest| ==>
         && Lo(rest[j], h') == (if j + g == 0 then 0 else Lo(frags[j + g], h) - n)
         && Hi(rest[j], h') == Hi(frags[j + g], h) - n
  }

  lemma Shifted(frags: seq<Frag>, rest: seq<Frag>, h: u32, h': u32, size: nat, n: nat)
    requires Canonical(frags, h, size) && 0 < n && ShiftedBy(frags, rest, h, h', n)
    ensures n <= size && Canonical(rest, h', size - n)
    ensures rest != [] ==> Extent(rest, h') == Extent(frags, h) - n
    ensures rest == [] ==> Extent(frags, h) == n
  {
    hide Lo, In;
  }

  lemma ShiftedCover(frags: seq<Frag>, rest: seq<Frag>, h: u32, h': u32, n: nat, k: int)
    requires 0 < n && ShiftedBy(frags, rest, h, h', n)
    ensures Covered(rest, h', k) <==> 0 <= k && Covered(frags, h, k + n)
  {
    hide Lo;
    var g := |frags| - |rest|;
    if Covered(rest, h', k) {
      var j :| 0 <= j < |rest| && In(rest[j], h', k);
      assert In(frags[j + g], h, k + n);
    }
    if 0 <= k && Covered(frags, h, k + n) {
      var j :| 0 <= j < |frags| && In(frags[j], h, k + n);
      assert In(rest[j - g], h', k);
    }
  }

  lemma DropFrontLen(frags: seq<Frag>, h: u32, size: nat, n: nat)
    requires size <= MAX_SIZE && Canonical(frags, h, size) && 0 < n <= FrontLen(frags, h)
    ensures FrontLen(DropFront(frags, n), Wrap(h + n)) == FrontLen(frags, h) - n
  {
    var rest := DropFront(frags, n);
    DropFrontOffsets(frags, h, size, n);
    if n == frags[0].len && rest != [] {
      assert 0 < Lo(rest[0], Wrap(h + n));
    }
  }

  /** Two windows that agree where the list says there are bytes mean the same. */
  lemma HeldSame(frags: seq<Frag>, h: u32, base: int, w: seq<u8>, w': seq<u8>, size: nat)
    requires Canonical(frags, h, size) && Extent(frags, h) <= |w| && Extent(frags, h) <= |w'|
    requires forall k :: 0 <= k < Extent(frags, h) ==> w[k] == w'[k]
    ensures Held(frags, h, base, w) == Held(frags, h, base, w')
  {
    HasWithin(frags, h, base, size);
    hide Extent, Canonical, Has;
  }

  /** The statements about offsets, as statements about stream positions. */
  lemma HasWithin(frags: seq<Frag>, h: u32, base: int, size: nat)
    requires Canonical(frags, h, size)
    ensures forall p :: Has(frags, h, base, p) ==> base <= p < base + Extent(frags, h)
  {
    CoveredWithinExtent(frags, h, size);
  }

  lemma HasAfterPut(was: seq<Frag>, now: seq<Frag>, h: u32, base: int, d: nat, len: nat)
    requires forall k :: Covered(now, h, k) <==> Covered(was, h, k) || d <= k < d + len
    ensures forall p :: Has(now, h, base, p) <==> Has(was, h, base, p) || base + d <= p < base + d + len
  {
    hide Covered;
  }

  lemma HasAfterDrop(frags: seq<Frag>, h: u32, base: int, n: nat, size: nat)
    requires size <= MAX_SIZE && Canonical(frags, h, size) && 0 < n <= FrontLen(frags, h)
    ensures forall p :: Has(DropFront(frags, n), Wrap(h + n), base + n, p) <==> base + n <= p && Has(frags, h, base, p)
  {
    hide Covered, DropFront, Wrap, Lo, Canonical, Extent;
    DropFrontWindow(frags, h, size, n);
    forall p ensures Has(DropFront(frags, n), Wrap(h + n), base + n, p) <==> base + n <= p && Has(frags, h, base, p) {
      assert p - (base + n) + n == p - base;
    }
  }

  /** Writing a segment at offset `d` and entering it in the list adds exactly its bytes. */
  lemma HeldPut(was: seq<Frag>, now: seq<Frag>, h: u32, base: int, w: seq<u8>, d: nat, payload: seq<u8>, size: nat)
    requires Canonical(was, h, size) && Extent(was, h) <= |w| && d + |payload| <= |w|
    requires forall k :: Covered(now, h, k) <==> Covered(was, h, k) || d <= k < d + |payload|
    ensures Held(now, h, base, Splice(w, d, payload)) == Held(was, h, base, w) + Payload(base + d, payload)
  {
    hide Extent, Covered, Canonical, Has;
    HasWithin(was, h, base, size);
    HasAfterPut(was, now, h, base, d, |payload|);
    SpliceBytes(w, d, payload, base);
    hide Splice, ByteAt;
  }

  lemma SpliceBytes(w: seq<u8>, d: nat, payload: seq<u8>, base: int)
    requires d + |payload| <= |w|
    ensures |Splice(w, d, payload)| == |w|
    ensures forall p :: base + d <= p < base + d + |payload| ==>
              ByteAt(Splice(w, d, payload), base, p) == ByteAt(payload, base + d, p)
    ensures forall p :: base <= p < base + |w| && !(base + d <= p < base + d + |payload|) ==>
              ByteAt(Splice(w, d, payload), base, p) == ByteAt(w, base, p)
  {
  }

  /** Dropping the front run by `n` drops the first `n` positions, whatever memory `w'` the rest is then read
      from; and if that memory is the old one `n` bytes further on, the rest keeps its bytes. */
  lemma HeldDrop(frags: seq<Frag>, h: u32, base: int, w: seq<u8>, w': seq<u8>, n: nat, size: nat)
    requires size <= MAX_SIZE && Canonical(frags, h, size) && 0 < n <= FrontLen(frags, h)
    requires Extent(frags, h) <= |w| && n <= |w| && Extent(frags, h) - n <= |w'|
    ensures Held(DropFront(frags, n), Wrap(h + n), base + n, w').Keys == Since(Held(frags, h, base, w), base + n).Keys
    ensures w' == w[n..] || DropFront(frags, n) == [] ==>
              Held(DropFront(frags, n), Wrap(h + n), base + n, w') == Since(Held(frags, h, base, w), base + n)
  {
    hide Extent, Canonical, Has, DropFront, Wrap;
    HasWithin(frags, h, base, size);
    HasAfterDrop(frags, h, base, n, size);
    if DropFront(frags, n) == [] { HasNothing(Wrap(h + n), base + n); }
  }

  lemma HasNothing(h: u32, base: int)
    ensures forall p :: !Has([], h, base, p)
  {
  }

  /** The list side of RBRemove. */
  lemma DropFrontLayout(frags: seq<Frag>, h: u32, size: nat, n: nat)
    requires size <= MAX_SIZE && Canonical(frags, h, size) && 0 < n <= FrontLen(frags, h)
    ensures frags != [] && n <= frags[0].len
    ensures DropFront(frags, n) == [] <==> |frags| == 1 && n == frags[0].len
    ensures Canonical(DropFront(frags, n), Wrap(h + n), size)
    ensures FrontLen(DropFront(frags, n), Wrap(h + n)) == FrontLen(frags, h) - n
    ensures n <= Extent(frags, h) && Extent(DropFront(frags, n), Wrap(h + n)) == Extent(frags, h) - n
    ensures Extent(frags, h) <= size
  {
    DropFrontWindow(frags, h, size, n);
    DropFrontLen(frags, h, size, n);
    FrontRun(frags, h, size);
    CoveredWithinExtent(frags, h, size);
  }

  /** A list that covers more reaches no further than it must, and its front run is no shorter. */
  lemma Grown(was: seq<Frag>, now: seq<Frag>, h: u32, size: nat, d: nat, len: nat)
    requires Canonical(was, h, size) && Canonical(now, h, size) && 0 < len
    requires forall k :: Covered(now, h, k) <==> Covered(was, h, k) || d <= k < d + len
    ensures Extent(now, h) <= Max(Extent(was, h), d + len)
    ensures FrontLen(was, h) <= FrontLen(now, h)
  {
    CoveredWithinExtent(was, h, size);
    CoveredWithinExtent(now, h, size);
    FrontRun(was, h, size);
    FrontRun(now, h, size);
  }

  lemma AfterStore(was: seq<Frag>, now: seq<Frag>, cur: Frag, h: u32, base: int, w: seq<u8>, payload: seq<u8>,
      size: nat)
    requires Canonical(was, h, size) && Canonical(now, h, size)
    requires 0 < |payload| == cur.len && Hi(cur, h) <= |w| && Extent(was, h) <= |w|
    requires forall k :: Covered(now, h, k) <==> Covered(was, h, k) || In(cur, h, k)
    ensures Held(now, h, base, Splice(w, Lo(cur, h), payload))
              == Held(was, h, base, w) + Payload(base + Lo(cur, h), payload)
    ensures Extent(now, h) <= Max(Extent(was, h), Hi(cur, h))
    ensures FrontLen(was, h) <= FrontLen(now, h)
  {
    hide Covered, Lo;
    HeldPut(was, now, h, base, w, Lo(cur, h), payload, size);
    Grown(was, now, h, size, Lo(cur, h), |payload|);
  }

  lemma OffsetIsDistance(start: u32, len: nat, h: u32)
    ensures Lo(Frag(start, len), h) == Wrap(start - h)
  {
  }

  class RingBuffer {
    const data: array<u8>
    // Whether RBRemove advances the head offset (the line `head_offset += len`, compiled out at
    // src/nty_buffer.c:644) or sets it (`head_offset = len`, the line in force, 646).
    const additive: bool
    const initSeq: u32
    var headOffset: nat
    var tailOffset: nat
    var mergedLen: nat
    var cumLen: nat
    var lastLen: nat
    var headSeq: u32
    var frags: seq<Frag>
    ghost var base: nat

    ghost predicate Valid()
      reads this
    {
      && data.Length <= MAX_SIZE
      && Canonical(frags, headSeq, data.Length)
      && headSeq == Wrap(initSeq + base)
      && mergedLen == FrontLen(frags, headSeq)
      && cumLen == base + mergedLen
      && Extent(frags, headSeq) <= lastLen
      && headOffset + Extent(frags, headSeq) <= tailOffset <= data.Length
      && headOffset + lastLen <= data.Length
    }

    /** What the buffer holds, by stream position. */
    ghost function Bytes(): map<int, u8>
      requires Valid()
      reads this, data
    {
      Held(frags, headSeq, base, data[headOffset..])
    }

    constructor (size: nat, initSeq: u32, additive: bool)
      requires size <= MAX_SIZE
      ensures Valid() && fresh(data) && data.Length == size
      ensures Bytes() == map[] && base == 0 && headOffset == 0 && mergedLen == 0
      ensures headSeq == initSeq == this.initSeq && this.additive == additive
    {
      data := new u8[size](_ => 0);
      this.additive, this.initSeq := additive, initSeq;
      headOffset, tailOffset, mergedLen, cumLen, lastLen := 0, 0, 0, 0, 0;
      headSeq, frags, base := initSeq, [], 0;
    }

    /** The memmove of src/nty_buffer.c:557-562. */
    method Compact()
      requires Valid()
      modifies this`headOffset, this`tailOffset, data
      ensures Valid() && headOffset == 0 && tailOffset == old(tailOffset) - old(headOffset)
      ensures Bytes() == old(Bytes())
    {
      ghost var w := data[headOffset..];
      forall k | 0 <= k < lastLen { data[k] := data[headOffset + k]; }
      tailOffset := tailOffset - headOffset;
      headOffset := 0;
      HeldSame(frags, headSeq, base, w, data[headOffset..], data.Length);
    }

    /** mergedLen counts exactly the bytes that can be read: they are all there, and the next one is not. */
    lemma MergedRun()
      requires Valid()
      ensures forall p :: base <= p < base + mergedLen ==> p in Bytes()
      ensures base + mergedLen !in Bytes()
      ensures forall p :: p in Bytes() ==> base <= p < base + data.Length
      ensures mergedLen <= lastLen && mergedLen <= data.Length
    {
      FrontRun(frags, headSeq, data.Length);
      CoveredWithinExtent(frags, headSeq, data.Length);
      hide Canonical, Extent, FrontLen, Covered;
      assert forall p :: base <= p < base + mergedLen ==> Has(frags, headSeq, base, p);
      assert !Has(frags, headSeq, base, base + mergedLen);
    }

    /** RBPut (src/nty_buffer.c:535-632).  The precondition is what the window check of
        nty_tcp_process_payload leaves possible: `cur_seq - head_seq + len`, computed as a C int, does not
        overflow unless the segment starts before the head. */
    method Put(payload: seq<u8>, curSeq: u32) returns (ret: int)
      requires Valid()
      requires var d := Wrap(curSeq - headSeq); d + |payload| < TWO31 || TWO31 < d
      modifies this`headOffset, this`tailOffset, this`mergedLen, this`cumLen, this`lastLen, this`frags, data
      ensures Valid()
      ensures ret == PutResult(Wrap(curSeq - headSeq), |payload|, data.Length)
      ensures Bytes() == if 0 < ret then old(Bytes()) + Payload(base + Wrap(curSeq - headSeq), payload)
                else old(Bytes())
      ensures var compacts := 0 < ret && data.Length <= old(headOffset) + Wrap(curSeq - headSeq) + |payload|;
              headOffset == if compacts then 0 else old(headOffset)
      ensures old(mergedLen) <= mergedLen
    {
      hide Canonical, Extent, Covered, Lo, FrontLen, GetMinSeq, Held, Payload;
      if |payload| == 0 { return 0; }
      AntipodesOrLater(headSeq, curSeq);
      if GetMinSeq(headSeq, curSeq) != headSeq { return 0; }
      var putx := Wrap(curSeq - headSeq);
      var endOff := putx + |payload|;
      if data.Length < endOff { return -2; }
      if data.Length <= headOffset + endOff { Compact(); }
      Store(payload, curSeq, putx);
      ret := |payload|;
    }

    /** The memcpy of src/nty_buffer.c:564-569; `w` is the memory from the head on, as it was. */
    method CopyIn(payload: seq<u8>, putx: nat) returns (ghost w: seq<u8>)
      requires headOffset <= tailOffset && headOffset + putx + |payload| <= data.Length
      modifies data, this`tailOffset, this`lastLen
      ensures w == old(data[headOffset..])
      ensures data[headOffset..] == Splice(w, putx, payload)
      ensures tailOffset == Max(old(tailOffset), headOffset + putx + |payload|)
      ensures lastLen == tailOffset - headOffset
    {
      w := data[headOffset..];
      forall k | 0 <= k < |payload| { data[headOffset + putx + k] := payload[k]; }
      if tailOffset < headOffset + putx + |payload| { tailOffset := headOffset + putx + |payload|; }
      lastLen := tailOffset - headOffset;
    }

    /** Lists the new bytes and lengthens the front run (src/nty_buffer.c:571-629). */
    method Enter(cur: Frag, payload: seq<u8>, ghost w: seq<u8>)
      requires data.Length <= MAX_SIZE && Canonical(frags, headSeq, data.Length)
      requires mergedLen == FrontLen(frags, headSeq) && headOffset <= data.Length
      requires 0 < |payload| == cur.len && Hi(cur, headSeq) <= |w| == data.Length - headOffset
      requires Extent(frags, headSeq) <= |w|
      requires data[headOffset..] == Splice(w, Lo(cur, headSeq), payload)
      modifies this`mergedLen, this`cumLen, this`frags
      ensures Canonical(frags, headSeq, data.Length)
      ensures Held(frags, headSeq, base, data[headOffset..])
           == Held(old(frags), headSeq, base, w) + Payload(base + Lo(cur, headSeq), payload)
      ensures Extent(frags, headSeq) <= Max(Extent(old(frags), headSeq), Hi(cur, headSeq))
      ensures old(mergedLen) <= mergedLen == FrontLen(frags, headSeq)
      ensures cumLen - mergedLen == old(cumLen - mergedLen)
    {
      hide Covered, Lo, Held, Payload, Canonical, Extent, Splice;
      ghost var was := frags;
      frags := InsertFragment(frags, cur, headSeq, data.Length);
      AfterStore(was, frags, cur, headSeq, base, w, payload, data.Length);
      if headSeq == frags[0].start {
        cumLen := cumLen + frags[0].len - mergedLen;
        mergedLen := frags[0].len;
      }
    }

    /** The rest of RBPut, once there is room behind the head (src/nty_buffer.c:564-629). */
    method Store(payload: seq<u8>, curSeq: u32, putx: nat)
      requires Valid() && 0 < |payload|
      requires putx == Wrap(curSeq - headSeq) && headOffset + putx + |payload| <= data.Length
      modifies this`tailOffset, this`mergedLen, this`cumLen, this`lastLen, this`frags, data
      ensures Valid()
      ensures Bytes() == old(Bytes()) + Payload(base + putx, payload)
      ensures old(mergedLen) <= mergedLen
    {
      hide Lo, Held, Payload, Canonical, Extent, FrontLen, Splice;
      OffsetIsDistance(curSeq, |payload|, headSeq);
      ghost var w := CopyIn(payload, putx);
      Enter(Frag(curSeq, |payload|), payload, w);
    }

    /** Whether RBRemove(n) leaves the remaining bytes where they are read afterwards: with the additive head offset
        always, and as the code is written if the offset is 0 or the call takes the whole of the only fragment.
        RemoveAsWrittenIff shows that nothing less will do. */
    predicate KeepsPlace(n: nat)
      reads `headOffset, `frags
    {
      additive || n == 0 || headOffset == 0 || (|frags| == 1 && n == frags[0].len)
    }

    /** RBRemove (src/nty_buffer.c:634-671).  The buffer loses exactly its first `n` positions if they can be taken
        without misplacing the rest. */
    method Remove(len: nat) returns (n: nat)
      requires Valid()
      modifies this`headOffset, this`mergedLen, this`lastLen, this`headSeq, this`frags, this`base
      ensures Valid()
      ensures n == Min(len, old(mergedLen))
      ensures base == old(base) + n && mergedLen == old(mergedLen) - n
      ensures headOffset == (if n == 0 then old(headOffset) else if additive then old(headOffset) + n else n)
      ensures Bytes().Keys == Since(old(Bytes()), base).Keys
      ensures old(KeepsPlace(n)) ==> Bytes() == Since(old(Bytes()), base)
    {
      hide Canonical, Extent, DropFront, FrontLen, Wrap, Held, Since;
      n := if mergedLen < len then mergedLen else len;
      if n == 0 {
        SinceStart();
        return;
      }
      DropFrontLayout(frags, headSeq, data.Length, n);
      HeldDrop(frags, headSeq, base, data[headOffset..], data[if additive then headOffset + n else n..], n,
          data.Length);
      WrapAdd(initSeq + base, n);
      headOffset := if additive then headOffset + n else n;
      headSeq := Wrap(headSeq + n);
      base := base + n;
      mergedLen := mergedLen - n;
      lastLen := lastLen - n;
      frags := UnlinkFront(frags, n);
    }

    lemma SinceStart()
      requires Valid()
      ensures Since(Bytes(), base) == Bytes()
    {
      hide Canonical, Extent, FrontLen, Has;
    }

    method UnlinkFront(fctx: seq<Frag>, n: nat) returns (rest: seq<Frag>)
      requires fctx != [] && 0 < n <= fctx[0].len
      ensures rest == DropFront(fctx, n)
    {
      if n == fctx[0].len {
        rest := fctx[1..];
      } else if n < fctx[0].len {
        rest := fctx[0 := Frag(Wrap(fctx[0].start + n), fctx[0].len - n)];
      } else {
        assert false;  // the assertion of src/nty_buffer.c:667
      }
    }
  }

  /** RBPut's verdict on `len` bytes at distance `d` from the head: 0 for an empty segment or one that starts
      before the head, -2 for one that does not fit, else the length. */
  function PutResult(d: u32, len: nat, size: nat): int {
    if len == 0 || TWO31 < d then 0 else if size < d + len then -2 else len
  }

  lemma AntipodesOrLater(h: u32, s: u32)
    requires Wrap(s - h) != TWO31
    ensures GetMinSeq(h, s) == h <==> Wrap(s - h) < TWO31
  {
  }

  /** Whether RBRemove(n) as written, from head offset `h0`, leaves every remaining byte where it reads it. */
  ghost predicate KeepsBytesAsWritten(frags: seq<Frag>, h: u32, base: int, memory: seq<u8>, h0: nat, n: nat)
    requires frags != [] && n <= frags[0].len && n <= |memory| && h0 <= |memory|
  {
    Held(DropFront(frags, n), Wrap(h + n), base + n, memory[n..]) == Since(Held(frags, h, base, memory[h0..]), base + n)
  }

  /** `head_offset = len` is right, whatever the bytes are, exactly when the head offset was 0 or the call takes
      the whole of the only fragment. */
  lemma RemoveAsWrittenIff(frags: seq<Frag>, h: u32, base: int, size: nat, h0: nat, n: nat)
    requires size <= MAX_SIZE && Canonical(frags, h, size) && 0 < n <= FrontLen(frags, h)
    requires h0 + Extent(frags, h) <= size
    ensures frags != [] && n <= frags[0].len && n <= size
    ensures (forall memory: seq<u8> | |memory| == size :: KeepsBytesAsWritten(frags, h, base, memory, h0, n))
       <==> h0 == 0 || (|frags| == 1 && n == frags[0].len)
  {
    DropFrontLayout(frags, h, size, n);
    if h0 == 0 || (|frags| == 1 && n == frags[0].len) {
      forall memory: seq<u8> | |memory| == size ensures KeepsBytesAsWritten(frags, h, base, memory, h0, n) {
        HeldDrop(frags, h, base, memory[h0..], memory[n..], n, size);
      }
    } else {
      var memory := Misplaced(frags, h, base, size, h0, n);
      assert !KeepsBytesAsWritten(frags, h, base, memory, h0, n);
    }
  }

  /** Memory that tells the two places of the last byte apart. */
  lemma Misplaced(frags: seq<Frag>, h: u32, base: int, size: nat, h0: nat, n: nat) returns (memory: seq<u8>)
    requires size <= MAX_SIZE && Canonical(frags, h, size) && 0 < n <= FrontLen(frags, h)
    requires 0 < h0 && h0 + Extent(frags, h) <= size && (|frags| > 1 || n < frags[0].len)
    ensures frags != [] && n <= frags[0].len && n <= size && |memory| == size
    ensures !KeepsBytesAsWritten(frags, h, base, memory, h0, n)
  {
    hide Canonical, Extent, Lo, Wrap, FrontLen, Covered;
    DropFrontLayout(frags, h, size, n);
    CoveredWithinExtent(frags, h, size);
    var e := Extent(frags, h) - 1;
    memory := seq(size, i => if i == h0 + e then 1 else 0);
    LastByteStays(frags, h, base, size, n);
    assert Since(Held(frags, h, base, memory[h0..]), base + n)[base + e] == 1;
    assert Held(DropFront(frags, n), Wrap(h + n), base + n, memory[n..])[base + e] == 0;
  }

  lemma LastByteStays(frags: seq<Frag>, h: u32, base: int, size: nat, n: nat)
    requires size <= MAX_SIZE && Canonical(frags, h, size) && 0 < n <= FrontLen(frags, h)
    requires |frags| > 1 || n < frags[0].len
    ensures frags != [] && n <= frags[0].len && n < Extent(frags, h)
    ensures Has(frags, h, base, base + Extent(frags, h) - 1)
    ensures Has(DropFront(frags, n), Wrap(h + n), base + n, base + Extent(frags, h) - 1)
  {
    DropFrontLayout(frags, h, size, n);
    CoveredWithinExtent(frags, h, size);
    CoveredWithinExtent(DropFront(frags, n), Wrap(h + n), size);
    hide Canonical, Lo, Wrap, FrontLen, Covered;
    HasAfterDrop(frags, h, base, n, size);
  }

  /** Memory behind the head pointer is what Bytes() reads. */
  lemma BytesAreMemory(buf: RingBuffer, p: int)
    requires buf.Valid() && p in buf.Bytes()
    ensures 0 <= buf.headOffset + (p - buf.base) < buf.data.Length
    ensures buf.Bytes()[p] == buf.data[buf.headOffset + (p - buf.base)]
  {
    hide Canonical, Extent, FrontLen, Has;
  }

  method FourBytes() returns (buf: RingBuffer)
    ensures fresh(buf) && buf.Valid() && !buf.additive && buf.mergedLen == 4
    ensures buf.data.Length == 8 && buf.data[..4] == [10, 11, 12, 13]
  {
    hide Canonical, Extent, FrontLen, Held, Wrap, Payload, RingBuffer.Valid, RingBuffer.Bytes;
    buf := new RingBuffer(8, 0, false);
    WrapZero();
    assert Wrap(0 - buf.headSeq) == 0;
    var ret := buf.Put([10, 11, 12, 13], 0);
    FourInMemory(buf);
  }

  lemma FourInMemory(buf: RingBuffer)
    requires buf.Valid() && buf.base == buf.headOffset == 0 && buf.data.Length == 8
    requires buf.Bytes() == map[] + Payload(0, [10, 11, 12, 13])
    ensures buf.mergedLen == 4 && buf.data[..4] == [10, 11, 12, 13]
  {
    hide Canonical, Extent, FrontLen, Held, Wrap;
    buf.MergedRun();
    assert forall p :: p in buf.Bytes() <==> 0 <= p < 4;
    assert 4 !in buf.Bytes();
    BytesAreMemory(buf, 0);
    BytesAreMemory(buf, 1);
    BytesAreMemory(buf, 2);
    BytesAreMemory(buf, 3);
  }

  lemma WrapZero()
    ensures Wrap(0) == 0
  {
  }

  /** A run that shows it: four bytes arrive in order, then the user reads two, one and one.  The third read starts
      at offset 1 instead of 3 and hands out the second byte again. */
  method AsWrittenRepeatsAByte() returns (read: seq<u8>)
    ensures read == [10, 11, 12, 11]
  {
    hide Canonical, Extent, FrontLen, Held, Wrap;
    var buf := FourBytes();
    var memory := buf.data[..4];
    var n := buf.Remove(2);
    read := memory[..2] + buf.data[buf.headOffset..buf.headOffset + 1];
    n := buf.Remove(1);
    read := read + buf.data[buf.headOffset..buf.headOffset + 1];
    assert buf.data[..4] == memory;
  }
}
