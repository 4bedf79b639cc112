/** The receive side of a connection: nty_tcp_process_payload (src/nty_tcp.c:1268-1352) and nty_copy_to_user
    (src/nty_api.c:87-125) over the reassembly buffer.

    The first half is the meaning: a machine over unbounded stream positions, whose runs deliver a prefix of the
    peer's stream.  The second half is the code, proved to take the machine's steps. */
module ReceivePath {
  import opened SeqArith
  import opened Fragments
  import opened ReceiveBuffer

  const TCP_INITIAL_WINDOW: nat := 14600
  const MAX_PAYLOAD: nat := 65535

  // ---------------------------------------------------------------- the machine

  /** `base` is the position of the buffer's head, `bytes` what it holds, `delivered` what the user was handed;
      `discarding` says that bytes are thrown away because the application has closed. */
  datatype RecvState = RecvState(base: int, bytes: map<int, u8>, delivered: seq<u8>, discarding: bool)

  datatype RecvEvent =
    | Segment(pos: int, payload: seq<u8>, accepted: bool, finWait: bool, dropped: nat)
    | Read(n: nat)

  ghost predicate Present(bytes: map<int, u8>, from: int, n: nat) {
    forall p :: from <= p < from + n ==> p in bytes
  }

  /** `n` bytes can be read from position `from` on, and no more. */
  ghost predicate IsRun(bytes: map<int, u8>, from: int, n: nat) {
    Present(bytes, from, n) && from + n !in bytes
  }

  ghost function Taken(bytes: map<int, u8>, from: int, n: nat): (s: seq<u8>)
    requires Present(bytes, from, n)
    ensures |s| == n && forall i :: 0 <= i < n ==> s[i] == bytes[from + i]
  {
    seq(n, i requires 0 <= i < n => bytes[from + i])
  }

  function Stored(s: RecvState, e: RecvEvent): map<int, u8>
    requires e.Segment?
  {
    if e.accepted then s.bytes + Payload(e.pos, e.payload) else s.bytes
  }

  ghost predicate Enabled(s: RecvState, e: RecvEvent) {
    match e
    case Segment(pos, payload, accepted, finWait, dropped) =>
      && (accepted ==> s.base <= pos)
      && (s.discarding ==> finWait)
      && (if finWait then IsRun(Stored(s, e), s.base, dropped) else dropped == 0)
    case Read(n) => Present(s.bytes, s.base, n)
  }

  ghost function Absorbed(s: RecvState, e: RecvEvent): RecvState
    requires e.Segment?
  {
    RecvState(s.base + e.dropped, Since(Stored(s, e), s.base + e.dropped), s.delivered, s.discarding || e.finWait)
  }

  ghost function Step(s: RecvState, e: RecvEvent): RecvState
    requires Enabled(s, e)
  {
    match e
    case Segment(_, _, _, _, _) => Absorbed(s, e)
    case Read(n) =>
      RecvState(s.base + n, Since(s.bytes, s.base + n), s.delivered + Taken(s.bytes, s.base, n), s.discarding)
  }

  ghost predicate Legal(s: RecvState, es: seq<RecvEvent>)
    decreases |es|
  {
    es != [] ==> Enabled(s, es[0]) && Legal(Step(s, es[0]), es[1..])
  }

  ghost function Run(s: RecvState, es: seq<RecvEvent>): RecvState
    requires Legal(s, es)
    decreases |es|
  {
    if es == [] then s else Run(Step(s, es[0]), es[1..])
  }

  /** `r` is `s`, except that once the bytes are thrown away anyway they may differ. */
  ghost predicate Like(r: RecvState, s: RecvState) {
    && r.base == s.base && r.delivered == s.delivered && r.discarding == s.discarding
    && r.bytes.Keys == s.bytes.Keys && (!s.discarding ==> r.bytes == s.bytes)
  }

  lemma LikeStep(r: RecvState, s: RecvState, e: RecvEvent)
    requires Like(r, s) && Enabled(s, e) && (e.Read? ==> !s.discarding)
    ensures Enabled(r, e) && Like(Step(r, e), Step(s, e))
  {
    if e.Segment? {
      assert Stored(r, e).Keys == Stored(s, e).Keys;
      assert forall p :: p in Stored(r, e) <==> p in Stored(s, e);
    }
  }

  lemma {:induction false} RunSnoc(s: RecvState, es: seq<RecvEvent>, e: RecvEvent)
    requires Legal(s, es) && Enabled(Run(s, es), e)
    ensures Legal(s, es + [e]) && Run(s, es + [e]) == Step(Run(s, es), e)
    decreases |es|
  {
    hide Enabled, Step;
    var all := es + [e];
    if es == [] {
      assert all[1..] == [];
    } else {
      assert all[0] == es[0] && all[1..] == es[1..] + [e];
      RunSnoc(Step(s, es[0]), es[1..], e);
    }
  }

  /** How far the readable run reaches after a segment: exactly to the segment's end if it joins the run and nothing
      beyond it was waiting. */
  lemma RunReaches(s: RecvState, e: RecvEvent, m: nat, now: nat)
    requires e.Segment? && (e.accepted ==> s.base <= e.pos)
    requires IsRun(s.bytes, s.base, m) && IsRun(Stored(s, e), s.base, now) && s.base + m <= e.pos + |e.payload|
    ensures s.base + now == e.pos + |e.payload| <==>
              e.pos + |e.payload| == s.base + m || (e.accepted && e.pos <= s.base + m
                  && e.pos + |e.payload| !in s.bytes)
  {
    var end := e.pos + |e.payload|;
    assert s.base + m !in s.bytes && s.base + now !in Stored(s, e);
    assert forall p :: p in Stored(s, e) <==> p in s.bytes || (e.accepted && e.pos <= p < end);
    if end > s.base + m && e.accepted && e.pos <= s.base + m {
      assert Present(Stored(s, e), s.base, end - s.base);
    }
  }

  /** How many bytes can be read from position `from` on. */
  function Readable(bytes: map<int, u8>, from: int): nat
    decreases |bytes|
  {
    if from in bytes then 1 + Readable(bytes - {from}, from + 1) else 0
  }

  lemma {:induction false} ReadableIs(bytes: map<int, u8>, from: int, n: nat)
    requires IsRun(bytes, from, n)
    ensures Readable(bytes, from) == n
    decreases n
  {
    if 0 < n {
      assert from in bytes;
      ReadableIs(bytes - {from}, from + 1, n - 1);
    }
  }

  /** The state without the values that nobody reads rightly any more. */
  function Settled(s: RecvState, misread: bool): RecvState {
    if s.discarding || misread then s.(bytes := map p | p in s.bytes :: 0) else s
  }

  lemma SameSettled(raw: RecvState, now: RecvState, e: RecvEvent, misread: bool)
    requires e.Segment? && Like(now, Absorbed(raw, e))
    ensures Settled(now, misread) == Settled(Absorbed(Settled(raw, misread), e), misread)
  {
    var was := Settled(raw, misread);
    assert Stored(was, e).Keys == Stored(raw, e).Keys;
    assert Absorbed(was, e).bytes.Keys == Absorbed(raw, e).bytes.Keys == now.bytes.Keys;
    assert Settled(now, misread).bytes == Settled(Absorbed(was, e), misread).bytes;
  }

  /** How many bytes were readable after a segment, before they were dropped, told from what is readable now. */
  lemma SameReadable(was: RecvState, raw: RecvState, now: RecvState, e: RecvEvent, m: nat)
    requires e.Segment? && was.bytes.Keys == raw.bytes.Keys && was.base == raw.base
    requires Enabled(raw, e) && Like(now, Absorbed(raw, e)) && IsRun(now.bytes, now.base, m)
    requires e.finWait ==> m == 0
    ensures Readable(Stored(was, e), was.base) == e.dropped + m
  {
    assert Stored(was, e).Keys == Stored(raw, e).Keys;
    if !e.finWait {
      assert forall p :: now.base <= p ==> (p in now.bytes <==> p in Stored(was, e));
    }
    ReadableIs(Stored(was, e), was.base, e.dropped + m);
  }

  /** The receive variables of a connection over stream positions. */
  datatype Received = Received(st: RecvState, next: int, nxt: u32, wnd: int, started: bool, fins: nat,
    needWndAdv: bool, onAckq: bool, misread: bool, log: seq<RecvEvent>)

  /** The position of the segment's last byte and one: the one at the distance from rcv_nxt, taken as int32_t. */
  function EndOf(r: Received, len: nat, sq: u32): int {
    r.next + Signed(Wrap(Wrap(sq + len) - r.nxt))
  }

  function Inside(r: Received, len: nat, sq: u32): bool {
    r.next <= EndOf(r, len, sq) <= r.next + r.wnd
  }

  /** The step of the machine that a segment in the window takes; all that can be read is dropped if `finWait`. */
  function Entry(r: Received, payload: seq<u8>, sq: u32, finWait: bool, size: nat): RecvEvent {
    var pos := EndOf(r, |payload|, sq) - |payload|;
    var e := Segment(pos, payload, 0 < |payload| && r.st.base <= pos
        && pos + |payload| <= r.st.base + size, finWait, 0);
    if finWait then e.(dropped := Readable(Stored(r.st, e), r.st.base)) else e
  }

  /** What nty_tcp_process_payload makes of a segment. */
  ghost function Heard(r: Received, payload: seq<u8>, sq: u32, finWait: bool, size: nat, init: u32): Received {
    if !Inside(r, |payload|, sq) then r
    else
      var e := Entry(r, payload, sq, finWait, size);
      var next := r.st.base + Readable(Stored(r.st, e), r.st.base);
      r.(st := Settled(Absorbed(r.st, e), r.misread), next := next, nxt := Wrap(init + next),
         wnd := if finWait then size else size - (next - r.st.base), started := true, log := r.log + [e])
  }

  /** The peer's FIN is counted. */
  function FinHeard(r: Received): Received {
    r.(nxt := Wrap(r.nxt + 1), fins := 1)
  }

  /** A read of at most `len` bytes hands over `user`; `misread` says whether it, or one before, misplaced what was
      left. The window is announced again, through the ack queue, if it was announced as closed. */
  function ReadBy(r: Received, len: int, user: seq<u8>, misread: bool, size: nat, effMss: nat): Received {
    var n := Min(r.next - r.st.base, len);
    if n <= 0 then r
    else
      var base := r.st.base + n;
      var wnd := size - (r.next - base);
      var tell := r.needWndAdv && effMss < wnd;
      r.(st := Settled(RecvState(base, Since(r.st.bytes, base), r.st.delivered + user, r.st.discarding), misread),
         wnd := wnd, started := true, misread := misread, log := r.log + [Read(n)],
         onAckq := r.onAckq || tell, needWndAdv := r.needWndAdv && !(tell && !r.onAckq))
  }

  /** A window that rounds to 0 was told the peer. */
  function WindowTold(r: Received): Received {
    r.(needWndAdv := r.needWndAdv || r.wnd / 128 == 0)
  }

  /** The bytes handed over are the next ones, unless an earlier read misplaced them. */
  ghost predicate HandsOver(r: Received, len: int, user: seq<u8>, misread: bool) {
    var n := Max(Min(r.next - r.st.base, len), 0);
    && |user| == n && (r.misread ==> misread) && (n == 0 ==> misread == r.misread)
    && (!r.misread ==> forall i :: 0 <= i < n ==> r.st.base + i in r.st.bytes && user[i] == r.st.bytes[r.st.base + i])
  }

  ghost function Fresh(): RecvState {
    RecvState(0, map[], [], false)
  }

  /** The segment's bytes are the peer's bytes at its position. */
  ghost predicate Honest(e: RecvEvent, stream: int -> u8) {
    e.Segment? ==> forall i :: 0 <= i < |e.payload| ==> e.payload[i] == stream(e.pos + i)
  }

  ghost predicate Agree(bytes: map<int, u8>, stream: int -> u8) {
    forall p :: p in bytes ==> bytes[p] == stream(p)
  }

  ghost predicate Faithful(s: RecvState, stream: int -> u8) {
    && Agree(s.bytes, stream)
    && (forall i :: 0 <= i < |s.delivered| ==> s.delivered[i] == stream(i))
    && (if s.discarding then s.base !in s.bytes else s.base == |s.delivered|)
  }

  lemma StepKeepsFaithful(s: RecvState, e: RecvEvent, stream: int -> u8)
    requires Faithful(s, stream) && Enabled(s, e) && Honest(e, stream)
    ensures Faithful(Step(s, e), stream)
    ensures s.delivered <= Step(s, e).delivered
  {
    if e.Segment? {
      StoredAgrees(s, e, stream);
    }
  }

  lemma StoredAgrees(s: RecvState, e: RecvEvent, stream: int -> u8)
    requires e.Segment? && Honest(e, stream) && Agree(s.bytes, stream)
    ensures Agree(Stored(s, e), stream)
  {
    if e.accepted {
      forall p | p in Payload(e.pos, e.payload) ensures Payload(e.pos, e.payload)[p] == stream(p) {
        assert e.payload[p - e.pos] == stream(e.pos + (p - e.pos));
      }
    }
  }

  /** Receive fidelity.  Whatever the order, overlap and repetition of the peer's segments, and however they
      interleave with reads, the user has been handed a prefix of the peer's stream: each byte once and in order. */
  lemma {:induction false} RunDeliversPrefix(s: RecvState, es: seq<RecvEvent>, stream: int -> u8)
    requires Faithful(s, stream) && Legal(s, es)
    requires forall i :: 0 <= i < |es| ==> Honest(es[i], stream)
    ensures Faithful(Run(s, es), stream)
    ensures s.delivered <= Run(s, es).delivered
    decreases |es|
  {
    if es != [] {
      assert Honest(es[0], stream);
      StepKeepsFaithful(s, es[0], stream);
      forall i | 0 <= i < |es[1..]| ensures Honest(es[1..][i], stream) { assert es[1..][i] == es[i + 1]; }
      RunDeliversPrefix(Step(s, es[0]), es[1..], stream);
    }
  }

  /** The fresh state is faithful to every stream. */
  lemma FreshIsFaithful(stream: int -> u8)
    ensures Faithful(Fresh(), stream)
  {
  }

  // ---------------------------------------------------------------- the code

  /** The history gains at most one entry: a segment's payload, at a position that carries its number. */
  ghost predicate Entered(was: seq<RecvEvent>, now: seq<RecvEvent>, init: u32, payload: seq<u8>, sq: u32) {
    && was <= now && |now| <= |was| + 1
    && (|now| > |was| ==> now[|was|].Segment? && now[|was|].payload == payload && Wrap(init + now[|was|].pos) == sq)
  }

  /** The receive half of nty_tcp_stream. */
  class Receiver {
    const buf: RingBuffer
    const irs: u32
    var rcvNxt: u32
    var rcvWnd: nat
    // rcv_wnd leaves its initial value of 14600 when the first segment in the window is processed, or at the
    // first read
    ghost var started: bool
    var needWndAdv: bool
    var onAckq: bool
    // how often rcv_nxt was advanced for the peer's FIN
    ghost var finsConsumed: nat
    ghost var delivered: seq<u8>
    ghost var discarding: bool
    // some read moved the bytes behind it to the wrong place (see RingBuffer.KeepsPlace)
    ghost var misread: bool
    // the machine's steps so far
    ghost var log: seq<RecvEvent>

    ghost predicate Valid()
      reads `rcvNxt, `rcvWnd, `started, `finsConsumed, `discarding, buf
    {
      && buf.Valid() && buf.initSeq == Wrap(irs + 1)
      && finsConsumed <= 1
      && rcvNxt == Wrap(buf.initSeq + NextPos() + finsConsumed)
      && (if started then rcvWnd == buf.data.Length - buf.mergedLen
          else rcvWnd == TCP_INITIAL_WINDOW && buf.mergedLen == 0)
      && (discarding ==> buf.mergedLen == 0)
    }

    /** The position of the first byte that has not arrived. */
    ghost function NextPos(): int
      reads buf
    {
      buf.base + buf.mergedLen
    }

    /** The right edge of the window offered to the peer: rcv_nxt + rcv_wnd as a position. */
    ghost function Edge(): int
      reads `rcvWnd, buf
    {
      NextPos() + rcvWnd
    }

    ghost function State(): RecvState
      requires Valid()
      reads `rcvNxt, `rcvWnd, `started, `finsConsumed, `discarding, `delivered, buf, buf.data
    {
      RecvState(buf.base, buf.Bytes(), delivered, discarding)
    }

    ghost function View(): Received
      requires Valid()
      reads this, buf, buf.data
    {
      Received(Settled(State(), misread), NextPos(), rcvNxt, rcvWnd, started, finsConsumed, needWndAdv, onAckq, misread,
        log)
    }

    /** The code has taken exactly the machine's steps, unless a read misplaced what was left.  What is thrown away
        after our close may be misplaced too, but then nobody reads it. */
    ghost predicate Logged()
      requires Valid()
      reads `rcvNxt, `rcvWnd, `started, `finsConsumed, `discarding, `delivered, `misread, `log, buf, buf.data
    {
      && (buf.additive ==> !misread)
      && (!misread ==> Legal(Fresh(), log) && Like(Run(Fresh(), log), State()))
    }

    /** Receive fidelity of the code: if every segment that arrived carried the peer's bytes and no read misplaced
        what was left, the user was handed a prefix of the peer's stream. */
    lemma DeliveredIsPrefix(stream: int -> u8)
      requires Valid() && Logged() && !misread
      requires forall i :: 0 <= i < |log| ==> Honest(log[i], stream)
      ensures forall i :: 0 <= i < |delivered| ==> delivered[i] == stream(i)
    {
      FreshIsFaithful(stream);
      RunDeliversPrefix(Fresh(), log, stream);
    }

    lemma LogStep(was: RecvState, events: seq<RecvEvent>, e: RecvEvent)
      requires Legal(Fresh(), events) && Like(Run(Fresh(), events), was) && Enabled(was, e)
      requires e.Read? ==> !was.discarding
      ensures Legal(Fresh(), events + [e]) && Like(Run(Fresh(), events + [e]), Step(was, e))
    {
      hide Enabled, Step, Like;
      LikeStep(Run(Fresh(), events), was, e);
      RunSnoc(Fresh(), events, e);
    }

    constructor (size: nat, irs: u32, additive: bool)
      requires size <= MAX_SIZE
      ensures Valid() && fresh(buf) && fresh(buf.data)
      ensures State() == Fresh() && Logged() && log == [] && finsConsumed == 0 && !started && !misread && !onAckq
                && !needWndAdv
      ensures this.irs == irs && rcvNxt == Wrap(irs + 1) && buf.data.Length == size && buf.additive == additive
    {
      this.irs := irs;
      buf := new RingBuffer(size, Wrap(irs + 1), additive);
      rcvNxt, rcvWnd := Wrap(irs + 1), TCP_INITIAL_WINDOW;
      needWndAdv, onAckq := false, false;
      started, finsConsumed, delivered, discarding, misread, log := false, 0, [], false, false, [];
    }

    /** Before the first segment the window is the initial one. */
    lemma Starts()
      requires Valid() && !started
      ensures NextPos() == buf.base && rcvWnd == TCP_INITIAL_WINDOW && buf.mergedLen == 0
    {
    }

    /** The stream position of a segment's first byte: the one its last byte's distance from rcv_nxt, taken as
        int32_t, gives. */
    ghost function PosOf(sq: u32, len: nat): int
      reads this, buf
    {
      NextPos() + Signed(Wrap(Wrap(sq + len) - rcvNxt)) - len
    }

    /** That position does carry the sequence number `sq`, and the code's two window tests and RBPut's distance
        are plain comparisons of positions. */
    lemma Positions(sq: u32, len: nat)
      requires Valid() && finsConsumed == 0 && len <= MAX_PAYLOAD
      ensures Wrap(buf.initSeq + PosOf(sq, len)) == sq
      ensures SeqLt(Wrap(sq + len), rcvNxt) <==> PosOf(sq, len) + len < NextPos()
      ensures PosOf(sq, len) + len >= NextPos() ==>
                (SeqGt(Wrap(sq + len), Wrap(rcvNxt + rcvWnd)) <==> Edge() < PosOf(sq, len) + len)
    {
      PositionArith(buf.initSeq, NextPos(), rcvNxt, sq, len, rcvWnd);
    }

    lemma Distance(sq: u32, len: nat)
      requires Valid() && finsConsumed == 0 && len <= MAX_PAYLOAD
      requires NextPos() <= PosOf(sq, len) + len <= Edge()
      ensures var d := Wrap(sq - buf.headSeq);
              && (d + len < TWO31 || TWO31 < d)
              && (TWO31 < d <==> PosOf(sq, len) < buf.base)
              && (buf.base <= PosOf(sq, len) ==> d == PosOf(sq, len) - buf.base)
    {
      hide Wrap, Canonical, FrontLen, Extent, Held, SeqLt, SeqGt, Signed, Has;
      buf.MergedRun();
      Positions(sq, len);
      DistanceArith(buf.initSeq, PosOf(sq, len), buf.base, len);
    }

    /** The machine's name for what a segment in the window does. */
    ghost function Arrival(payload: seq<u8>, sq: u32, finWait: bool, dropped: nat): RecvEvent
      reads this, buf
    {
      var pos := PosOf(sq, |payload|);
      Segment(pos, payload, 0 < |payload| && buf.base <= pos
          && pos + |payload| <= buf.base + buf.data.Length, finWait, dropped)
    }

    ghost predicate InWindow(sq: u32, len: nat)
      reads this, buf
    {
      NextPos() <= PosOf(sq, len) + len <= Edge()
    }

    /** The segment ends where the received stream will: it reaches the end of what can be read, and nothing beyond
        it was waiting. */
    ghost predicate Completes(payload: seq<u8>, sq: u32)
      requires Valid()
      reads this, buf, buf.data
    {
      var pos := PosOf(sq, |payload|);
      var end := pos + |payload|;
      end == NextPos()
      || (NextPos() < end <= Edge() && Arrival(payload, sq, false, 0).accepted && pos <= NextPos()
          && end !in buf.Bytes())
    }

    /** An empty segment that carries the next number passes nty_tcp_validseq. */
    lemma NextFits()
      requires Valid()
      ensures SeqBetween(rcvNxt, rcvNxt, Wrap(rcvNxt + rcvWnd))
    {
      hide Wrap, Canonical, FrontLen, Extent;
      WrapSmall(rcvNxt);
      SeqOrder(rcvNxt, rcvNxt);
      SeqOrder(rcvNxt, rcvNxt + rcvWnd);
    }

    /** A segment that is not in the window completes nothing, and neither does an empty one. */
    lemma OutsideCompletes(payload: seq<u8>, sq: u32)
      requires Valid() && finsConsumed == 0 && |payload| <= MAX_PAYLOAD
      requires payload == [] || !InWindow(sq, |payload|)
      ensures Completes(payload, sq) <==> Wrap(sq + |payload|) == rcvNxt
    {
      hide Wrap, Canonical, FrontLen, Extent, Held;
      Positions(sq, |payload|);
      EndsAt(buf.initSeq, PosOf(sq, |payload|), sq, |payload|, NextPos());
    }

    /** RBPut as nty_tcp_process_payload calls it, in terms of stream positions. */
    method Absorb(payload: seq<u8>, sq: u32)
      requires Valid() && finsConsumed == 0 && |payload| <= MAX_PAYLOAD && InWindow(sq, |payload|)
      modifies buf, buf.data
      ensures buf.Valid() && buf.base == old(buf.base) && buf.headSeq == old(buf.headSeq)
      ensures buf.Bytes() == Stored(old(State()), old(Arrival(payload, sq, false, 0)))
      ensures old(buf.mergedLen) <= buf.mergedLen
      ensures buf.headOffset == old(buf.headOffset) || buf.headOffset == 0
    {
      hide Wrap, Held, Canonical, FrontLen, Extent, Payload;
      Distance(sq, |payload|);
      var put := buf.Put(payload, sq);
    }

    /** The bookkeeping after RBPut: rcv_nxt and rcv_wnd follow the buffer (src/nty_tcp.c:1315-1330). */
    method Advance(finWait: bool, ghost next: int) returns (ret: int, ghost dropped: nat)
      requires buf.Valid() && buf.initSeq == Wrap(irs + 1) && finsConsumed == 0 && (discarding ==> finWait)
      requires rcvNxt == Wrap(buf.initSeq + next) && buf.base <= next <= NextPos()
      modifies this`rcvNxt, this`rcvWnd, this`started, this`discarding, buf
      ensures Valid() && finsConsumed == 0 && delivered == old(delivered) && started
      ensures discarding == (old(discarding) || finWait)
      ensures if finWait then IsRun(old(buf.Bytes()), old(buf.base), dropped) else dropped == 0
      ensures buf.base == old(buf.base) + dropped && NextPos() == old(NextPos())
      ensures buf.Bytes().Keys == Since(old(buf.Bytes()), buf.base).Keys
      ensures !finWait ==> buf.Bytes() == Since(old(buf.Bytes()), buf.base)
      ensures 0 <= ret <= 1 && (ret == 1 <==> next < NextPos())
    {
      hide Wrap, Held, Canonical, FrontLen, Extent, Since;
      buf.MergedRun();
      var prev := rcvNxt;
      dropped := 0;
      if finWait {
        dropped := buf.Remove(buf.mergedLen);
        discarding := true;
      } else {
        buf.SinceStart();
      }
      WrapAdd(buf.initSeq + buf.base, buf.mergedLen);
      rcvNxt := Wrap(buf.headSeq + buf.mergedLen);
      rcvWnd := buf.data.Length - buf.mergedLen;
      started := true;
      SeqOrder(buf.initSeq + NextPos(), buf.initSeq + next);
      ret := if SeqLeq(rcvNxt, prev) then 0 else 1;
    }

    /** The part of nty_tcp_process_payload behind the two window tests. */
    method Accept(payload: seq<u8>, sq: u32, finWait: bool) returns (ret: int, ghost dropped: nat)
      requires Valid() && finsConsumed == 0 && |payload| <= MAX_PAYLOAD && (discarding ==> finWait)
                && InWindow(sq, |payload|)
      modifies this`rcvNxt, this`rcvWnd, this`started, this`discarding, buf, buf.data
      ensures Valid() && finsConsumed == 0 && started && discarding == (old(discarding) || finWait)
      ensures Enabled(old(State()), old(Arrival(payload, sq, finWait, dropped)))
      ensures Like(State(), Step(old(State()), old(Arrival(payload, sq, finWait, dropped))))
      ensures old(NextPos()) <= NextPos() <= old(NextPos()) + MAX_SIZE
      ensures 0 <= ret <= 1 && (ret == 1 <==> old(NextPos()) < NextPos())
      ensures NextPos() == old(PosOf(sq, |payload|)) + |payload| <==> old(Completes(payload, sq))
      ensures old(started) ==> old(Edge()) <= Edge()
      ensures Edge() - old(Edge()) == dropped + buf.data.Length - old(buf.mergedLen) - old(rcvWnd)
      ensures !finWait ==> dropped == 0
    {
      hide Wrap, Held, Canonical, FrontLen, Extent, Since, SeqLt, SeqGt;
      ghost var next := NextPos();
      ReadableRun();
      Absorb(payload, sq);
      ReadableRun();
      RunReaches(old(State()), old(Arrival(payload, sq, false, 0)), old(buf.mergedLen), buf.mergedLen);
      ret, dropped := Advance(finWait, next);
    }

    /** What can be read is a run of bytes and ends where one is missing. */
    lemma ReadableRun()
      requires buf.Valid()
      ensures IsRun(buf.Bytes(), buf.base, buf.mergedLen) && buf.mergedLen <= MAX_SIZE
    {
      hide Wrap, Held, Canonical, FrontLen, Extent;
      buf.MergedRun();
    }

    /** What Arrival and InWindow say in terms of the view. */
    lemma Entering(payload: seq<u8>, sq: u32, finWait: bool)
      requires Valid()
      ensures Inside(View(), |payload|, sq) <==> InWindow(sq, |payload|)
      ensures forall dropped: nat ::
                Arrival(payload, sq, finWait, dropped)
                == Entry(View(), payload, sq, finWait, buf.data.Length).(dropped := dropped)
      ensures Entry(View(), payload, sq, finWait, buf.data.Length).Segment?
    {
      hide Wrap, Held, Canonical, FrontLen, Extent, Signed;
    }

    /** The step taken, in terms of the view. */
    lemma Hears(was: Received, raw: RecvState, e: RecvEvent, sq: u32)
      requires Valid() && e.Segment? && Inside(was, |e.payload|, sq) && was.st == Settled(raw, was.misread)
      requires Enabled(raw, e) && Like(State(), Absorbed(raw, e)) && (!e.finWait ==> e.dropped == 0)
      requires Entry(was, e.payload, sq, e.finWait, buf.data.Length).Segment?
      requires e == Entry(was, e.payload, sq, e.finWait, buf.data.Length).(dropped := e.dropped)
      requires started && misread == was.misread && finsConsumed == was.fins == 0
      requires needWndAdv == was.needWndAdv && onAckq == was.onAckq && log == was.log + [e]
      ensures View() == Heard(was, e.payload, sq, e.finWait, buf.data.Length, buf.initSeq)
    {
      hide Wrap, Held, Canonical, FrontLen, Extent, EndOf, Payload, Readable, Receiver.State, Since, IsRun;
      SameSettled(raw, State(), e, misread);
      ReadableRun();
      StateIs();
      SameReadable(was.st, raw, State(), e, buf.mergedLen);
    }

    lemma StateIs()
      requires Valid()
      ensures State() == RecvState(buf.base, buf.Bytes(), delivered, discarding)
      ensures discarding ==> buf.mergedLen == 0
    {
      hide Canonical, FrontLen, Extent, Held;
    }

    /** head_seq + merged_len (src/nty_tcp.c:2388) is the number of the first missing byte. */
    lemma HeadIs()
      requires Valid()
      ensures Wrap(buf.headSeq + buf.mergedLen) == Wrap(buf.initSeq + NextPos())
    {
      hide Wrap, Held, Canonical, FrontLen, Extent;
      WrapAdd(buf.initSeq + buf.base, buf.mergedLen);
    }

    lemma ViewIs()
      requires Valid()
      ensures var r := View();
              && r.st == Settled(State(), misread) && r.next == NextPos() && r.nxt == rcvNxt && r.wnd == rcvWnd
              && r.started == started && r.fins == finsConsumed && r.misread == misread && r.log == log
              && r.needWndAdv == needWndAdv && r.onAckq == onAckq
    {
    }

    /** nty_tcp_process_payload.  `finWait` says that the state is FIN_WAIT_1 or FIN_WAIT_2, where everything that
        can be read is thrown away. */
    method ProcessPayload(payload: seq<u8>, sq: u32, finWait: bool) returns (ret: int, ghost dropped: nat)
      requires Valid() && finsConsumed == 0 && |payload| <= MAX_PAYLOAD && (discarding ==> finWait)
      modifies this`rcvNxt, this`rcvWnd, this`started, this`discarding, this`log, buf, buf.data
      ensures Valid() && finsConsumed == 0 && delivered == old(delivered) && misread == old(misread)
      ensures log == old(log) + if old(InWindow(sq, |payload|)) then [old(Arrival(payload, sq, finWait, dropped))]
                else []
      ensures Entered(old(log), log, buf.initSeq, payload, sq)
      ensures discarding == (old(discarding) || (finWait && old(InWindow(sq, |payload|))))
      ensures old(Logged()) ==> Logged()
      ensures started == (old(started) || old(InWindow(sq, |payload|)))
      ensures !old(InWindow(sq, |payload|)) ==>
                (State() == old(State()) && ret == 0 && rcvNxt == old(rcvNxt) && rcvWnd == old(rcvWnd))
      ensures old(InWindow(sq, |payload|)) ==>
                (Enabled(old(State()), old(Arrival(payload, sq, finWait, dropped)))
                && Like(State(), Step(old(State()), old(Arrival(payload, sq, finWait, dropped)))))
      ensures old(NextPos()) <= NextPos() && 0 <= ret <= 1 && (ret == 1 <==> old(NextPos()) < NextPos())
      ensures rcvNxt == Wrap(sq + |payload|) <==> old(Completes(payload, sq))
      ensures old(started) ==> old(Edge()) <= Edge()
      ensures old(InWindow(sq, |payload|)) ==>
                Edge() - old(Edge()) == dropped + buf.data.Length - old(buf.mergedLen) - old(rcvWnd)
      ensures !finWait ==> dropped == 0
    {
      hide Wrap, Held, Canonical, FrontLen, Extent, Since, SeqLt, SeqGt, Legal, Run, Receiver.PosOf;
      Positions(sq, |payload|);
      if !InWindow(sq, |payload|) { OutsideCompletes(payload, sq); }
      if SeqLt(Wrap(sq + |payload|), rcvNxt) { return 0, 0; }
      if SeqGt(Wrap(sq + |payload|), Wrap(rcvNxt + rcvWnd)) { return 0, 0; }
      ret, dropped := Accept(payload, sq, finWait);
      EndsAt(buf.initSeq, old(PosOf(sq, |payload|)), sq, |payload|, NextPos());
      log := log + [old(Arrival(payload, sq, finWait, dropped))];
      if !misread && old(Logged()) { LogStep(old(State()), old(log), old(Arrival(payload, sq, finWait, dropped))); }
    }

    /** The same in terms of the view. */
    method Hear(payload: seq<u8>, sq: u32, finWait: bool) returns (ret: int)
      requires Valid() && Logged() && finsConsumed == 0 && |payload| <= MAX_PAYLOAD && (discarding ==> finWait)
      modifies this`rcvNxt, this`rcvWnd, this`started, this`discarding, this`log, buf, buf.data
      ensures Valid() && Logged() && finsConsumed == 0 && delivered == old(delivered) && misread == old(misread)
      ensures View() == Heard(old(View()), payload, sq, finWait, buf.data.Length, buf.initSeq)
      ensures Entered(old(log), log, buf.initSeq, payload, sq)
      ensures old(NextPos()) <= NextPos() && 0 <= ret <= 1 && (ret == 1 <==> old(NextPos()) < NextPos())
      ensures rcvNxt == Wrap(sq + |payload|) <==> old(Completes(payload, sq))
      ensures old(started) ==> started && old(Edge()) <= Edge()
      ensures discarding ==> old(discarding) || finWait
    {
      hide Wrap, Receiver.Valid, Receiver.Logged, Receiver.View, Receiver.State, Receiver.Completes,
        Receiver.InWindow, Entry, Heard, Like, Enabled, Entered;
      Entering(payload, sq, finWait);
      ghost var was, raw, inside := View(), State(), InWindow(sq, |payload|);
      ViewIs();
      ghost var dropped;
      ret, dropped := ProcessPayload(payload, sq, finWait);
      ViewIs();
      if inside {
        Hears(was, raw, old(Arrival(payload, sq, finWait, dropped)), sq);
      } else {
        NotHeard(was, payload, sq, finWait);
      }
    }

    lemma NotHeard(was: Received, payload: seq<u8>, sq: u32, finWait: bool)
      requires !Inside(was, |payload|, sq)
      ensures Heard(was, payload, sq, finWait, buf.data.Length, buf.initSeq) == was
    {
    }

    /** The copy, RBRemove and the new window (src/nty_api.c:104-107). */
    method HandOver(n: nat) returns (user: seq<u8>)
      requires Valid() && 0 < n <= buf.mergedLen
      modifies this`rcvWnd, this`started, this`delivered, this`misread, this`log, buf
      ensures Valid() && started && delivered == old(delivered) + user && |user| == n
      ensures misread == (old(misread) || !old(buf.KeepsPlace(n)))
      ensures log == old(log) + [Read(n)] && rcvWnd == buf.data.Length - buf.mergedLen
      ensures old(Logged()) ==> Logged()
      ensures Present(old(buf.Bytes()), old(buf.base), n) && user == Taken(old(buf.Bytes()), old(buf.base), n)
      ensures old(buf.KeepsPlace(n)) ==> State() == Step(old(State()), Read(n))
      ensures buf.base == old(buf.base) + n && buf.Bytes().Keys == Since(old(buf.Bytes()), buf.base).Keys
      ensures NextPos() == old(NextPos()) && buf.mergedLen == old(buf.mergedLen) - n
    {
      hide Wrap, Held, Canonical, FrontLen, Extent, Since, Legal, Run;
      user := CopyOut(n);
      misread := misread || !buf.KeepsPlace(n);
      var removed := buf.Remove(n);
      rcvWnd := buf.data.Length - buf.mergedLen;
      started, delivered, log := true, delivered + user, log + [Read(n)];
      if !misread && old(Logged()) { LogStep(old(State()), old(log), Read(n)); }
    }

    /** Announces a reopened window (src/nty_api.c:112-122). */
    method AnnounceWindow(effMss: nat)
      modifies this`needWndAdv, this`onAckq
      ensures onAckq == (old(onAckq) || (old(needWndAdv) && effMss < rcvWnd))
      ensures needWndAdv == (old(needWndAdv) && !(effMss < rcvWnd && !old(onAckq)))
    {
      if needWndAdv {
        if rcvWnd > effMss {
          if !onAckq { onAckq, needWndAdv := true, false; }
        }
      }
    }

    /** nty_copy_to_user: hands over at most `len` readable bytes and reopens the window; a window that had been
        announced as closed is announced again, through the ack queue, once it exceeds one segment. */
    method CopyToUser(len: int, effMss: nat) returns (ret: int, user: seq<u8>)
      requires Valid()
      modifies this`rcvWnd, this`started, this`delivered, this`misread, this`needWndAdv, this`onAckq, this`log, buf
      ensures Valid() && ret == (if Min(old(buf.mergedLen), len) < 0 then -1 else Min(old(buf.mergedLen), len))
      ensures delivered == old(delivered) + user && |user| == Max(ret, 0)
      ensures log == old(log) + if 0 < ret then [Read(ret)] else []
      ensures old(Logged()) ==> Logged()
      ensures Present(old(buf.Bytes()), old(buf.base), |user|) && user == Taken(old(buf.Bytes()), old(buf.base), |user|)
      ensures misread == (old(misread) || !old(buf.KeepsPlace(|user|)))
      ensures 0 < |user| && old(buf.KeepsPlace(|user|)) ==> State() == Step(old(State()), Read(|user|))
      ensures user == [] ==> State() == old(State()) && rcvWnd == old(rcvWnd)
      ensures user != [] ==> rcvWnd == buf.data.Length - (NextPos() - buf.base) && buf.base == old(buf.base) + |user|
      ensures user != [] ==> buf.Bytes().Keys == Since(old(buf.Bytes()), buf.base).Keys
      ensures NextPos() == old(NextPos()) && started == (old(started) || 0 < ret)
      ensures old(started) ==> Edge() == old(Edge()) + |user|
      ensures onAckq == (old(onAckq) || (0 < ret && old(needWndAdv) && effMss < rcvWnd))
      ensures needWndAdv == (old(needWndAdv) && !(0 < ret && effMss < rcvWnd && !old(onAckq)))
    {
      hide Wrap, Held, Canonical, FrontLen, Extent, Legal, Run;
      var copylen := Min(buf.mergedLen, len);
      if copylen <= 0 {
        return if copylen < 0 then -1 else 0, [];
      }
      user := HandOver(copylen);
      AnnounceWindow(effMss);
      ret := copylen;
    }

    /** What the read did, in terms of the view. */
    lemma Gave(was: Received, raw: RecvState, len: int, user: seq<u8>, effMss: nat)
      requires Valid() && user != [] && |user| == Min(was.next - was.st.base, len)
                && was.st == Settled(raw, was.misread)
      requires State().base == raw.base + |user| && State().delivered == raw.delivered + user
      requires State().discarding == raw.discarding && (was.misread ==> misread)
      requires State().bytes.Keys == Since(raw.bytes, State().base).Keys
      requires !misread ==> State().bytes == Since(raw.bytes, State().base)
      requires rcvWnd == buf.data.Length - (NextPos() - buf.base) && started && log == was.log + [Read(|user|)]
      requires NextPos() == was.next && rcvNxt == was.nxt && finsConsumed == was.fins
      requires onAckq == (was.onAckq || (was.needWndAdv && effMss < rcvWnd))
      requires needWndAdv == (was.needWndAdv && !(effMss < rcvWnd && !was.onAckq))
      ensures View() == ReadBy(was, len, user, misread, buf.data.Length, effMss)
    {
      hide Wrap, Held, Canonical, FrontLen, Extent, Receiver.State;
      ViewIs();
      StateIs();
      var now := RecvState(was.st.base + |user|, Since(was.st.bytes, was.st.base + |user|), was.st.delivered + user,
        was.st.discarding);
      assert now.bytes.Keys == Since(raw.bytes, State().base).Keys;
      assert Settled(State(), misread).bytes == Settled(now, misread).bytes;
    }

    lemma NotGiven(was: Received, len: int, effMss: nat)
      requires Valid() && was.st == Settled(State(), misread) && Min(was.next - was.st.base, len) <= 0
      requires NextPos() == was.next && rcvNxt == was.nxt && rcvWnd == was.wnd && started == was.started
      requires finsConsumed == was.fins && onAckq == was.onAckq && needWndAdv == was.needWndAdv && log == was.log
      requires misread == was.misread
      ensures View() == ReadBy(was, len, [], misread, buf.data.Length, effMss)
    {
    }

    /** The bytes handed over, in terms of the view. */
    lemma Given(was: Received, raw: RecvState, len: int, user: seq<u8>)
      requires was.st == Settled(raw, was.misread) && |user| == Max(Min(was.next - was.st.base, len), 0)
      requires Present(raw.bytes, raw.base, |user|) && user == Taken(raw.bytes, raw.base, |user|)
      requires (raw.discarding ==> was.next == was.st.base) && (was.misread ==> misread)
      requires user == [] ==> misread == was.misread
      ensures HandsOver(was, len, user, misread)
    {
    }

    /** The same in terms of the view. */
    method Give(len: int, effMss: nat) returns (ret: int, user: seq<u8>)
      requires Valid() && Logged()
      modifies this`rcvWnd, this`started, this`delivered, this`misread, this`needWndAdv, this`onAckq, this`log, buf
      ensures Valid() && Logged() && delivered == old(delivered) + user && |user| == Max(ret, 0)
      ensures ret == (if Min(old(buf.mergedLen), len) < 0 then -1 else Min(old(buf.mergedLen), len))
      ensures HandsOver(old(View()), len, user, misread)
      ensures View() == ReadBy(old(View()), len, user, misread, buf.data.Length, effMss)
      ensures log == old(log) + if 0 < ret then [Read(ret)] else []
      ensures misread == (old(misread) || !old(buf.KeepsPlace(|user|)))
      ensures NextPos() == old(NextPos()) && (old(started) ==> started && old(Edge()) <= Edge())
    {
      hide Wrap, Receiver.Valid, Receiver.Logged, Receiver.View, Receiver.State, ReadBy, HandsOver, Since, Taken,
        Present;
      ViewIs();
      StateIs();
      ghost var was, raw := View(), State();
      ret, user := CopyToUser(len, effMss);
      StateIs();
      Given(was, raw, len, user);
      if user != [] { Gave(was, raw, len, user, effMss); } else { NotGiven(was, len, effMss); }
    }

    /** The memcpy of src/nty_api.c:104. */
    method CopyOut(n: nat) returns (user: seq<u8>)
      requires Valid() && n <= buf.mergedLen
      ensures Present(buf.Bytes(), buf.base, n) && user == Taken(buf.Bytes(), buf.base, n)
    {
      hide Wrap, Held, Canonical, FrontLen, Extent;
      buf.MergedRun();
      if 0 < n { BytesAreMemory(buf, buf.base + n - 1); }
      user := buf.data[buf.headOffset..buf.headOffset + n];
      forall i | 0 <= i < n ensures user[i] == buf.Bytes()[buf.base + i] { BytesAreMemory(buf, buf.base + i); }
    }

    /** A segment with an ack tells the peer our window; a window that rounds to 0 is to be announced again
        (src/nty_tcp.c:576-579; the shift is TCP_DEFAULT_WSCALE, 7). */
    method NoteWindow()
      requires Valid()
      modifies `needWndAdv
      ensures Valid() && View() == WindowTold(old(View())) && (old(Logged()) ==> Logged())
    {
      hide Held, Canonical, FrontLen, Extent, Legal, Run;
      if rcvWnd / 128 == 0 { needWndAdv := true; }
    }

    /** The stream leaves the ack queue. */
    method LeaveAckq()
      requires Valid()
      modifies `onAckq
      ensures Valid() && !onAckq && View() == old(View()).(onAckq := false) && (old(Logged()) ==> Logged())
    {
      hide Held, Canonical, FrontLen, Extent, Legal, Run;
      onAckq := false;
    }

    /** The `rcv_nxt ++` of the FIN handling (src/nty_tcp.c:1004, 1133, 1176). */
    method ConsumeFin()
      requires Valid() && finsConsumed == 0
      modifies this`rcvNxt, this`finsConsumed
      ensures Valid() && finsConsumed == 1 && rcvNxt == Wrap(old(rcvNxt) + 1)
      ensures State() == old(State()) && NextPos() == old(NextPos()) && (old(Logged()) ==> Logged())
      ensures View() == FinHeard(old(View()))
    {
      hide Held, Canonical, FrontLen, Extent;
      WrapAdd(buf.initSeq + NextPos(), 1);
      rcvNxt := Wrap(rcvNxt + 1);
      finsConsumed := 1;
    }
  }

  /** The first segment draws the right edge of the window back from 14600 to the size of the buffer. */
  method EdgeRetreats() returns (r: Receiver, ghost before: int)
    ensures before == 14600 && r.Valid() && r.Edge() == 8192
  {
    hide Wrap, Receiver.Valid, Receiver.Logged, Receiver.View, Canonical, FrontLen, Extent, Held;
    r := new Receiver(8192, 100, false);
    before := r.Edge();
    r.Starts();
    Small();
    assert r.InWindow(101, 1);
    var ret, dropped := r.ProcessPayload([7], 101, false);
  }

  lemma Small()
    ensures Wrap(101) == 101 && Wrap(102) == 102 && Wrap(1) == 1
  {
  }

  lemma PositionArith(init: u32, next: int, nxt: u32, sq: u32, len: nat, wnd: nat)
    requires nxt == Wrap(init + next) && len <= MAX_PAYLOAD && wnd < TWO31
    ensures var x := Signed(Wrap(Wrap(sq + len) - nxt));
            && Wrap(init + next + x - len) == sq
            && (SeqLt(Wrap(sq + len), nxt) <==> x < 0)
            && (x >= 0 ==> (SeqGt(Wrap(sq + len), Wrap(nxt + wnd)) <==> wnd < x))
  {
    hide Wrap;
    var end := Wrap(sq + len);
    var x := Signed(Wrap(end - nxt));
    SignedLeads(end, nxt);
    WrapAdd(init + next, x);
    WrapCongruence(init + next + x, sq + len, 0 - len);
    WrapSmall(sq);
    if x >= 0 {
      WrapAdd(init + next, wnd);
      SeqOrder(init + next + x, init + next + wnd);
    }
  }

  /** Two ends less than 2^32 apart are the same if their numbers are. */
  lemma EndsAt(init: u32, pos: int, sq: u32, len: nat, next: int)
    requires Wrap(init + pos) == sq && -TWO32 < pos + len - next < TWO32
    ensures Wrap(sq + len) == Wrap(init + next) <==> pos + len == next
  {
    WrapAdd(init + pos, len);
    WrapInjective(init + pos + len, init + next);
  }

  lemma WrapSmall(sq: u32)
    ensures Wrap(sq) == sq
  {
  }

  lemma DistanceArith(init: u32, pos: int, base: int, len: nat)
    requires base <= pos + len && pos + len - base <= TWO31 - 2 && len <= MAX_PAYLOAD
    ensures var d := Wrap(Wrap(init + pos) - Wrap(init + base));
            && (d + len < TWO31 || TWO31 < d)
            && (TWO31 < d <==> pos < base)
            && (base <= pos ==> d == pos - base)
  {
    WrapSub(init + pos, init + base);
  }
}
