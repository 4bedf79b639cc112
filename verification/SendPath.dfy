/** The send side of a connection: nty_copy_from_user (src/nty_api.c:127-164), nty_tcp_flush_sendbuffer and the
    data path of nty_tcp_send_tcppkt (src/nty_tcp.c:501-615, 2072-2166), nty_tcp_process_ack
    (src/nty_tcp.c:1398-1569) and the rollback of HandleRTO (src/nty_timer.c:206-344).

    Ghost fields give the unbounded positions behind the 32-bit numbers: position 0 is the first data byte, sent
    under the number iss + 1; the SYN has position -1. */
module SendPath {
  import opened SeqArith
  import opened SendBuffers

  const TCP_MAX_RTX: nat := 16
  // the option block of every segment without SYN: two NOPs and a timestamp (src/nty_tcp.c:131-145)
  const ACK_OPTLEN: nat := 12
  // segment lengths pass through an int16_t (src/nty_tcp.c:2100); the buffer has 8192 bytes
  const MAX_SEND_BUFFER: nat := 32767

  /** eff_mss, by which nty_tcp_process_ack divides. */
  type Divisor = m: u16 | 0 < m witness 1

  /** A data segment put on the wire: the position of its first byte, its sequence number and payload, and, as
      they were then, the position of snd_una and the window min(cwnd, peer_wnd). */
  datatype Emission = Emission(at: int, sq: u32, payload: seq<u8>, una: int, window: nat)

  /** The sequence number of position `p`. */
  function SeqOf(iss: u32, p: int): u32 { Wrap(iss + 1 + p) }

  /** The segment carries exactly the bytes the application wrote at its position, under that position's sequence
      number, and ends inside the window. */
  ghost predicate Right(e: Emission, written: seq<u8>, iss: u32) {
    && 0 <= e.at && e.at + |e.payload| <= |written|
    && e.payload == written[e.at..e.at + |e.payload|]
    && e.sq == SeqOf(iss, e.at)
    && e.una <= e.at && e.at + |e.payload| - e.una <= e.window
  }

  ghost predicate AllRight(emitted: seq<Emission>, written: seq<u8>, iss: u32) {
    forall i :: 0 <= i < |emitted| ==> Right(emitted[i], written, iss)
  }

  /** What was right stays right when the application writes more. */
  lemma WritingKeepsRight(emitted: seq<Emission>, written: seq<u8>, more: seq<u8>, iss: u32)
    requires AllRight(emitted, written, iss)
    ensures AllRight(emitted, written + more, iss)
  {
    forall i | 0 <= i < |emitted| ensures Right(emitted[i], written + more, iss) {
      var e := emitted[i];
      assert Right(e, written, iss);
      assert (written + more)[e.at..e.at + |e.payload|] == written[e.at..e.at + |e.payload|];
    }
  }

  /** The segments cover the positions `from` up to `to` without gap or overlap, in order. */
  ghost predicate Consecutive(es: seq<Emission>, from: int, to: int) {
    if es == [] then from == to
    else es[|es| - 1].at + |es[|es| - 1].payload| == to && Consecutive(es[..|es| - 1], from, es[|es| - 1].at)
  }

  lemma ConsecutiveSnoc(es: seq<Emission>, from: int, e: Emission)
    requires Consecutive(es, from, e.at)
    ensures Consecutive(es + [e], from, e.at + |e.payload|)
  {
    assert (es + [e])[..|es|] == es;
  }

  /** What a flush comes to: the number of packets, or an error, and where snd_nxt ends.  Unsent data reaches from
      `nxt` to `end`; `window` shrinks with every segment and is compared, all the same, with everything in flight. */
  function Plan(packets: int, nxt: int, una: int, end: int, window: int, mss: u16, room: nat): (r: (int, int))
    decreases end - nxt
  {
    var len := Min(Min(end - nxt, Wrap(mss - ACK_OPTLEN)), window);
    if len <= 0 then (packets, nxt)
    else if nxt - una + len > window then (-3, nxt)
    else if len > mss + ACK_OPTLEN then (-1, nxt)
    else if room == 0 then (-2, nxt)
    else Plan(packets + 1, nxt + len, una, end, window - len, mss, room - 1)
  }

  /** One turn of the plan. */
  lemma PlanTurn(packets: int, nxt: int, una: int, end: int, window: int, mss: u16, room: nat, len: int)
    requires len == Min(Min(end - nxt, Wrap(mss - ACK_OPTLEN)), window)
    ensures Plan(packets, nxt, una, end, window, mss, room) ==
            if len <= 0 then (packets, nxt)
            else if nxt - una + len > window then (-3, nxt)
            else if len > mss + ACK_OPTLEN then (-1, nxt)
            else if room == 0 then (-2, nxt)
            else Plan(packets + 1, nxt + len, una, end, window - len, mss, room - 1)
  {
  }

  /** Why a flush leaves data behind.  What is left of the window after `now - nxt` bytes is too small for a segment
      (0); a segment, cut to what is left, would not fit there together with what is in flight (-3); the device has no
      frame (-2); or the segment size is smaller than the options (-1). */
  lemma {:induction false} PlanStops(packets: nat, nxt: int, una: int, end: int, window: nat, mss: u16, room: nat)
    requires una <= nxt <= end
    ensures var (ret, now) := Plan(packets, nxt, una, end, window, mss, room);
            var left := window - (now - nxt);
            var len := Min(Min(end - now, Wrap(mss - ACK_OPTLEN)), left);
            && nxt <= now <= end && 0 <= left
            && (ret == -3 ==> 0 < len && now - una + len > left)
            && (ret == -2 ==> now < end)
            && (ret == -1 ==> now < end && mss < ACK_OPTLEN)
            && (0 <= ret ==> now == end || left == 0 || mss == ACK_OPTLEN)
            && (ret in {-1, -2, -3} || packets <= ret <= packets + room)
    decreases end - nxt
  {
    var len := Min(Min(end - nxt, Wrap(mss - ACK_OPTLEN)), window);
    if 0 < len && nxt - una + len <= window && len <= mss + ACK_OPTLEN && 0 < room {
      PlanStops(packets + 1, nxt + len, una, end, window - len, mss, room - 1);
    }
  }

  /** So a flush sends hardly more than half of the window: with `nxt - una` bytes in flight, at most half of what the
      rest of the window and one segment come to. */
  lemma {:induction false} HalfWindow(packets: nat, nxt: int, una: int, end: int, window: nat, mss: u16, room: nat)
    requires una <= nxt <= end
    ensures var now := Plan(packets, nxt, una, end, window, mss, room).1;
            now == nxt || 2 * (now - nxt) <= window - (nxt - una) + Wrap(mss - ACK_OPTLEN)
    decreases end - nxt
  {
    var len := Min(Min(end - nxt, Wrap(mss - ACK_OPTLEN)), window);
    if 0 < len && nxt - una + len <= window && len <= mss + ACK_OPTLEN && 0 < room {
      HalfWindow(packets + 1, nxt + len, una, end, window - len, mss, room - 1);
    }
  }

  /** 5000 bytes, a window of 2000 and nothing in flight: one segment of 1448 bytes goes out, and the flush fails. */
  lemma HalfWindowWasted(room: nat)
    requires 0 < room
    ensures Plan(0, 0, 0, 5000, 2000, 1460, room) == (-3, 1448)
  {
    assert Wrap(1460 - ACK_OPTLEN) == 1448;
    assert Plan(1, 1448, 0, 5000, 552, 1460, room - 1) == (-3, 1448);
  }

  /** The send variables of a connection over stream positions: the machine the code is compared with. */
  datatype SendState = SendState(
    buffered: bool, written: seq<u8>, head: int, una: int, nxt: int, fss: u32, finSent: bool, fins: seq<u32>,
    peerWnd: u32, wl1: u32, wl2: u32, dupAcks: u8, lastAckSeq: u32, cwnd: u32, ssthresh: u32, nrtx: nat,
    onSendq: bool, onSendList: bool, onRto: bool)

  /** The segment carries newer window information (src/nty_tcp.c:1430-1434). */
  predicate Newer(wl1: u32, wl2: u32, peerWnd: u32, sq: u32, ack: u32, cwindow: u32) {
    SeqLt(wl1, sq) || (wl1 == sq && SeqLt(wl2, ack)) || (wl2 == ack && cwindow > peerWnd)
  }

  /** The segment repeats the last ack (src/nty_tcp.c:1453-1462). */
  predicate Repeats(s: SendState, iss: u32, sq: u32, ack: u32, cwindow: u32, payloadLen: nat) {
    && SeqLt(ack, SeqOf(iss, s.nxt)) && ack == s.lastAckSeq && payloadLen == 0
    && (if Newer(s.wl1, s.wl2, s.peerWnd, sq, ack, cwindow) then Wrap(ack + cwindow) else Wrap(s.wl2 + s.peerWnd))
       == Wrap(s.peerWnd + s.wl1)
  }

  class Sender {
    const iss: u32
    const size: nat
    var sndbuf: SendBuffer?
    var sndUna: u32
    var sndNxt: u32
    var sndWnd: nat
    var peerWnd: u32
    var cwnd: u32
    var ssthresh: u32
    const mss: u16
    const effMss: Divisor
    var nrtx: nat
    var fss: u32
    var isFinSent: bool
    var onSendq: bool
    var onSendList: bool
    var onRto: bool
    var dupAcks: u8
    var lastAckSeq: u32
    var sndWl1: u32
    var sndWl2: u32
    ghost var written: seq<u8>
    ghost var unaPos: int
    ghost var nxtPos: int
    ghost var emitted: seq<Emission>
    // the sequence numbers under which FINs went out
    ghost var fins: seq<u32>

    ghost function Footprint(): set<object>
      reads `sndbuf
    {
      {this} + if sndbuf == null then {} else {sndbuf, sndbuf.data}
    }

    /** How many bytes have been acknowledged and removed: the position of the buffer's head. */
    ghost function Head(): nat
      reads `sndbuf, sndbuf
    {
      if sndbuf == null then 0 else sndbuf.removed
    }

    ghost predicate Buffered()
      reads `sndbuf, `written, sndbuf, if sndbuf == null then {} else {sndbuf.data}
    {
      if sndbuf == null then written == []
      else
        && sndbuf.Valid() && sndbuf.initSeq == SeqOf(iss, 0) && sndbuf.data.Length == size
        && sndbuf.removed + sndbuf.len == |written|
        && sndbuf.Contents() == written[sndbuf.removed..]
    }

    ghost predicate Valid()
      reads `sndbuf, `written, `sndWnd, `sndUna, `unaPos, `sndNxt, `nxtPos, `emitted, `isFinSent, `fins
      reads sndbuf, if sndbuf == null then {} else {sndbuf.data}
    {
      && size <= MAX_SEND_BUFFER
      && Buffered()
      && sndWnd == size - (|written| - Head())
      && sndUna == SeqOf(iss, unaPos) && sndNxt == SeqOf(iss, nxtPos)
      && AllRight(emitted, written, iss)
      && (isFinSent || nxtPos <= |written|)
      && (isFinSent <==> fins != [])
    }

    /** Every FIN that went out has the number that follows the last byte written. */
    ghost predicate FinsAfterData()
      reads `fins, `written
    {
      forall i :: 0 <= i < |fins| ==> fins[i] == SeqOf(iss, |written|)
    }

    // ------------------------------------------------------------ the machine

    ghost function State(): SendState
      reads `sndbuf, `written, `unaPos, `nxtPos, `fss, `isFinSent, `fins, `peerWnd, `sndWl1, `sndWl2, `dupAcks
      reads `lastAckSeq, `cwnd, `ssthresh, `nrtx, `onSendq, `onSendList, `onRto, sndbuf
    {
      SendState(sndbuf != null, written, Head(), unaPos, nxtPos, fss, isFinSent, fins, peerWnd, sndWl1, sndWl2, dupAcks,
        lastAckSeq, cwnd, ssthresh, nrtx, onSendq, onSendList, onRto)
    }

    /** How many of `n` bytes fit. */
    ghost function Fits(s: SendState, n: nat): nat { Max(Min(size - (|s.written| - s.head), n), 0) }

    ghost function Accepts(s: SendState, bytes: seq<u8>): SendState {
      var n := Fits(s, |bytes|);
      if n == 0 then s
      else s.(buffered := true, written := s.written + bytes[..n], onSendq := s.onSendq || !s.onSendList)
    }

    /** What a flush comes to. */
    ghost function PlanOf(s: SendState, room: nat): (int, int) {
      Plan(0, s.nxt, s.una, |s.written|, Min(s.cwnd, s.peerWnd), mss, room)
    }

    ghost function Flushes(s: SendState, room: nat): SendState {
      var now := PlanOf(s, room).1;
      s.(nxt := now, onRto := s.onRto || now != s.nxt)
    }

    /** The flush asks for a window probe: the next segment fits neither in the window nor in the peer's. */
    ghost predicate Probes(s: SendState, room: nat, quiet: bool) {
      var (ret, now) := PlanOf(s, room);
      var len := Min(Min(|s.written| - now, Wrap(mss - ACK_OPTLEN)), Min(s.cwnd, s.peerWnd) - (now - s.nxt));
      ret == -3 && quiet && s.peerWnd < now - s.una + len
    }

    ghost function FssSet(s: SendState): SendState {
      s.(fss := SeqOf(iss, if s.buffered then |s.written| else s.nxt))
    }

    ghost function SynSent(s: SendState, routed: bool): SendState {
      s.(nxt := if routed then 0 else -1, onRto := s.onRto || routed)
    }

    ghost function FinSent(s: SendState, routed: bool): SendState {
      if routed then s.(nxt := s.nxt + 1, finSent := true, fins := s.fins + [s.fss], onRto := true) else s
    }

    ghost function Opened(s: SendState): SendState {
      s.(una := 0, nxt := 0, cwnd := if s.cwnd == 1 then 2 * mss else mss, nrtx := 0, onRto := false)
    }

    /** Half the flight, but at least two segments. */
    ghost function Threshold(s: SendState): u32 { Max(Min(s.cwnd, s.peerWnd) / 2, 2 * mss) }

    ghost function BackToUna(s: SendState): SendState {
      s.(ssthresh := Threshold(s), cwnd := mss, nxt := s.una)
    }

    ghost function FinDone(s: SendState, moves: bool): SendState {
      var after := |s.written| + 1;
      s.(una := after, nxt := if moves then after else s.nxt, nrtx := 0, onRto := false)
    }

    ghost function LastDone(s: SendState): SendState {
      s.(una := s.una + 1, nrtx := 0, onRto := SeqGt(SeqOf(iss, s.nxt), SeqOf(iss, s.una + 1)))
    }

    /** The window and the duplicates. */
    ghost function Noting(s: SendState, sq: u32, ack: u32, cwindow: u32, payloadLen: nat): SendState {
      var dups := if Repeats(s, iss, sq, ack, cwindow, payloadLen) then (s.dupAcks + 1) % 256 else 0;
      var t := s.(dupAcks := dups, lastAckSeq := ack);
      if Newer(s.wl1, s.wl2, s.peerWnd, sq, ack, cwindow) then t.(peerWnd := cwindow, wl1 := sq, wl2 := ack) else t
    }

    /** The third duplicate sends again from the ack on, at half the rate; further ones open the window by a segment. */
    ghost function Duplicated(s: SendState, at: int, dup: bool): SendState {
      if dup && s.dupAcks == 3 then
        s.(nxt := at, ssthresh := Threshold(s), cwnd := Wrap(Threshold(s) + 3 * mss),
           nrtx := if s.nrtx < TCP_MAX_RTX then s.nrtx + 1 else s.nrtx, onSendList := true)
      else if s.dupAcks > 3 && s.cwnd < Wrap(s.cwnd + mss) then s.(cwnd := Wrap(s.cwnd + mss))
      else s
    }

    /** An ack beyond snd_nxt moves it forward, and then nothing is left to send if nothing is buffered. */
    ghost function Forwarded(s: SendState, moves: bool, at: int): SendState {
      if moves then s.(nxt := at, onSendList := s.onSendList && s.head < |s.written|) else s
    }

    ghost function Moves(s: SendState, ack: u32, at: int, dup: bool): SendState {
      var t := Duplicated(s, at, dup);
      Forwarded(t, SeqGt(ack, SeqOf(iss, t.nxt)), at)
    }

    /** Slow start: a segment more for every full segment acknowledged. */
    function Slower(window: u32, threshold: u32, acked: nat): u32 {
      if window < threshold && window < Wrap(window + mss) then Wrap(window + mss * ((acked / effMss) % 0x1_0000))
      else window
    }

    /** The bytes before `at` are acknowledged, and the timer goes on if something is in flight. */
    ghost function Removing(s: SendState, at: int): SendState
    {
      if at == s.head - TWO31 then s.(cwnd := Slower(s.cwnd, s.ssthresh, TWO31))
      else if at <= s.head then s
      else s.(cwnd := Slower(s.cwnd, s.ssthresh, at - s.head), head := at, una := at, nrtx := 0,
                onRto := SeqGt(SeqOf(iss, s.nxt), SeqOf(iss, at)))
    }

    /** An acceptable ack of position `at`. */
    ghost function Acked(s: SendState, sq: u32, ack: u32, at: int, cwindow: u32, payloadLen: nat): SendState
    {
      var dup := Repeats(s, iss, sq, ack, cwindow, payloadLen);
      Removing(Moves(Noting(s, sq, ack, cwindow, payloadLen), ack, at, dup), at)
    }

    /** What nty_tcp_process_ack makes of an ack number. */
    ghost function Processed(s: SendState, finState: bool, sq: u32, ackSeq: u32, cwindow: u32,
        payloadLen: nat): SendState
    {
      var ack := if finState && s.finSent && ackSeq == Wrap(s.fss + 1) then Wrap(ackSeq - 1) else ackSeq;
      var end := SeqOf(iss, |s.written|);
      if !s.buffered || SeqGt(ack, end) then s
      else Acked(s, sq, ack, |s.written| + Signed(Wrap(ack - end)), cwindow, payloadLen)
    }

    /** What the send variables of a valid sender satisfy. */
    ghost predicate Sane(s: SendState) {
      && 0 <= s.head <= |s.written| <= s.head + MAX_SEND_BUFFER && (!s.buffered ==> s.written == [])
      && (s.finSent || s.nxt <= |s.written|) && (s.finSent <==> s.fins != [])
    }

    lemma IsSane()
      requires Valid()
      ensures Sane(State())
    {
      hide AllRight, Wrap, SeqOf;
    }

    /** What an ack can and cannot do: it moves the buffer's head forward within what was written, and snd_una with it,
        and touches neither the data nor the FIN. */
    ghost predicate Advances(s: SendState, t: SendState) {
      && Sane(t) && t.written == s.written && t.fss == s.fss && t.fins == s.fins && t.finSent == s.finSent
      && t.buffered == s.buffered && t.onSendq == s.onSendq && s.head <= t.head
      && t.una == (if t.head != s.head then t.head else s.una)
      && (t.head == s.head ==> t.onRto == s.onRto && s.nrtx <= t.nrtx)
      && (s.nxt <= |s.written| ==> t.nxt <= |s.written|) && (t.onSendList ==> s.onSendList || t.nxt <= |s.written|)
    }

    lemma NotingAdvances(s: SendState, sq: u32, ack: u32, cwindow: u32, payloadLen: nat)
      requires Sane(s)
      ensures Advances(s, Noting(s, sq, ack, cwindow, payloadLen))
      ensures Noting(s, sq, ack, cwindow, payloadLen).head == s.head
    {
      hide Repeats, Newer;
    }

    lemma MovesAdvances(s: SendState, ack: u32, at: int, dup: bool)
      requires Sane(s) && at <= |s.written|
      ensures Advances(s, Moves(s, ack, at, dup)) && Moves(s, ack, at, dup).head == s.head
    {
      hide Wrap, SeqGt, SeqOf;
    }

    lemma RemovingAdvances(s: SendState, at: int)
      requires Sane(s) && at <= |s.written|
      ensures Advances(s, Removing(s, at)) && Removing(s, at).head == Max(s.head, at)
    {
      hide Wrap, SeqGt, SeqOf, Sender.Slower;
    }

    lemma AdvancesOn(s: SendState, t: SendState, u: SendState)
      requires Advances(s, t) && Advances(t, u)
      ensures Advances(s, u)
    {
    }

    lemma AckedAdvances(s: SendState, sq: u32, ack: u32, at: int, cwindow: u32, payloadLen: nat)
      requires Sane(s) && at <= |s.written|
      ensures Advances(s, Acked(s, sq, ack, at, cwindow, payloadLen))
      ensures Acked(s, sq, ack, at, cwindow, payloadLen).head == Max(s.head, at)
    {
      hide Sender.Noting, Sender.Moves, Sender.Removing, Repeats;
      var dup := Repeats(s, iss, sq, ack, cwindow, payloadLen);
      var noted := Noting(s, sq, ack, cwindow, payloadLen);
      var moved := Moves(noted, ack, at, dup);
      NotingAdvances(s, sq, ack, cwindow, payloadLen);
      MovesAdvances(noted, ack, at, dup);
      RemovingAdvances(moved, at);
      AdvancesOn(s, noted, moved);
      AdvancesOn(s, moved, Removing(moved, at));
    }

    lemma SelfAdvances(s: SendState)
      requires Sane(s)
      ensures Advances(s, s)
    {
    }

    lemma ProcessedAdvances(s: SendState, finState: bool, sq: u32, ackSeq: u32, cwindow: u32, payloadLen: nat)
      requires Sane(s)
      ensures Advances(s, Processed(s, finState, sq, ackSeq, cwindow, payloadLen))
      ensures !s.buffered ==> Processed(s, finState, sq, ackSeq, cwindow, payloadLen) == s
      ensures finState && s.finSent && ackSeq == Wrap(s.fss + 1) && s.fss == SeqOf(iss, |s.written|) ==>
                Processed(s, finState, sq, ackSeq, cwindow, payloadLen).head == |s.written|
    {
      hide Wrap, SeqGt, SeqOf, Sender.Acked, Sender.Advances;
      var ack := if finState && s.finSent && ackSeq == Wrap(s.fss + 1) then Wrap(ackSeq - 1) else ackSeq;
      var end := SeqOf(iss, |s.written|);
      BackAndForth(s.fss);
      NotAfterItself(end);
      AckArith(iss, |s.written|, s.head, ack);
      if s.buffered && !SeqGt(ack, end) {
        AckedAdvances(s, sq, ack, |s.written| + Signed(Wrap(ack - end)), cwindow, payloadLen);
      } else {
        SelfAdvances(s);
      }
    }

    /** The send variables are ordered as RFC 9293 section 3.4 has them: snd_nxt is not before the buffer's head.
        (That it is not beyond what was written, until the FIN is sent, is part of Valid.) */
    ghost predicate InOrder()
      reads `nxtPos, `sndbuf, sndbuf
    {
      Head() <= nxtPos
    }

    constructor (iss: u32, size: nat, mss: u16, effMss: Divisor, peerWnd: u32)
      requires size <= MAX_SEND_BUFFER
      ensures Valid() && fresh(Footprint()) && sndbuf == null
      ensures written == [] && emitted == [] && unaPos == nxtPos == -1 && !isFinSent
      ensures this.iss == iss && this.size == size && this.effMss == effMss && this.mss == mss
                && this.peerWnd == peerWnd
      ensures cwnd == 1 && !onSendq && !onSendList && !onRto
      ensures dupAcks == lastAckSeq == ssthresh == 0 && nrtx == 0 && sndWl1 == MAXSEQ && sndWl2 == 0
    {
      this.iss, this.size, this.mss, this.effMss, this.peerWnd := iss, size, mss, effMss, peerWnd;
      sndbuf := null;
      sndUna, sndNxt, sndWnd := iss, iss, size;
      cwnd, ssthresh, nrtx, fss := 1, 0, 0, 0;
      isFinSent, onSendq, onSendList, onRto := false, false, false, false;
      dupAcks, lastAckSeq, sndWl1, sndWl2 := 0, 0, Wrap(0 - 1), 0;
      written, emitted, fins, unaPos, nxtPos := [], [], [], -1, -1;
    }

    method EnsureBuffer()
      requires Valid()
      modifies this`sndbuf
      ensures Valid() && sndbuf != null && Head() == old(Head())
      ensures old(sndbuf) != null ==> sndbuf == old(sndbuf)
      ensures old(sndbuf) == null ==> fresh(sndbuf) && fresh(sndbuf.data)
    {
      hide Wrap, AllRight, SeqOf;
      if sndbuf == null {
        sndbuf := new SendBuffer(size, SeqOf(iss, 0));
      }
    }

    method Fill(bytes: seq<u8>)
      requires Valid() && sndbuf != null && 0 < |bytes| <= sndWnd
      modifies this`written, this`sndWnd, sndbuf, sndbuf.data
      ensures Valid() && written == old(written) + bytes && Head() == old(Head())
    {
      hide Wrap, AllRight, SeqOf;
      var ret := sndbuf.Put(bytes);
      assert ret == |bytes|;  // the assertion of src/nty_api.c:149
      WritingKeepsRight(emitted, written, bytes, iss);
      assert (written + bytes)[sndbuf.removed..] == written[sndbuf.removed..] + bytes;
      written := written + bytes;
      sndWnd := sndbuf.data.Length - sndbuf.len;
    }

    /** nty_copy_from_user, and the queueing its callers do (src/nty_api.c:1168-1177). */
    method CopyFromUser(bytes: seq<u8>) returns (ret: int)
      requires Valid()
      modifies `sndbuf, `written, `sndWnd, `onSendq, sndbuf, if sndbuf == null then {} else {sndbuf.data}
      ensures Valid() && fresh(Footprint() - old(Footprint()))
      ensures ret == (if Min(old(sndWnd), |bytes|) <= 0 then -1 else Min(old(sndWnd), |bytes|))
      ensures written == old(written) + bytes[..Max(ret, 0)]
      ensures Head() == old(Head()) && (0 < ret || old(sndbuf) != null ==> sndbuf != null)
      ensures State() == Accepts(old(State()), bytes)
      ensures onSendq == (old(onSendq) || (0 < ret && !onSendList))
    {
      hide Wrap, AllRight, SeqOf, Buffered;
      var sndlen := Min(sndWnd, |bytes|);
      if sndlen <= 0 { return -1; }
      EnsureBuffer();
      Fill(bytes[..sndlen]);
      if !(onSendq || onSendList) { onSendq := true; }
      ret := sndlen;
    }

    /** The data path of nty_tcp_send_tcppkt with the flag ACK: `routed` says whether IPOutput finds a frame and a
        next hop. */
    method SendData(payload: seq<u8>, routed: bool) returns (ret: int)
      requires Valid() && 0 < |payload| && 0 <= nxtPos && unaPos <= nxtPos && nxtPos + |payload| <= |written|
      requires payload == written[nxtPos..nxtPos + |payload|]
      requires nxtPos + |payload| - unaPos <= Min(cwnd, peerWnd)
      modifies this`sndNxt, this`nxtPos, this`emitted, this`onRto
      ensures Valid()
      ensures ret == (if |payload| > mss + ACK_OPTLEN then -1 else if !routed then -2 else |payload|)
      ensures ret < 0 ==> nxtPos == old(nxtPos) && emitted == old(emitted) && onRto == old(onRto)
      ensures 0 < ret ==> nxtPos == old(nxtPos) + |payload| && onRto
      ensures ret < 0 ==> State() == old(State())
      ensures 0 < ret ==> emitted == old(emitted) + [Emission(old(nxtPos), old(sndNxt), payload, unaPos,
                Min(cwnd, peerWnd))]
    {
      hide Wrap, Buffered, SeqOf;
      if |payload| > mss + ACK_OPTLEN { return -1; }
      if !routed { return -2; }
      emitted := emitted + [Emission(nxtPos, sndNxt, payload, unaPos, Min(cwnd, peerWnd))];
      SeqOfAdd(iss, nxtPos, |payload|);
      sndNxt := Wrap(sndNxt + |payload|);
      nxtPos := nxtPos + |payload|;
      onRto := true;
      ret := |payload|;
    }

    /** The 32-bit differences the code computes are the distances between positions. */
    lemma Distances()
      requires Valid() && sndbuf != null && InOrder() && nxtPos <= |written| && unaPos == Head()
      ensures SeqLt(sndNxt, sndbuf.headSeq) <==> nxtPos < Head()
      ensures Wrap(Wrap(sndbuf.headSeq + sndbuf.len) - sndNxt) == |written| - nxtPos
      ensures Wrap(sndNxt - sndbuf.headSeq) == nxtPos - Head() == Wrap(sndNxt - sndUna)
      ensures Head() + sndbuf.len == |written|
    {
      hide Wrap, AllRight, SeqLt;
      WrapAdd(iss + 1, Head());
      WrapAdd(iss + 1 + Head(), sndbuf.len);
      SeqOrder(iss + 1 + nxtPos, iss + 1 + Head());
      WrapSub(iss + 1 + |written|, iss + 1 + nxtPos);
      WrapSub(iss + 1 + nxtPos, iss + 1 + Head());
    }

    lemma Planned()
      ensures var s := State();
              && s.nxt == nxtPos && s.una == unaPos && s.written == written && s.cwnd == cwnd && s.peerWnd == peerWnd
    {
    }

    lemma Probed(s: SendState, room: nat, quiet: bool, ret: int, now: int)
      requires (ret, now) == Plan(0, s.nxt, s.una, |s.written|, Min(s.cwnd, s.peerWnd), mss, room)
      ensures Probes(s, room, quiet) <==>
                ret == -3 && quiet && s.peerWnd < now - s.una + Min(Min(|s.written| - now, Wrap(mss - ACK_OPTLEN)),
                  Min(s.cwnd, s.peerWnd) - (now - s.nxt))
      ensures PlanOf(s, room) == (ret, now)
    {
      hide Plan;
    }

    twostate lemma Flushed(room: nat)
      requires unchanged(`sndbuf, `written, `unaPos, `fss, `isFinSent, `fins, `peerWnd, `sndWl1, `sndWl2, `dupAcks)
      requires unchanged(`lastAckSeq, `onSendq, `onSendList, `cwnd, `ssthresh, `nrtx)
      requires sndbuf != null && unchanged(sndbuf)
      requires nxtPos == Plan(0, old(nxtPos), unaPos, |written|, Min(cwnd, peerWnd), mss, room).1
      requires onRto == (old(onRto) || nxtPos != old(nxtPos))
      ensures State() == Flushes(old(State()), room)
    {
      hide Plan;
    }

    /** nty_tcp_flush_sendbuffer.  `room` is the number of frames IPOutput will grant; `quiet` says that no ACK was
        sent for 500 ms, in which case a segment that does not fit asks for a window probe (`wack`). */
    method Flush(room: nat, quiet: bool) returns (packets: int, wack: bool, sent: nat)
      requires Valid() && sndbuf != null && InOrder() && nxtPos <= |written| && unaPos == Head()
      modifies this`sndNxt, this`nxtPos, this`emitted, this`onRto
      ensures Valid() && InOrder() && nxtPos <= |written| && old(nxtPos) <= nxtPos
      ensures old(emitted) <= emitted
      ensures Consecutive(emitted[|old(emitted)|..], old(nxtPos), nxtPos)
      ensures (packets, nxtPos) == Plan(0, old(nxtPos), unaPos, |written|, Min(cwnd, peerWnd), mss, room)
      ensures 0 <= packets ==> packets == |emitted| - |old(emitted)|
      ensures sent == |emitted| - |old(emitted)| <= room && (0 < sent <==> old(nxtPos) < nxtPos)
      ensures State() == Flushes(old(State()), room)
      ensures wack == Probes(old(State()), room, quiet) && (packets, nxtPos) == PlanOf(old(State()), room)
      ensures wack ==> packets == -3
    {
      hide Plan, Consecutive, Sender.Valid, Sender.State, Sender.Probes;
      ghost var was := State();
      Planned();
      packets, wack, sent := SendBuffered(room, quiet);
      Flushed(room);
      Probed(was, room, quiet, packets, nxtPos);
    }

    /** The loop of nty_tcp_flush_sendbuffer. */
    method SendBuffered(room: nat, quiet: bool) returns (packets: int, wack: bool, sent: nat)
      requires Valid() && sndbuf != null && InOrder() && nxtPos <= |written| && unaPos == Head()
      modifies this`sndNxt, this`nxtPos, this`emitted, this`onRto
      ensures Valid() && InOrder() && nxtPos <= |written| && old(nxtPos) <= nxtPos
      ensures old(emitted) <= emitted
      ensures Consecutive(emitted[|old(emitted)|..], old(nxtPos), nxtPos)
      ensures (packets, nxtPos) == Plan(0, old(nxtPos), unaPos, |written|, Min(cwnd, peerWnd), mss, room)
      ensures 0 <= packets ==> packets == |emitted| - |old(emitted)|
      ensures sent == |emitted| - |old(emitted)| <= room && (0 < sent <==> old(nxtPos) < nxtPos)
      ensures onRto == (old(onRto) || nxtPos != old(nxtPos))
      ensures wack <==>
                packets == -3 && quiet && peerWnd <
                  nxtPos - unaPos + Min(Min(|written| - nxtPos, Wrap(mss - ACK_OPTLEN)),
                      Min(cwnd, peerWnd) - (nxtPos - old(nxtPos)))
    {
      hide Wrap, SeqLt, Buffered, AllRight, SeqOf, Consecutive, Plan;
      packets, wack, sent := 0, false, 0;
      NoneConsecutive(nxtPos);
      assert emitted[|emitted|..] == [];
      Distances();
      var window := Min(cwnd, peerWnd);
      var maxlen := Wrap(mss - ACK_OPTLEN);
      var left := room;
      if sndbuf.len == 0 {
        PlanTurn(0, nxtPos, unaPos, |written|, window, mss, room, Min(Min(|written| - nxtPos, maxlen), window));
        return;
      }
      while true
        invariant Valid() && InOrder() && old(nxtPos) <= nxtPos <= |written|
        invariant old(emitted) <= emitted && Consecutive(emitted[|old(emitted)|..], old(nxtPos), nxtPos)
        invariant 0 <= window == Min(cwnd, peerWnd) - (nxtPos - old(nxtPos))
        invariant packets == sent == |emitted| - |old(emitted)| && packets + left == room
        invariant 0 < sent <==> old(nxtPos) < nxtPos
        invariant onRto == (old(onRto) || nxtPos != old(nxtPos)) && !wack
        invariant Plan(packets, nxtPos, unaPos, |written|, window, mss, left)
               == Plan(0, old(nxtPos), unaPos, |written|, Min(cwnd, peerWnd), mss, room)
        decreases |written| - nxtPos
      {
        Distances();
        if SeqLt(sndNxt, sndbuf.headSeq) { assert false; }  // the assertion of src/nty_tcp.c:2109
        var bufferedLen := Wrap(Wrap(sndbuf.headSeq + sndbuf.len) - sndNxt);
        if bufferedLen == 0 {
          PlanTurn(packets, nxtPos, unaPos, |written|, window, mss, left, Min(Min(0, maxlen), window));
          break;
        }
        var len := Min(bufferedLen, maxlen);
        if len > window { len := window; }
        PlanTurn(packets, nxtPos, unaPos, |written|, window, mss, left, len);
        if len <= 0 { break; }
        var inFlight := Wrap(sndNxt - sndUna);
        if inFlight + len > window {
          wack := inFlight + len > peerWnd && quiet;
          return -3, wack, sent;
        }
        var sndlen := SendNext(len, 0 < left, old(emitted), old(nxtPos));
        if sndlen < 0 { return sndlen, false, sent; }
        packets, sent, left := packets + 1, sent + 1, left - 1;
        window := window - len;
      }
    }

    /** Sends the next `len` buffered bytes; `start` and `from` tell where the flush began. */
    method SendNext(len: nat, routed: bool, ghost start: seq<Emission>, ghost from: int) returns (ret: int)
      requires Valid() && sndbuf != null && InOrder() && unaPos == Head() && 0 < len && nxtPos + len <= |written|
      requires nxtPos + len - unaPos <= Min(cwnd, peerWnd)
      requires start <= emitted && Consecutive(emitted[|start|..], from, nxtPos)
      modifies this`sndNxt, this`nxtPos, this`emitted, this`onRto
      ensures Valid() && start <= emitted && Consecutive(emitted[|start|..], from, nxtPos)
      ensures ret == (if len > mss + ACK_OPTLEN then -1 else if !routed then -2 else len)
      ensures nxtPos == old(nxtPos) + Max(ret, 0) && |emitted| == |old(emitted)| + if 0 < ret then 1 else 0
      ensures onRto == (old(onRto) || 0 < ret)
    {
      hide Wrap, SeqLt, Buffered, AllRight, SeqOf, Consecutive;
      Distances();
      var data := Fetch(Wrap(sndNxt - sndbuf.headSeq), len);
      ret := SendData(data, routed);
      if 0 < ret { Snoc(start, old(emitted), emitted, from); }
    }

    /** The bytes the pointer `head + offset` shows. */
    method Fetch(offset: nat, len: nat) returns (data: seq<u8>)
      requires Valid() && sndbuf != null && 0 < len && offset + len <= sndbuf.len
      ensures data == written[Head() + offset..Head() + offset + len]
    {
      hide Wrap, AllRight, SeqOf;
      data := sndbuf.data[sndbuf.headOff + offset..sndbuf.headOff + offset + len];
      ghost var contents := sndbuf.Contents();
      assert contents == sndbuf.data[sndbuf.headOff..sndbuf.tailOff];
      forall k | 0 <= k < len ensures data[k] == contents[offset + k] {
        assert data[k] == sndbuf.data[sndbuf.headOff + offset + k];
      }
      assert contents == written[sndbuf.removed..];
      assert data == contents[offset..offset + len];
    }

    // ------------------------------------------------------------ acknowledgements

    /** The position an acceptable ack number stands for: the one at or before the end of the written data that is
        less than 2^31 away (or exactly, for the antipode). */
    ghost function AckPos(ack: u32): int
      reads `written
    {
      |written| + Signed(Wrap(ack - SeqOf(iss, |written|)))
    }

    /** An ack of our FIN counts, for the data, as an ack of the last byte (src/nty_tcp.c:1410-1418). */
    function DataAck(finState: bool, ack: u32): u32
      reads `isFinSent, `fss
    {
      if finState && isFinSent && ack == Wrap(fss + 1) then Wrap(ack - 1) else ack
    }

    /** Not beyond what was written (src/nty_tcp.c:1420). */
    predicate Acceptable(ack: u32)
      requires sndbuf != null
      reads `sndbuf, sndbuf
    {
      !SeqGt(ack, Wrap(sndbuf.headSeq + sndbuf.len))
    }

    /** The segment carries newer window information (src/nty_tcp.c:1430-1434). */
    predicate NewerWindow(sq: u32, ack: u32, cwindow: u32)
      reads `sndWl1, `sndWl2, `peerWnd
    {
      Newer(sndWl1, sndWl2, peerWnd, sq, ack, cwindow)
    }

    /** The segment repeats the last ack (src/nty_tcp.c:1453-1462). */
    predicate Duplicate(sq: u32, ack: u32, cwindow: u32, payloadLen: nat)
      reads `sndWl1, `sndWl2, `peerWnd, `sndNxt, `lastAckSeq
    {
      && SeqLt(ack, sndNxt) && ack == lastAckSeq && payloadLen == 0
      && (if NewerWindow(sq, ack, cwindow) then Wrap(ack + cwindow) else Wrap(sndWl2 + peerWnd))
          == Wrap(peerWnd + sndWl1)
    }

    /** snd_nxt is set to the ack number: back, on the third duplicate, or forward. */
    predicate MovesNxt(sq: u32, ack: u32, cwindow: u32, payloadLen: nat)
      reads `sndWl1, `sndWl2, `peerWnd, `sndNxt, `lastAckSeq, `dupAcks
    {
      (Duplicate(sq, ack, cwindow, payloadLen) && dupAcks == 2) || SeqGt(ack, sndNxt)
    }

    /** The segment repeats the last ack, and a sequence number of the peer equals an ack number of ours. */
    predicate Coincides(sq: u32, ack: u32, payloadLen: nat)
      reads `sndWl1, `sndWl2, `sndNxt, `lastAckSeq
    {
      && SeqLt(ack, sndNxt) && ack == lastAckSeq && payloadLen == 0
      && sndWl1 == (if SeqLt(sndWl1, sq) || (sndWl1 == sq && SeqLt(sndWl2, ack)) then ack else sndWl2)
    }

    /** nty_tcp_process sets peer_wnd before the ack is processed (src/nty_tcp.c:1634-1638).  The window edges compared
        are then sums with the same window, so an ack counts as a duplicate only if snd_wl1, a sequence number of
        the peer, happens to equal an ack number of ours: the two streams have to stand at the same number. */
    lemma DuplicateNeeds(sq: u32, ack: u32, cwindow: u32, payloadLen: nat)
      requires peerWnd == cwindow
      ensures Duplicate(sq, ack, cwindow, payloadLen) <==> Coincides(sq, ack, payloadLen)
    {
      hide SeqLt;
      WrapInjective(ack + cwindow, peerWnd + sndWl1);
      WrapInjective(sndWl2 + peerWnd, peerWnd + sndWl1);
    }

    /** What an acceptable ack leaves in snd_wl1, snd_wl2, peer_wnd, dup_acks and last_ack_seq. */
    twostate predicate Noted(sq: u32, ack: u32, cwindow: u32, payloadLen: nat)
      reads `peerWnd, `sndWl1, `sndWl2, `dupAcks, `lastAckSeq
    {
      && lastAckSeq == ack
      && dupAcks == (if old(Duplicate(sq, ack, cwindow, payloadLen)) then (old(dupAcks) + 1) % 256 else 0)
      && (if old(NewerWindow(sq, ack, cwindow)) then peerWnd == cwindow && sndWl1 == sq && sndWl2 == ack
          else peerWnd == old(peerWnd) && sndWl1 == old(sndWl1) && sndWl2 == old(sndWl2))
    }

    /** What the modular tests say about an acceptable ack, by position.  The one ack they misjudge is the number
        exactly 2^31 before the head of an empty buffer: it is taken for a new one. */
    lemma AckFacts(ack: u32)
      requires Valid() && sndbuf != null && Acceptable(ack)
      ensures SeqOf(iss, AckPos(ack)) == ack
      ensures |written| - TWO31 <= AckPos(ack) <= |written|
      ensures SeqGeq(sndbuf.headSeq, ack) <==> AckPos(ack) <= Head() && AckPos(ack) != Head() - TWO31
      ensures SeqLt(ack, sndbuf.headSeq) <==> AckPos(ack) < Head()
      ensures Head() < AckPos(ack) ==> Wrap(ack - sndbuf.headSeq) == AckPos(ack) - Head()
      ensures AckPos(ack) == Head() - TWO31 <==> sndbuf.len == 0 && Wrap(ack - sndbuf.headSeq) == TWO31
      ensures sndbuf.headSeq == SeqOf(iss, Head()) && Head() + sndbuf.len == |written|
      ensures InOrder() && nxtPos <= |written| && Head() <= AckPos(ack) ==>
                (SeqGt(ack, sndNxt) <==> nxtPos < AckPos(ack))
    {
      hide AllRight, Wrap, SeqGt, SeqGeq, SeqLt, Signed;
      WrapAdd(iss + 1, Head());
      if InOrder() && nxtPos <= |written| && Head() <= AckPos(ack) <= |written| {
        SeqOrder(iss + 1 + AckPos(ack), iss + 1 + nxtPos);
      }
      AckArith(iss, |written|, Head(), ack);
    }

    /** snd.peer_wnd, snd_wl1 and snd_wl2 (src/nty_tcp.c:1429-1450). */
    method UpdateWindow(sq: u32, ack: u32, cwindow: u32)
      modifies `peerWnd, `sndWl1, `sndWl2
      ensures if old(NewerWindow(sq, ack, cwindow)) then peerWnd == cwindow && sndWl1 == sq && sndWl2 == ack
              else peerWnd == old(peerWnd) && sndWl1 == old(sndWl1) && sndWl2 == old(sndWl2)
    {
      if SeqLt(sndWl1, sq) || (sndWl1 == sq && SeqLt(sndWl2, ack)) || (sndWl2 == ack && cwindow > peerWnd) {
        peerWnd, sndWl1, sndWl2 := cwindow, sq, ack;
      }
    }

    /** dup_acks and last_ack_seq (src/nty_tcp.c:1452-1467); dup_acks is a uint8_t. */
    method CountDuplicate(ack: u32, payloadLen: nat, rightWndEdge: u32) returns (dup: bool)
      modifies `dupAcks, `lastAckSeq
      ensures dup == (SeqLt(ack, sndNxt) && ack == old(lastAckSeq) && payloadLen == 0
                && Wrap(sndWl2 + peerWnd) == rightWndEdge)
      ensures dupAcks == (if dup then (old(dupAcks) + 1) % 256 else 0) && lastAckSeq == ack
    {
      dup := false;
      if SeqLt(ack, sndNxt) {
        if ack == lastAckSeq && payloadLen == 0 {
          if Wrap(sndWl2 + peerWnd) == rightWndEdge {
            dupAcks := (dupAcks + 1) % 256;
            dup := true;
          }
        }
      }
      if !dup { dupAcks, lastAckSeq := 0, ack; }
    }

    /** The congestion window after a loss (src/nty_tcp.c:1483-1495). */
    method HalveWindow()
      modifies `ssthresh, `cwnd, `nrtx
      ensures Halved(old(cwnd), old(nrtx))
    {
      ssthresh := Min(cwnd, peerWnd) / 2;
      if ssthresh < 2 * mss { ssthresh := 2 * mss; }
      cwnd := Wrap(ssthresh + 3 * mss);
      if nrtx < TCP_MAX_RTX { nrtx := nrtx + 1; }
    }

    predicate Halved(cwndWas: u32, nrtxWas: nat)
      reads `ssthresh, `cwnd, `nrtx, `peerWnd
    {
      && ssthresh == Max(Min(cwndWas, peerWnd) / 2, 2 * mss) && cwnd == Wrap(ssthresh + 3 * mss)
      && nrtx == if nrtxWas < TCP_MAX_RTX then nrtxWas + 1 else nrtxWas
    }

    /** Slow start (src/nty_tcp.c:1521-1540): one segment more for every full segment acknowledged. */
    method SlowStart(rmlen: nat)
      modifies `cwnd
      ensures cwnd == Slower(old(cwnd), ssthresh, rmlen)
    {
      var packets := (rmlen / effMss) % 0x1_0000;
      if (rmlen / effMss) * effMss > rmlen {
        NoPartialPacket(rmlen, effMss);
        assert false;  // so `packets ++` is dead
      }
      if cwnd < ssthresh {
        if Wrap(cwnd + mss) > cwnd { cwnd := Wrap(cwnd + mss * packets); }
      }
    }

    twostate lemma Repeated(dup: bool)
      requires unchanged(`sndbuf, `written, `unaPos, `fss, `isFinSent, `fins, `peerWnd, `sndWl1, `sndWl2, `dupAcks)
      requires unchanged(`lastAckSeq, `onSendq, `onRto) && (sndbuf != null ==> unchanged(sndbuf))
      requires dup && dupAcks == 3 ==> Halved(old(cwnd), old(nrtx)) && onSendList
      requires !(dup && dupAcks == 3) ==> unchanged(`ssthresh, `nrtx, `nxtPos, `onSendList)
      requires !(dup && dupAcks == 3) ==>
                cwnd == if dupAcks > 3 && Wrap(old(cwnd) + mss) > old(cwnd) then Wrap(old(cwnd) + mss) else old(cwnd)
      ensures State() == Duplicated(old(State()), nxtPos, dup)
    {
      hide Wrap;
    }

    /** Fast retransmit, and the window that further duplicates open (src/nty_tcp.c:1469-1505). */
    method Retransmit(ack: u32, ghost at: int, dup: bool)
      requires Valid() && SeqOf(iss, at) == ack && at <= |written| && (dup ==> SeqLt(ack, sndNxt))
      modifies `sndNxt, `nxtPos, `ssthresh, `cwnd, `nrtx, `onSendList
      ensures Valid() && nxtPos == (if dup && dupAcks == 3 then at else old(nxtPos))
      ensures sndNxt == if dup && dupAcks == 3 then ack else old(sndNxt)
      ensures if dup && dupAcks == 3 then onSendList && ssthresh == Max(Min(old(cwnd), peerWnd) / 2, 2 * mss)
              else onSendList == old(onSendList)
      ensures State() == Duplicated(old(State()), at, dup)
    {
      hide Wrap, SeqOf, AllRight, Buffered, Sender.State, SeqLt, Sender.Duplicated;
      ghost var was := State();
      NumberOf();
      if dup && dupAcks == 3 {
        if SeqLt(ack, sndNxt) { sndNxt, nxtPos := ack, at; }
        HalveWindow();
        onSendList := true;
      } else if dupAcks > 3 {
        if Wrap(cwnd + mss) > cwnd { cwnd := Wrap(cwnd + mss); }
      }
      Repeated(dup);
      SameDuplicated(was, dup, nxtPos, at);
    }

    /** Where the ack stands matters for the third duplicate only. */
    lemma SameDuplicated(s: SendState, dup: bool, p: int, q: int)
      requires dup && s.dupAcks == 3 ==> p == q
      ensures Duplicated(s, p, dup) == Duplicated(s, q, dup)
    {
    }

    twostate lemma Forwards(moves: bool)
      requires unchanged(`sndbuf, `written, `unaPos, `fss, `isFinSent, `fins, `peerWnd, `sndWl1, `sndWl2, `dupAcks)
      requires unchanged(`lastAckSeq, `onSendq, `onRto, `cwnd, `ssthresh, `nrtx) && sndbuf != null && unchanged(sndbuf)
      requires if moves then onSendList == (old(onSendList) && Head() < |written|)
               else nxtPos == old(nxtPos) && onSendList == old(onSendList)
      ensures State() == Forwarded(old(State()), moves, nxtPos)
    {
    }

    /** snd_nxt follows an ack beyond it (src/nty_tcp.c:1507-1513). */
    method MoveForward(ack: u32, ghost at: int)
      requires Valid() && sndbuf != null && SeqOf(iss, at) == ack && at <= |written|
      modifies `sndNxt, `nxtPos, `onSendList
      ensures Valid() && nxtPos == (if SeqGt(ack, old(sndNxt)) then at else old(nxtPos))
      ensures onSendList == (old(onSendList) && !(SeqGt(ack, old(sndNxt)) && sndbuf.len == 0))
      ensures State() == Forwarded(old(State()), SeqGt(ack, old(sndNxt)), at)
    {
      hide Wrap, SeqOf, AllRight, Sender.State, SeqGt;
      ghost var moves := SeqGt(ack, sndNxt);
      if SeqGt(ack, sndNxt) {
        sndNxt, nxtPos := ack, at;
        if sndbuf.len == 0 { onSendList := false; }
      }
      Forwards(moves);
    }

    /** Fast retransmit and the forward move of snd_nxt (src/nty_tcp.c:1469-1513). */
    method MoveNxt(ack: u32, ghost at: int, dup: bool)
      requires Valid() && sndbuf != null && SeqOf(iss, at) == ack && at <= |written| && (dup ==> SeqLt(ack, sndNxt))
      modifies `sndNxt, `nxtPos, `ssthresh, `cwnd, `nrtx, `onSendList
      ensures Valid()
      ensures nxtPos == if (dup && dupAcks == 3) || SeqGt(ack, old(sndNxt)) then at else old(nxtPos)
      ensures onSendList ==> old(onSendList) || nxtPos == at
      ensures State() == Moves(old(State()), ack, at, dup)
    {
      hide Wrap, SeqOf, AllRight, Buffered, Sender.Valid, Sender.State, SeqGt, SeqLt;
      NotAfterItself(ack);
      Retransmit(ack, at, dup);
      NumberOf();
      MoveForward(ack, at);
    }

    lemma Counts()
      requires Valid() && sndbuf != null
      ensures State().buffered && State().written == written && State().finSent == isFinSent && State().fss == fss
      ensures Wrap(sndbuf.headSeq + sndbuf.len) == SeqOf(iss, |written|)
    {
      hide AllRight, Wrap, SeqOf;
      HeadSeqIs();
      SeqOfAdd(iss, Head(), sndbuf.len);
    }

    lemma NumberOf()
      requires Valid()
      ensures sndNxt == SeqOf(iss, State().nxt) && sndUna == SeqOf(iss, State().una) && State().dupAcks == dupAcks
      ensures sndNxt == SeqOf(iss, nxtPos) && sndUna == SeqOf(iss, unaPos)
    {
    }

    lemma BufferSize()
      requires Buffered() && sndbuf != null
      ensures sndbuf.data.Length == size && Head() + sndbuf.len == |written|
    {
    }

    /** SBRemove, from the sender's side. */
    method DropFront(rmlen: nat) returns (ret: int)
      requires Buffered() && sndbuf != null && 0 < rmlen
      modifies sndbuf
      ensures Buffered() && ret == (if old(sndbuf.len) == 0 then -2 else Min(rmlen, old(sndbuf.len)))
      ensures Head() == old(Head()) + Max(ret, 0) && sndbuf.len == old(sndbuf.len) - Max(ret, 0)
    {
      hide Wrap, SeqOf;
      ret := sndbuf.Remove(rmlen);
    }

    twostate lemma Removed(at: int)
      requires unchanged(`sndbuf, `written, `nxtPos, `fss, `isFinSent, `fins, `peerWnd, `sndWl1, `sndWl2, `dupAcks)
      requires unchanged(`lastAckSeq, `onSendq, `onSendList, `ssthresh)
      requires old(Head()) < at ==>
                unaPos == at && Head() == at && nrtx == 0 && (onRto <==> SeqGt(SeqOf(iss, nxtPos), SeqOf(iss, at)))
      requires at <= old(Head()) ==> unchanged(`unaPos, `nrtx, `onRto) && Head() == old(Head())
      requires cwnd == if at <= old(Head()) && at != old(Head()) - TWO31 then old(cwnd)
                       else Slower(old(cwnd), ssthresh, if at <= old(Head()) then TWO31 else at - old(Head()))
      ensures State() == Removing(old(State()), at)
    {
      hide SeqOf, SeqGt, Wrap;
    }

    /** Slow start, SBRemove, and snd_una and snd_wnd (src/nty_tcp.c:1515-1566).  `stuck` is the early return at
        1554, which leaves write_lock held. */
    method RemoveAcked(ack: u32) returns (stuck: bool)
      requires Valid() && sndbuf != null && Acceptable(ack)
      modifies `sndUna, `unaPos, `sndWnd, `cwnd, `nrtx, `onRto, sndbuf
      ensures Valid()
      ensures stuck <==> AckPos(ack) == old(Head()) - TWO31
      ensures Head() == Max(old(Head()), AckPos(ack))
      ensures unaPos == if old(Head()) < AckPos(ack) then AckPos(ack) else old(unaPos)
      ensures if old(Head()) < AckPos(ack) then (onRto <==> SeqGt(sndNxt, sndUna)) && nrtx == 0 else onRto == old(onRto)
      ensures State() == Removing(old(State()), AckPos(ack))
    {
      hide Wrap, SeqGt, SeqGeq, Signed, SeqOf, Sender.Valid, Sender.State, Sender.Slower, Sender.Acceptable;
      stuck := false;
      NumberOf();
      AckFacts(ack);
      if !SeqGeq(sndbuf.headSeq, ack) { stuck := DropAcked(ack); }
      NumberOf();
      Removed(AckPos(ack));
    }

    method DropAcked(ack: u32) returns (stuck: bool)
      requires Valid() && sndbuf != null && Acceptable(ack) && !SeqGeq(sndbuf.headSeq, ack)
      modifies `sndUna, `unaPos, `sndWnd, `cwnd, `nrtx, `onRto, sndbuf
      ensures Valid() && stuck == (AckPos(ack) < old(Head()))
      ensures stuck ==> unchanged(`unaPos, `nrtx, `onRto) && Head() == old(Head())
      ensures stuck ==> cwnd == Slower(old(cwnd), ssthresh, TWO31)
      ensures !stuck ==> unaPos == Head() == AckPos(ack) && nrtx == 0 && onRto == SeqGt(sndNxt, ack)
      ensures !stuck ==> cwnd == Slower(old(cwnd), ssthresh, AckPos(ack) - old(Head()))
    {
      hide Wrap, SeqGt, SeqGeq, Signed, SeqOf, AllRight, Buffered, Sender.Slower;
      stuck := false;
      AckFacts(ack);
      BufferSize();
      var rmlen := Wrap(ack - sndbuf.headSeq);
      SlowStart(rmlen);
      var ret := DropFront(rmlen);
      if ret <= 0 { return true; }
      sndUna := ack;
      unaPos := AckPos(ack);
      BufferSize();
      sndWnd := sndbuf.data.Length - sndbuf.len;
      nrtx, onRto := 0, SeqGt(sndNxt, sndUna);
    }

    /** The window and the duplicates (src/nty_tcp.c:1409, 1429-1467). */
    method NoteAck(sq: u32, ack: u32, cwindow: u32, payloadLen: nat) returns (dup: bool)
      modifies `peerWnd, `sndWl1, `sndWl2, `dupAcks, `lastAckSeq
      requires Valid()
      ensures Noted(sq, ack, cwindow, payloadLen) && dup == old(Duplicate(sq, ack, cwindow, payloadLen))
      ensures dup ==> SeqLt(ack, sndNxt) && (dupAcks == 3 <==> old(dupAcks) == 2)
      ensures Valid() && State() == Noting(old(State()), sq, ack, cwindow, payloadLen)
      ensures dup == Repeats(old(State()), iss, sq, ack, cwindow, payloadLen)
    {
      hide Wrap, SeqLt, SeqOf, AllRight, Buffered;
      var rightWndEdge := Wrap(peerWnd + sndWl1);
      UpdateWindow(sq, ack, cwindow);
      dup := CountDuplicate(ack, payloadLen, rightWndEdge);
    }

    /** The rest of nty_tcp_process_ack, once the ack number is known to be acceptable. */
    method AcceptAck(sq: u32, ack: u32, cwindow: u32, payloadLen: nat, ghost at: int) returns (stuck: bool)
      requires Valid() && sndbuf != null && Acceptable(ack) && at == AckPos(ack)
      modifies `peerWnd, `sndWl1, `sndWl2, `dupAcks, `lastAckSeq, `sndNxt, `nxtPos, `ssthresh, `cwnd, `nrtx, `onSendList
      modifies `sndUna, `unaPos, `sndWnd, `onRto, sndbuf
      ensures Valid()
      ensures stuck <==> at == old(Head()) - TWO31
      ensures Head() == Max(old(Head()), at)
      ensures unaPos == if old(Head()) < at then at else old(unaPos)
      ensures nxtPos == if old(MovesNxt(sq, ack, cwindow, payloadLen)) then at else old(nxtPos)
      ensures onSendList ==> old(onSendList) || nxtPos == at
      ensures at <= old(Head()) ==> onRto == old(onRto)
      ensures Noted(sq, ack, cwindow, payloadLen)
      ensures State() == Acked(old(State()), sq, ack, at, cwindow, payloadLen)
    {
      hide Wrap, SeqGt, SeqGeq, SeqLt, Signed, SeqOf, AllRight, Buffered, Sender.Noted, Sender.Duplicate,
        Sender.State, Sender.Noting, Sender.Moves, Sender.Removing, Repeats, Newer;
      AckFacts(ack);
      var dup := NoteAck(sq, ack, cwindow, payloadLen);
      MoveNxt(ack, at, dup);
      stuck := RemoveAcked(ack);
    }

    /** nty_tcp_process_ack in the states from ESTABLISHED on.  `finState` says that the state is one after our
        close or the peer's; `cwindow` is the window as scaled at src/nty_tcp.c:1403-1407.

        An acceptable ack moves snd_una and the buffer's head up to it, and never back.  The order of the send
        variables survives except when snd_nxt is moved to an ack older than the buffer's head; the model's
        second result `astray` observes that. */
    method ProcessAck(finState: bool, sq: u32, ackSeq: u32, cwindow: u32, payloadLen: nat)
        returns (stuck: bool, astray: bool)
      requires Valid() && sndbuf != null
      modifies `peerWnd, `sndWl1, `sndWl2, `dupAcks, `lastAckSeq, `sndNxt, `nxtPos, `ssthresh, `cwnd, `nrtx, `onSendList
      modifies `sndUna, `unaPos, `sndWnd, `onRto, sndbuf
      ensures Valid()
      ensures var ack := old(DataAck(finState, ackSeq)); var at := old(AckPos(ack));
              var moves := old(MovesNxt(sq, ack, cwindow, payloadLen));
              if !old(Acceptable(ack)) then unchanged(this) && unchanged(sndbuf) && !stuck && !astray
              else
                && at <= |written| && (stuck <==> at == old(Head()) - TWO31)
                && Head() == Max(old(Head()), at)
                && unaPos == (if old(Head()) < at then at else old(unaPos))
                && nxtPos == (if moves then at else old(nxtPos))
                && (astray <==> moves && at < old(Head()))
                && (old(InOrder()) ==> (InOrder() <==> !astray))
                && Noted(sq, ack, cwindow, payloadLen)
                && (onSendList ==> old(onSendList) || nxtPos <= |written|)
                && (at <= old(Head()) ==> onRto == old(onRto))
      ensures State() == Processed(old(State()), finState, sq, ackSeq, cwindow, payloadLen)
    {
      hide Wrap, SeqGt, SeqGeq, SeqLt, Signed, SeqOf, AllRight, Buffered, MovesNxt, Sender.Noted, Sender.Acked,
        Sender.State;
      stuck, astray := false, false;
      Counts();
      var ack := DataAck(finState, ackSeq);
      if SeqGt(ack, Wrap(sndbuf.headSeq + sndbuf.len)) { return; }
      AckFacts(ack);
      ForwardMoves(sq, ack, cwindow, payloadLen);
      astray := MovesNxt(sq, ack, cwindow, payloadLen) && SeqLt(ack, sndbuf.headSeq);
      stuck := AcceptAck(sq, ack, cwindow, payloadLen, AckPos(ack));
    }

    /** An acceptable ack from before the buffer's head that nevertheless moves snd_nxt. */
    ghost predicate Stale(finState: bool, sq: u32, ackSeq: u32, cwindow: u32, payloadLen: nat)
      reads this, sndbuf
    {
      var ack := DataAck(finState, ackSeq);
      sndbuf != null && Acceptable(ack) && MovesNxt(sq, ack, cwindow, payloadLen) && AckPos(ack) < Head()
    }

    /** The same, as nty_tcp_process leaves it possible: without the window. */
    ghost predicate Misleads(finState: bool, sq: u32, ackSeq: u32, payloadLen: nat)
      reads `sndbuf, `isFinSent, `fss, `written, `sndNxt, `lastAckSeq, `sndWl1, `sndWl2, `dupAcks, sndbuf
    {
      var ack := DataAck(finState, ackSeq);
      && sndbuf != null && Acceptable(ack) && AckPos(ack) < Head()
      && ((Coincides(sq, ack, payloadLen) && dupAcks == 2) || SeqGt(ack, sndNxt))
    }

    lemma StaleMisleads(finState: bool, sq: u32, ackSeq: u32, cwindow: u32, payloadLen: nat)
      requires peerWnd == cwindow
      ensures Stale(finState, sq, ackSeq, cwindow, payloadLen) <==> Misleads(finState, sq, ackSeq, payloadLen)
    {
      hide SeqLt, SeqGt, Sender.Duplicate, Sender.Coincides;
      DuplicateNeeds(sq, DataAck(finState, ackSeq), cwindow, payloadLen);
    }

    /** How many bytes are acknowledged once the ack was processed. */
    ghost function AckedTo(finState: bool, ackSeq: u32): int
      reads `sndbuf, `isFinSent, `fss, `written, sndbuf
    {
      var ack := DataAck(finState, ackSeq);
      if sndbuf != null && Acceptable(ack) then Max(Head(), AckPos(ack)) else Head()
    }

    lemma OrderIs()
      ensures State().nxt == nxtPos && State().head == Head()
    {
    }

    lemma Unbuffered(finState: bool, sq: u32, ackSeq: u32, cwindow: u32, payloadLen: nat)
      ensures sndbuf == null ==> Processed(State(), finState, sq, ackSeq, cwindow, payloadLen) == State()
    {
    }

    /** What the state handlers rely on: an ack keeps snd_una at the buffer's head, and the ack of the FIN empties
        the buffer. */
    method TakeAck(finState: bool, sq: u32, ackSeq: u32, cwindow: u32, payloadLen: nat) returns (astray: bool)
      requires Valid() && InOrder()
      modifies `peerWnd, `sndWl1, `sndWl2, `dupAcks, `lastAckSeq, `sndNxt, `nxtPos, `ssthresh, `cwnd, `nrtx, `onSendList
      modifies `sndUna, `unaPos, `sndWnd, `onRto, sndbuf
      ensures Valid() && (InOrder() <==> !astray) && astray == old(Stale(finState, sq, ackSeq, cwindow, payloadLen))
      ensures old(unaPos == Head()) ==> unaPos == Head()
      ensures astray <==> State().nxt < State().head
      ensures State() == Processed(old(State()), finState, sq, ackSeq, cwindow, payloadLen)
      ensures Head() == old(AckedTo(finState, ackSeq))
      ensures old(Head()) == |written| ==> Head() == old(Head()) && unaPos == old(unaPos) && onRto == old(onRto)
      ensures onSendList ==> old(onSendList) || nxtPos <= |written|
      ensures old(nxtPos) <= |written| ==> nxtPos <= |written|
      ensures sndbuf == null ==> onRto == old(onRto) && onSendList == old(onSendList)
      ensures finState && isFinSent && ackSeq == Wrap(fss + 1) && fss == SeqOf(iss, |written|) ==>
                Head() == |written| && !astray
    {
      hide Valid, SeqOf, Wrap, MovesNxt, Acceptable, Sender.Noted, Sender.State, Sender.Processed;
      astray := false;
      Unbuffered(finState, sq, ackSeq, cwindow, payloadLen);
      if sndbuf != null {
        if finState && isFinSent && ackSeq == Wrap(fss + 1) && fss == SeqOf(iss, |written|) { FinAckPos(ackSeq); }
        var stuck;
        stuck, astray := ProcessAck(finState, sq, ackSeq, cwindow, payloadLen);
      } else {
        NoBuffer();
      }
      OrderIs();
    }

    // ------------------------------------------------------------ opening, closing, retransmission

    /** The SYN/ACK of nty_tcp_send_controlpkt in state SYN_RCVD (src/nty_tcp.c:2179-2182). */
    method SendSyn(routed: bool) returns (ret: int)
      requires Valid() && unaPos == -1 && Head() == 0
      modifies `sndNxt, `nxtPos, `onRto
      ensures Valid() && ret == (if routed then 1 else -2)
      ensures nxtPos == (if routed then 0 else -1) && onRto == (old(onRto) || routed)
      ensures State() == SynSent(old(State()), routed)
    {
      hide AllRight, Buffered;
      sndNxt, nxtPos := iss, -1;
      if !routed { return -2; }
      sndNxt, nxtPos := Wrap(sndNxt + 1), 0;
      onRto := true;
      ret := 1;
    }

    /** snd_nxt back on the SYN (src/nty_tcp.c:964). */
    method BackToSyn()
      requires Valid() && Head() == 0
      modifies `sndNxt, `nxtPos
      ensures Valid() && nxtPos == -1 && State() == old(State()).(nxt := -1)
    {
      hide AllRight, Buffered;
      sndNxt, nxtPos := iss, -1;
    }

    twostate lemma SynCounted()
      requires unchanged(`sndbuf, `written, `fss, `isFinSent, `fins, `peerWnd, `sndWl1, `sndWl2, `dupAcks, `lastAckSeq)
      requires unchanged(`ssthresh, `onSendq, `onSendList) && (sndbuf != null ==> unchanged(sndbuf))
      requires unaPos == nxtPos == 0 && !onRto && nrtx == 0 && cwnd == if old(cwnd) == 1 then 2 * mss else mss
      ensures State() == Opened(old(State()))
    {
    }

    /** The ack of our SYN (src/nty_tcp.c:917-924). */
    method Establish(ackSeq: u32)
      requires Valid() && unaPos == -1 && Head() == 0 && ackSeq == Wrap(iss + 1)
      modifies `sndUna, `unaPos, `sndNxt, `nxtPos, `cwnd, `nrtx, `onRto
      ensures Valid() && unaPos == nxtPos == 0 && !onRto && nrtx == 0 && State() == Opened(old(State()))
      ensures cwnd == if old(cwnd) == 1 then 2 * mss else mss
    {
      hide AllRight, Buffered, Wrap, SeqOf, State, Sender.Opened;
      SeqOfAdd(iss, -1, 1);
      FirstByte(iss);
      sndUna, unaPos := Wrap(sndUna + 1), 0;
      sndNxt, nxtPos := ackSeq, 0;
      cwnd := if cwnd == 1 then 2 * mss else mss;
      nrtx, onRto := 0, false;
      SynCounted();
    }

    /** The FIN's sequence number, fixed when the application's close is handled (src/nty_tcp.c:1945-1949). */
    method SetFss()
      requires Valid()
      modifies `fss
      ensures sndbuf != null || nxtPos == 0 ==> fss == SeqOf(iss, |written|)
      ensures Valid() && State() == FssSet(old(State()))
    {
      hide AllRight, Wrap, SeqOf;
      if sndbuf != null {
        HeadSeqIs();
        SeqOfAdd(iss, Head(), sndbuf.len);
        fss := Wrap(sndbuf.headSeq + sndbuf.len);
      } else {
        fss := sndNxt;
      }
    }

    /** The fields that the connection sets. */
    method StopTimer()
      modifies `onRto
      ensures !onRto && State() == old(State()).(onRto := false)
    {
      onRto := false;
    }

    method Drop()
      modifies `onSendList, `onRto
      ensures !onSendList && !onRto && State() == old(State()).(onSendList := false, onRto := false)
    {
      onSendList, onRto := false, false;
    }

    /** The retransmissions so far (src/nty_timer.c:210). */
    method CountTimeout()
      modifies `nrtx
      ensures nrtx == old(nrtx) + 1 && State() == old(State()).(nrtx := old(State()).nrtx + 1)
    {
      nrtx := nrtx + 1;
    }

    method SetSending(sending: bool)
      modifies `onSendList
      ensures onSendList == sending && State() == old(State()).(onSendList := sending)
    {
      onSendList := sending;
    }

    method LeaveSendq()
      modifies `onSendq
      ensures !onSendq && State() == old(State()).(onSendq := false)
    {
      onSendq := false;
    }

    /** nty_tcp_process stores the window of every segment (src/nty_tcp.c:1634-1638). */
    method SetPeerWnd(window: u32)
      modifies `peerWnd
      ensures peerWnd == window && State() == old(State()).(peerWnd := window)
    {
      peerWnd := window;
    }

    lemma NotBeyond()
      requires Valid()
      ensures isFinSent || nxtPos <= |written|
    {
    }

    lemma HeadWithin()
      requires Valid()
      ensures Head() <= |written| <= Head() + MAX_SEND_BUFFER
    {
    }

    /** After the rollback, data is waiting before the FIN just when the buffer is not empty. */
    lemma RolledBack()
      requires Valid() && nxtPos == Head() && fss == SeqOf(iss, |written|)
      ensures SeqLt(sndNxt, fss) <==> Head() < |written|
      ensures SeqLt(sndNxt, fss) ==> sndbuf != null
    {
      hide AllRight, Wrap, SeqLt;
      SeqOrder(iss + 1 + Head(), iss + 1 + |written|);
    }

    lemma AllRoom()
      requires Valid() && sndbuf == null
      ensures sndWnd == size
    {
    }

    lemma NoBuffer()
      requires Valid() && sndbuf == null
      ensures written == [] && Head() == 0
    {
    }

    lemma HeadSeqIs()
      requires Valid() && sndbuf != null
      ensures sndbuf.headSeq == SeqOf(iss, Head())
    {
      hide AllRight, Wrap;
      WrapAdd(iss + 1, Head());
    }

    twostate lemma FinCounted(routed: bool)
      requires unchanged(`sndbuf, `written, `unaPos, `fss, `peerWnd, `sndWl1, `sndWl2, `dupAcks, `lastAckSeq)
      requires unchanged(`cwnd, `ssthresh, `nrtx, `onSendq, `onSendList) && (sndbuf != null ==> unchanged(sndbuf))
      requires nxtPos == old(nxtPos) + (if routed then 1 else 0)
      requires isFinSent == (old(isFinSent) || routed) && onRto == (old(onRto) || routed)
      requires fins == old(fins) + if routed then [fss] else []
      ensures State() == FinSent(old(State()), routed)
    {
    }

    /** nty_tcp_send_tcppkt with FIN and ACK: the FIN goes out under `fss` (src/nty_tcp.c:545-552, 592-610). */
    method SendFin(routed: bool) returns (ret: int)
      requires Valid()
      modifies `sndNxt, `nxtPos, `isFinSent, `fins, `onRto
      ensures Valid() && ret == (if routed then 1 else -2)
      ensures nxtPos == old(nxtPos) + (if routed then 1 else 0)
      ensures isFinSent == (old(isFinSent) || routed) && onRto == (old(onRto) || routed)
      ensures fins == old(fins) + if routed then [fss] else []
      ensures State() == FinSent(old(State()), routed)
      ensures old(FinsAfterData()) && fss == SeqOf(iss, |written|) ==> FinsAfterData()
    {
      hide AllRight, Buffered, Wrap, SeqOf, State, FinSent;
      ret := -2;
      if routed {
        isFinSent := true;
        fins := fins + [fss];
        SeqOfAdd(iss, nxtPos, 1);
        sndNxt, nxtPos := Wrap(sndNxt + 1), nxtPos + 1;
        onRto := true;
        ret := 1;
      }
      FinCounted(routed);
    }

    /** The ack of our FIN in LAST_ACK (src/nty_tcp.c:1066-1067). */
    method LastAcked()
      requires Valid()
      modifies `sndUna, `unaPos, `nrtx, `onRto
      ensures Valid() && unaPos == old(unaPos) + 1 && nrtx == 0 && (onRto <==> SeqGt(sndNxt, sndUna))
      ensures State() == LastDone(old(State()))
    {
      hide AllRight, Buffered, Wrap, SeqOf, SeqGt;
      SeqOfAdd(iss, unaPos, 1);
      sndUna, unaPos := Wrap(sndUna + 1), unaPos + 1;
      nrtx, onRto := 0, SeqGt(sndNxt, sndUna);
    }

    twostate lemma FinAckCounted(moves: bool)
      requires unchanged(`sndbuf, `written, `fss, `isFinSent, `fins, `peerWnd, `sndWl1, `sndWl2, `dupAcks, `lastAckSeq)
      requires unchanged(`cwnd, `ssthresh, `onSendq, `onSendList) && (sndbuf != null ==> unchanged(sndbuf))
      requires unaPos == |written| + 1 && !onRto && nrtx == 0
      requires nxtPos == if moves then |written| + 1 else old(nxtPos)
      ensures State() == FinDone(old(State()), moves)
    {
    }

    /** The ack of our FIN in FIN_WAIT_1 (src/nty_tcp.c:1104-1111) and CLOSING (1201-1203). */
    method FinAcked(ack: u32, always: bool)
      requires Valid() && isFinSent && ack == Wrap(fss + 1) && fss == SeqOf(iss, |written|)
      modifies `sndUna, `unaPos, `sndNxt, `nxtPos, `nrtx, `onRto
      ensures Valid() && unaPos == |written| + 1 && !onRto && nrtx == 0
      ensures nxtPos == if always || SeqGt(ack, old(sndNxt)) then |written| + 1 else old(nxtPos)
      ensures State() == FinDone(old(State()), always || SeqGt(ack, SeqOf(iss, old(State()).nxt)))
    {
      hide AllRight, Buffered, Wrap, SeqOf, SeqGt, State, FinDone;
      NumberOf();
      SeqOfAdd(iss, |written|, 1);
      sndUna, unaPos := ack, |written| + 1;
      ghost var moves := always || SeqGt(ack, sndNxt);
      if always || SeqGt(ack, sndNxt) { sndNxt, nxtPos := ack, |written| + 1; }
      nrtx, onRto := 0, false;
      FinAckCounted(moves);
    }

    /** A FIN's ack acknowledges all the data. */
    lemma FinAckPos(ackSeq: u32)
      requires isFinSent && ackSeq == Wrap(fss + 1) && fss == SeqOf(iss, |written|) && sndbuf != null && Valid()
      ensures Acceptable(DataAck(true, ackSeq)) && AckPos(DataAck(true, ackSeq)) == |written| && Head() <= |written|
    {
      hide AllRight, Wrap, SeqOf, SeqGt;
      HeadSeqIs();
      SeqOfAdd(iss, Head(), sndbuf.len);
      BackAndForth(fss);
      NotAfterItself(fss);
    }

    /** HandleRTO's part of the sender (src/nty_timer.c:249-253, 312): snd_nxt falls back to snd_una. */
    method Rollback()
      requires Valid() && unaPos <= |written|
      modifies `ssthresh, `cwnd, `sndNxt, `nxtPos
      ensures Valid() && nxtPos == unaPos && cwnd == mss
      ensures ssthresh == Max(Min(old(cwnd), peerWnd) / 2, 2 * mss) && State() == BackToUna(old(State()))
    {
      hide AllRight, Buffered, Wrap, SeqOf;
      ssthresh := Min(cwnd, peerWnd) / 2;
      if ssthresh < 2 * mss { ssthresh := 2 * mss; }
      cwnd := mss;
      sndNxt, nxtPos := sndUna, unaPos;
    }

    /** The first ack of a sender that has sent its two bytes, under the numbers 101 and 102. */
    lemma AckOfBoth()
      requires Valid() && sndbuf != null && iss == 100 && |written| == nxtPos == 2 && sndWl1 == MAXSEQ
      ensures Acceptable(103) && AckPos(103) == 2 && DataAck(false, 103) == 103
      ensures NewerWindow(103, 103, 5000) && !Duplicate(103, 103, 5000, 0) && !MovesNxt(103, 103, 5000, 0)
    {
      hide AllRight;
      HeadSeqIs();
      assert sndNxt == 103 && SeqOf(100, 2) == 103;
      AckArith(iss, 2, Head(), 103);
    }

    /** An ack for the first byte again, after that. */
    lemma OldAck()
      requires Valid() && sndbuf != null && iss == 100 && |written| == nxtPos == 2
      requires sndWl1 == sndWl2 == 103 && peerWnd == 5000
      ensures Acceptable(101) && AckPos(101) == 0 && DataAck(false, 101) == 101
      ensures !NewerWindow(103, 101, 5000) && (Duplicate(103, 101, 5000, 0) <==> 101 == lastAckSeq)
      ensures MovesNxt(103, 101, 5000, 0) <==> 101 == lastAckSeq && dupAcks == 2
    {
      hide AllRight;
      HeadSeqIs();
      assert sndNxt == 103 && SeqOf(100, 2) == 103;
      DuplicateNeeds(103, 101, 5000, 0);
    }

    /** An ack half the number space away from the end of the data. */
    lemma FarAck()
      requires Valid() && sndbuf != null && iss == 100 && |written| == 2
      ensures Acceptable(0x8000_0067) && AckPos(0x8000_0067) == 2 - TWO31 && DataAck(false, 0x8000_0067) == 0x8000_0067
    {
      hide AllRight;
      HeadSeqIs();
      assert SeqOf(100, 2) == 103;
    }

    lemma ForwardMoves(sq: u32, ack: u32, cwindow: u32, payloadLen: nat)
      ensures SeqGt(ack, sndNxt) ==> MovesNxt(sq, ack, cwindow, payloadLen)
    {
    }
  }

  /** A sender whose SYN was acknowledged. */
  method Opened() returns (s: Sender)
    ensures s.Valid() && fresh(s.Footprint()) && s.sndbuf == null && s.written == [] && s.nxtPos == s.unaPos == 0
    ensures s.iss == 100 && s.size == 8192 && s.mss == 1460 && s.effMss == 1448 && s.cwnd == 2920 && s.peerWnd == 5000
    ensures s.sndWl1 == MAXSEQ && s.sndWl2 == 0 && s.dupAcks == 0
  {
    hide AllRight, Sender.Buffered, SeqOf, Wrap, Sender.Valid;
    s := new Sender(100, 8192, 1460, 1448, 5000);
    var ret := s.SendSyn(true);
    FirstByte(100);
    s.Establish(101);
  }

  /** A sender whose application has written two bytes, which are sent. */
  method TwoBytesSent() returns (s: Sender)
    ensures s.Valid() && s.sndbuf != null && fresh(s.Footprint())
    ensures s.iss == 100 && s.effMss == 1448 && |s.written| == s.nxtPos == 2 && s.Head() == s.unaPos == 0
    ensures s.peerWnd == 5000 && s.sndWl1 == MAXSEQ && s.sndWl2 == 0 && s.dupAcks == 0
  {
    hide AllRight, Sender.Buffered, SeqOf, Wrap, Consecutive, Plan, Sender.Valid;
    s := Opened();
    s.AllRoom();
    var ret := s.CopyFromUser([1, 2]);
    var packets, wack, sent := s.Flush(1, false);
    OneSegment();
  }

  lemma OneSegment()
    ensures Plan(0, 0, 0, 2, 2920, 1460, 1) == (1, 2)
  {
    assert Plan(1, 2, 0, 2, 2918, 1460, 0) == (1, 2);
  }

  /** The two bytes are acknowledged.  The peer's sequence number, 103, is the number of our next byte. */
  method TwoBytesAcked() returns (s: Sender)
    ensures s.Valid() && s.sndbuf != null && fresh(s.Footprint())
    ensures s.iss == 100 && s.effMss == 1448 && |s.written| == 2 && s.Head() == s.nxtPos == 2
    ensures s.peerWnd == 5000 && s.sndWl1 == s.sndWl2 == s.lastAckSeq == 103 && s.dupAcks == 0
  {
    hide AllRight, Sender.Buffered, SeqOf, Wrap, Sender.Valid, Sender.MovesNxt, Sender.NewerWindow, Sender.Duplicate,
      Sender.AckPos, Sender.Acceptable;
    s := TwoBytesSent();
    s.AckOfBoth();
    var stuck, astray := s.ProcessAck(false, 103, 103, 5000, 0);
  }

  /** A run that leads snd_nxt astray: four times an ack older than the buffer's head arrives, three of which count as
      duplicates.  The next flush would fail its assertion. */
  method GoesAstray() returns (s: Sender, astray: bool)
    ensures astray && s.Valid() && s.nxtPos == 0 && s.Head() == 2
  {
    hide AllRight, Sender.Buffered, SeqOf, Wrap, Sender.Valid, Sender.MovesNxt, Sender.NewerWindow, Sender.Duplicate,
      Sender.AckPos, Sender.Acceptable, Sender.State, Sender.Processed;
    s := TwoBytesAcked();
    var stuck;
    astray := false;
    for i := 0 to 4
      invariant s.Valid() && s.sndbuf != null && fresh(s.Footprint()) && s.effMss == 1448
      invariant s.iss == 100 && |s.written| == 2 && s.Head() == 2
      invariant s.peerWnd == 5000 && s.sndWl1 == s.sndWl2 == 103
      invariant if i < 4 then s.nxtPos == 2 else s.nxtPos == 0 && astray
      invariant if i == 0 then s.lastAckSeq == 103 && s.dupAcks == 0 else s.lastAckSeq == 101 && s.dupAcks == i - 1
    {
      s.OldAck();
      stuck, astray := s.ProcessAck(false, 103, 101, 5000, 0);
    }
  }

  /** A run that takes the early return with the lock held: an ack exactly 2^31 before the head of the empty buffer. */
  method GetsStuck() returns (s: Sender, stuck: bool)
    ensures stuck && s.Valid() && s.Head() == |s.written| == 2
  {
    hide AllRight, Sender.Buffered, SeqOf, Wrap, Sender.Valid, Sender.MovesNxt, Sender.NewerWindow, Sender.Duplicate,
      Sender.AckPos, Sender.Acceptable;
    s := TwoBytesAcked();
    var astray;
    s.FarAck();
    stuck, astray := s.ProcessAck(false, 103, 0x8000_0067, 5000, 0);
  }

  /** The test of src/nty_tcp.c:1522 never succeeds: a partial segment does not count. */
  lemma NoPartialPacket(n: nat, m: nat)
    requires 0 < m
    ensures (n / m) * m <= n
  {
  }

  lemma BackAndForth(a: u32)
    ensures Wrap(Wrap(a + 1) - 1) == a && Wrap(a - a) == 0
  {
  }

  lemma NotAfterItself(a: u32)
    ensures !SeqGt(a, a)
  {
  }

  lemma AckArith(iss: u32, end: int, head: int, ack: u32)
    requires head <= end <= head + MAX_SEND_BUFFER
    ensures Wrap(SeqOf(iss, head) + (end - head)) == SeqOf(iss, end)
    ensures !SeqGt(ack, SeqOf(iss, end)) ==>
              var p := end + Signed(Wrap(ack - SeqOf(iss, end)));
              && SeqOf(iss, p) == ack && end - TWO31 <= p <= end
              && (SeqGeq(SeqOf(iss, head), ack) <==> p <= head && p != head - TWO31)
              && (SeqLt(ack, SeqOf(iss, head)) <==> p < head)
              && (head < p ==> Wrap(ack - SeqOf(iss, head)) == p - head)
              && (p == head - TWO31 <==> end == head && Wrap(ack - SeqOf(iss, head)) == TWO31)
  {
    SeqOfAdd(iss, head, end - head);
    var p := end + Signed(Wrap(ack - SeqOf(iss, end)));
    SignedLeads(ack, SeqOf(iss, end));
    SeqOfAdd(iss, end, p - end);
    if !SeqGt(ack, SeqOf(iss, end)) {
      HeadToAck(iss, head, p);
    }
  }

  lemma HeadToAck(iss: u32, head: int, p: int)
    requires -TWO31 <= p - head <= MAX_SEND_BUFFER
    ensures SeqGeq(SeqOf(iss, head), SeqOf(iss, p)) <==> p <= head && p != head - TWO31
    ensures SeqLt(SeqOf(iss, p), SeqOf(iss, head)) <==> p < head
    ensures head < p ==> Wrap(SeqOf(iss, p) - SeqOf(iss, head)) == p - head
    ensures Wrap(SeqOf(iss, p) - SeqOf(iss, head)) == TWO31 <==> p == head - TWO31
  {
    hide Wrap;
    var h, q := iss + 1 + head, iss + 1 + p;
    WrapSub(h, q);
    WrapSub(q, h);
    Residue(p - head);
    Residue(head - p);
  }

  lemma Residue(d: int)
    requires -TWO31 <= d <= TWO31
    ensures Wrap(d) == if d < 0 then d + TWO32 else d
  {
  }

  lemma NoneConsecutive(p: int)
    ensures Consecutive([], p, p)
  {
  }

  lemma Snoc(start: seq<Emission>, was: seq<Emission>, now: seq<Emission>, from: int)
    requires start <= was && |now| == |was| + 1 && was == now[..|was|]
    requires Consecutive(was[|start|..], from, now[|was|].at)
    ensures start <= now && Consecutive(now[|start|..], from, now[|was|].at + |now[|was|].payload|)
  {
    assert now[|start|..] == was[|start|..] + [now[|was|]];
    ConsecutiveSnoc(was[|start|..], from, now[|was|]);
  }

  lemma FirstByte(iss: u32)
    ensures SeqOf(iss, 0) == Wrap(iss + 1)
    ensures iss == 100 ==> SeqOf(iss, 0) == 101
  {
  }

  lemma SeqOfAdd(iss: u32, p: int, n: int)
    ensures Wrap(SeqOf(iss, p) + n) == SeqOf(iss, p + n)
  {
    WrapAdd(iss + 1 + p, n);
  }
}
