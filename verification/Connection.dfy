/** One connection from the SYN to its end: the state handlers of src/nty_tcp.c (lines 693-1215, 1572-1717), the
    close path of nty_tcp_handle_apicall (1917-1997), the per-stream part of the three write loops (2168-2457) and
    the timers of src/nty_timer.c (206-344, 417-483), over the send and receive sides. */
module Connection {
  import opened SeqArith
  import Fragments
  import opened ReceivePath
  import opened SendPath

  // nty_tcp_state (include/nty_tcp.h:74-86).  Streams are created by a SYN and leave LISTEN within the same call.
  datatype TcpState = CLOSED | SYN_RCVD | ESTABLISHED | CLOSE_WAIT | FIN_WAIT_1 | CLOSING | LAST_ACK | FIN_WAIT_2
      | TIME_WAIT

  datatype Segment = Segment(syn: bool, ack: bool, fin: bool, rst: bool, sq: u32, ackSeq: u32, cwindow: u32,
      payload: seq<u8>)

  // What nty_tcp_validseq makes of the timestamp option (src/nty_tcp.c:696-717).
  datatype Timestamp = Unused | Missing | Old | Current

  /** The states in which the application has closed. */
  predicate OurClose(s: TcpState) { s in {FIN_WAIT_1, FIN_WAIT_2, CLOSING, LAST_ACK, TIME_WAIT} }

  /** The transitions of RFC 9293 section 3.10.7.4 for a segment that acknowledges our FIN (`acked`) or brings the
      peer's FIN in order (`fin`). */
  function RfcNext(s: TcpState, acked: bool, fin: bool): TcpState {
    match s
    case ESTABLISHED => if fin then CLOSE_WAIT else s
    case FIN_WAIT_1 => if acked && fin then TIME_WAIT else if acked then FIN_WAIT_2 else if fin then CLOSING else s
    case FIN_WAIT_2 => if fin then TIME_WAIT else s
    case CLOSING => if acked then TIME_WAIT else s
    case LAST_ACK => if acked then CLOSED else s
    case _ => s
  }

  /** The code's transitions: src/nty_tcp.c:1140 stores NTY_TCP_TIMEWAIT, a duration of 0, where the state
      NTY_TCP_TIME_WAIT is meant, and 0 is NTY_TCP_CLOSED. */
  function CodeNext(s: TcpState, acked: bool, fin: bool): TcpState {
    if s == FIN_WAIT_1 && acked && fin then CLOSED else RfcNext(s, acked, fin)
  }

  /** The state after the application's close. */
  function AfterOpen(s: TcpState): TcpState {
    match s
    case ESTABLISHED => FIN_WAIT_1
    case CLOSE_WAIT => LAST_ACK
    case _ => s
  }

  /** Everything that can happen to a connection.  `room`, `routed`, `quiet` and `accepted` are what the environment
      grants; see the methods. */
  datatype Event =
    | Arrives(seg: Segment, ts: Timestamp, accepted: bool)
    | Sends(bytes: seq<u8>)
    | Receives(len: int)
    | Closes
    | ApiRound
    | ControlRound(routed: bool)
    | AckRound(room: nat)
    | DataRound(room: nat, quiet: bool)
    | RtoTimer
    | TimewaitTimer
    | IdleTimer

  /** The fields of a connection that are neither its sender's nor its receiver's. */
  datatype Control = Control(state: TcpState, onControlList: bool, onAckList: bool, ackCnt: nat, isWack: bool,
    controlListWaiting: bool, onTimewait: bool, onTimeout: bool, onCloseq: bool, onCloseqInt: bool, closed: bool,
    haveReset: bool, onDestroyq: bool, destroyed: bool, halted: bool)

  /** A connection over stream positions: the machine the code is compared with. */
  datatype View = View(c: Control, s: SendState, r: Received, emitted: seq<Emission>)

  class Connection {
    const snd: Sender
    const rcv: Receiver
    var state: TcpState
    var onControlList: bool
    var onAckList: bool
    var ackCnt: nat
    var isWack: bool
    var controlListWaiting: bool
    var onTimewait: bool
    var onTimeout: bool
    var onCloseq: bool
    var onCloseqInt: bool
    var closed: bool
    var haveReset: bool
    var onDestroyq: bool
    // the stream has been destroyed
    var destroyed: bool
    // The model says nothing further: the process has ended (a failed assertion, or exit at src/nty_tcp.c:913); or
    // snd_nxt was moved before the send buffer's head, and the next flush asserts that it is not there
    // (2104-2111); or a SYN on an established connection overwrote snd_nxt (974-983).
    var halted: bool

    ghost function Footprint(): set<object>
      reads snd`sndbuf
    {
      {this, rcv, rcv.buf, rcv.buf.data} + snd.Footprint()
    }

    ghost predicate Parts()
      reads snd`sndbuf
    {
      && {this as object, rcv, rcv.buf, rcv.buf.data} !! snd.Footprint()
    }

    /** What each state says about the two sides. */
    ghost predicate Phase(v: View) {
      var c, s, r := v.c, v.s, v.r;
      var unacked := s.una == s.head <= s.nxt;
      && (s.onSendList || s.onSendq ==> s.buffered)
      && (c.onCloseq ==> c.closed) && (c.onDestroyq ==> c.state == CLOSED)
      && (OurClose(c.state) ==>
            c.closed && !s.onSendq && !c.onCloseq && s.fss == SeqOf(snd.iss, |s.written|))
      && (c.state != CLOSED && !OurClose(c.state) ==> !s.finSent && !r.st.discarding)
      && (c.onTimewait ==> c.state in {TIME_WAIT, CLOSED} && !s.onRto) && (c.state == CLOSED ==> !s.onRto)
      && (c.state in {ESTABLISHED, CLOSE_WAIT} && s.onRto ==> s.buffered)
      && (c.state in {FIN_WAIT_1, LAST_ACK} && s.onSendList ==> s.nxt <= |s.written|)
      && (match c.state
          case CLOSED => true
          case SYN_RCVD => s.una == -1 && !s.buffered && s.written == [] && r.fins == 0 && !c.onTimeout && !c.closed
          case ESTABLISHED => unacked && r.fins == 0
          case CLOSE_WAIT => unacked && (r.fins == 1 || c.haveReset)
          case FIN_WAIT_1 => unacked && r.fins == 0
          case CLOSING => unacked && r.fins == 1
          case LAST_ACK => unacked && r.fins == 1
          case FIN_WAIT_2 => FinAcked(s) && s.head <= s.nxt && r.fins == 0
          case TIME_WAIT => FinAcked(s) && r.fins == 1)
    }

    /** Our FIN was sent, and snd_una stands after it: it was acknowledged by the number fss + 1. */
    ghost predicate FinAcked(s: SendState) {
      s.finSent && s.una == |s.written| + 1 && s.head == |s.written| && !s.onRto
    }

    /** What holds of the machine at all times; of its state nothing is known once it has ended. */
    ghost predicate Sound(v: View) {
      v.c.ackCnt < 64 && FinsAfter(v.s.fins, |v.s.written|) && (Alive(v) ==> Phase(v))
    }

    /** Every FIN that went out has the number that follows the last byte written. */
    ghost predicate FinsAfter(fins: seq<u32>, end: nat) {
      forall i :: 0 <= i < |fins| ==> fins[i] == SeqOf(snd.iss, end)
    }

    ghost predicate Alive(v: View) { !v.c.halted && !v.c.destroyed }

    /** The two sides are valid and apart. */
    ghost predicate Base()
      reads this, snd, snd.Footprint(), rcv, rcv.buf, rcv.buf.data
    {
      Parts() && snd.Valid() && rcv.Valid() && rcv.Logged()
    }

    ghost predicate Valid()
      reads this, snd, snd.Footprint(), rcv, rcv.buf, rcv.buf.data
    {
      Base() && Sound(Seen())
    }

    // ------------------------------------------------------------ the machine

    ghost function Ctl(): Control
      reads this
    {
      Control(state, onControlList, onAckList, ackCnt, isWack, controlListWaiting, onTimewait, onTimeout, onCloseq,
        onCloseqInt, closed, haveReset, onDestroyq, destroyed, halted)
    }

    ghost function Seen(): View
      requires rcv.Valid()
      reads this, snd, snd.sndbuf, rcv, rcv.buf, rcv.buf.data
    {
      View(Ctl(), snd.State(), rcv.View(), snd.emitted)
    }

    ghost function Acking(c: Control, now: bool): Control {
      c.(ackCnt := if now then (c.ackCnt + 1) % 64 else if c.ackCnt == 0 then 1 else c.ackCnt, onAckList := true)
    }

    ghost function Controlled(v: View): View { v.(c := v.c.(onControlList := true)) }

    ghost function To(v: View, state: TcpState): View { v.(c := v.c.(state := state)) }

    /** DestroyTcpStream. */
    ghost function Gone(v: View): View {
      v.(c := Unlisted(v.c), s := v.s.(onSendList := false, onRto := false))
    }

    ghost function Unlisted(c: Control): Control {
      c.(destroyed := true, onControlList := false, onAckList := false, onTimewait := false, onTimeout := false)
    }

    ghost function Waiting(v: View): View { v.(c := v.c.(onTimewait := true), s := v.s.(onRto := false)) }

    /** Received data is acknowledged: at once if it did not extend what can be read, with other data otherwise. */
    ghost function Payloaded(v: View, seg: Segment): View {
      if seg.payload == [] then v
      else
        var finWait := v.c.state in {FIN_WAIT_1, FIN_WAIT_2};
        var r := Heard(v.r, seg.payload, seg.sq, finWait, rcv.buf.data.Length, rcv.buf.initSeq);
        v.(r := r, c := Acking(v.c, r.next == v.r.next))
    }

    ghost function AckDone(v: View, seg: Segment): View {
      var s := snd.Processed(v.s, v.c.state != ESTABLISHED, seg.sq, seg.ackSeq, seg.cwindow, |seg.payload|);
      v.(s := s, c := v.c.(halted := s.nxt < s.head))
    }

    /** The peer's FIN is in order. */
    ghost predicate InTurn(v: View, seg: Segment) { Wrap(seg.sq + |seg.payload|) == v.r.nxt }

    /** The peer's FIN, if it is in order, leads to the state `next` and is answered; TIME_WAIT, and the CLOSED that
        stands for it, wait on the list. */
    ghost function FinTaken(v: View, seg: Segment, next: TcpState): View {
      if !InTurn(v, seg) then v
      else
        var w := if next in {TIME_WAIT, CLOSED} then Waiting(To(v, next)) else To(v, next);
        Controlled(w).(r := FinHeard(v.r))
    }

    ghost predicate OfFin(v: View, seg: Segment) { v.s.finSent && seg.ackSeq == Wrap(v.s.fss + 1) }

    ghost function InEstablished(v: View, seg: Segment): View {
      if seg.syn then Controlled(v).(c := v.c.(onControlList := true, halted := true))
      else
        var w := if seg.ack then AckDone(Payloaded(v, seg), seg) else Payloaded(v, seg);
        if !seg.fin then w
        else if InTurn(w, seg) then FinTaken(w, seg, CLOSE_WAIT)
        else w.(c := Acking(w.c, true))
    }

    ghost function InCloseWait(v: View, seg: Segment): View {
      if SeqLt(seg.sq, v.r.nxt) then Controlled(v) else AckDone(v, seg)
    }

    ghost function InLastAck(v: View, seg: Segment): View {
      if SeqLt(seg.sq, v.r.nxt) then v
      else if !seg.ack then Controlled(v)
      else
        var w := AckDone(v, seg);
        if !w.s.finSent then w
        else if OfFin(w, seg) then Gone(To(w, CLOSED).(s := snd.LastDone(w.s)))
        else Controlled(w)
    }

    ghost function AckedInFinWait1(v: View, seg: Segment): View {
      var w := AckDone(v, seg);
      if OfFin(w, seg) then To(w, FIN_WAIT_2).(s := snd.FinDone(w.s, SeqGt(seg.ackSeq, SeqOf(snd.iss, w.s.nxt)))) else w
    }

    ghost function InFinWait1(v: View, seg: Segment): View {
      if SeqLt(seg.sq, v.r.nxt) then Controlled(v)
      else if !seg.ack then v
      else
        var w := Payloaded(AckedInFinWait1(v, seg), seg);
        if seg.fin then FinTaken(w, seg, if w.c.state == FIN_WAIT_1 then CLOSING else CLOSED) else w
    }

    ghost function InFinWait2(v: View, seg: Segment): View {
      if !seg.ack then v
      else
        var w := Payloaded(AckDone(v, seg), seg);
        if seg.fin then FinTaken(w, seg, TIME_WAIT) else w
    }

    ghost function InClosing(v: View, seg: Segment): View {
      if !seg.ack then v
      else
        var w := AckDone(v, seg);
        if OfFin(w, seg) then Waiting(To(w, TIME_WAIT).(s := snd.FinDone(w.s, true))) else w
    }

    ghost function SynAnswered(v: View, seg: Segment, accepted: bool): View {
      if !seg.ack then Controlled(v).(s := v.s.(nxt := -1))
      else if seg.ackSeq != Wrap(snd.iss + 1) then v.(c := v.c.(halted := true))
      else Accepted(v, accepted)
    }

    ghost function Accepted(v: View, accepted: bool): View {
      v.(s := snd.Opened(v.s), c := v.c.(state := if accepted then ESTABLISHED else CLOSED,
        onControlList := v.c.onControlList || !accepted, onTimeout := true))
    }

    ghost function InSynRcvd(v: View, seg: Segment, accepted: bool): View {
      if seg.syn && seg.sq == rcv.irs then Controlled(v)
      else
        var w := SynAnswered(v, seg, accepted);
        if seg.payload != [] && w.c.state == ESTABLISHED then InEstablished(w, seg) else w
    }

    ghost function InTimeWait(v: View): View { Controlled(if v.c.onTimewait then Waiting(v) else v) }

    ghost function Dispatched(v: View, seg: Segment, accepted: bool): View {
      match v.c.state
      case SYN_RCVD => InSynRcvd(v, seg, accepted)
      case ESTABLISHED => InEstablished(v, seg)
      case CLOSE_WAIT => InCloseWait(v, seg)
      case LAST_ACK => InLastAck(v, seg)
      case FIN_WAIT_1 => InFinWait1(v, seg)
      case FIN_WAIT_2 => InFinWait2(v, seg)
      case CLOSING => InClosing(v, seg)
      case TIME_WAIT => InTimeWait(v)
      case CLOSED => v
    }

    ghost function ResetBy(v: View, seg: Segment): View {
      if v.c.state == SYN_RCVD then if seg.ackSeq == SeqOf(snd.iss, v.s.nxt) then Gone(To(v, CLOSED)) else v
      else if OurClose(v.c.state) then Gone(To(v, CLOSED))
      else if v.c.onCloseq || v.c.onCloseqInt then v
      else To(v, CLOSE_WAIT)
    }

    ghost function Handled(v: View, seg: Segment, accepted: bool): View {
      var w := v.(s := v.s.(peerWnd := seg.cwindow));
      if !seg.rst then Dispatched(w, seg, accepted)
      else
        var x := w.(c := w.c.(haveReset := true));
        if w.c.state == CLOSED then x else ResetBy(x, seg)
    }

    /** The segment lies in the window. */
    ghost predicate Fits(v: View, seg: Segment) {
      SeqBetween(Wrap(seg.sq + |seg.payload|), v.r.nxt, Wrap(v.r.nxt + v.r.wnd))
    }

    /** An old timestamp is answered, and so is a segment that is not in the window. */
    ghost function Checked(v: View, seg: Segment, ts: Timestamp): View {
      if !seg.rst && ts == Missing then v
      else
        var w := if !seg.rst && ts == Old then v.(c := Acking(v.c, true)) else v;
        if seg.rst || Fits(v, seg) then w else Refused(w, seg)
    }

    ghost function Refused(v: View, seg: Segment): View {
      if v.c.state == ESTABLISHED then
        v.(c := Acking(v.c, Wrap(seg.sq + 1) != v.r.nxt && !SeqLeq(seg.sq, v.r.nxt)))
      else Controlled(if v.c.state == TIME_WAIT then Waiting(v) else v)
    }

    ghost function Arrived(v: View, seg: Segment, ts: Timestamp, accepted: bool): View {
      if v.c.state in {CLOSED, SYN_RCVD} then Handled(v, seg, accepted)
      else if (seg.rst || ts != Missing) && Fits(v, seg) then Handled(Checked(v, seg, ts), seg, accepted)
      else Checked(v, seg, ts)
    }

    ghost function Promoted(c: Control, otherList: bool): Control {
      if c.controlListWaiting && !otherList then c.(controlListWaiting := false, onControlList := true) else c
    }

    /** The control packet waits until the stream has left the send and the ack list. */
    ghost predicate Deferred(v: View) {
      v.c.state in {FIN_WAIT_1, LAST_ACK, CLOSED} && (v.s.onSendList || v.c.onAckList)
    }

    ghost function Advertised(v: View): View { v.(r := WindowTold(v.r)) }

    ghost function ControlSent(v: View, routed: bool): View {
      if Deferred(v) then v
      else
        var w := if routed then Advertised(v) else v;
        match v.c.state
        case SYN_RCVD => w.(s := snd.SynSent(w.s, routed))
        case FIN_WAIT_1 | LAST_ACK => w.(s := snd.FinSent(w.s, routed))
        case CLOSING =>
          if !w.s.finSent || SeqOf(snd.iss, w.s.nxt) == w.s.fss then w.(s := snd.FinSent(w.s, routed)) else w
        case CLOSED => if routed then Gone(w) else w
        case _ => w
    }

    /** A control packet; it stays queued if it is deferred or there is no frame for it. */
    ghost function ControlWritten(v: View, routed: bool): View {
      var w := ControlSent(v.(c := v.c.(onControlList := false)), routed);
      if Deferred(v) || !routed then Controlled(w) else w
    }

    ghost function AcksSent(v: View, n: nat): View {
      v.(c := v.c.(ackCnt := Max(v.c.ackCnt - n, 0)), r := if 0 < n then WindowTold(v.r) else v.r)
    }

    ghost function ProbeSent(v: View): View { v.(c := v.c.(isWack := false), r := WindowTold(v.r)) }

    /** As many acks as there are frames, and a window probe after them. */
    ghost function AcksTried(v: View, room: nat): View {
      var n := Min(v.c.ackCnt, room);
      var w := AcksSent(v, n);
      var x := if w.c.isWack && n < room then ProbeSent(w) else w;
      if x.c.ackCnt == 0 && !x.c.isWack then x.(c := x.c.(onAckList := false)) else x
    }

    ghost predicate Owes(v: View) {
      && v.c.state in {ESTABLISHED, CLOSE_WAIT, FIN_WAIT_1, FIN_WAIT_2, TIME_WAIT}
      && SeqLeq(v.r.nxt, Wrap(rcv.buf.initSeq + v.r.next))
    }

    ghost function AckWritten(v: View, room: nat): View {
      if Owes(v) then
        var w := AcksTried(v, room);
        w.(c := Promoted(w.c, w.s.onSendList))
      else v.(c := Promoted(v.c.(ackCnt := 0, isWack := false, onAckList := false), v.s.onSendList))
    }

    ghost predicate Flushing(v: View) {
      v.c.state in {ESTABLISHED, CLOSE_WAIT, FIN_WAIT_1, LAST_ACK} && !(v.c.state == ESTABLISHED && v.c.onControlList)
    }

    /** What a turn in the data loop comes to, and where snd_nxt ends: in ESTABLISHED a control packet goes first, and
        after our FIN was acknowledged, or in CLOSING, nothing is sent. */
    ghost function Turn(v: View, room: nat): (int, int) {
      if v.c.state == ESTABLISHED && v.c.onControlList then (-1, v.s.nxt)
      else if Flushing(v) then snd.PlanOf(v.s, room)
      else (0, v.s.nxt)
    }

    ghost function ProbeQueued(v: View): View { v.(c := v.c.(isWack := true, onAckList := true)) }

    /** `emitted` is what has been sent after the flush. */
    ghost function DataFlushed(v: View, room: nat, quiet: bool, emitted: seq<Emission>): View {
      var w := v.(s := snd.Flushes(v.s, room), emitted := emitted);
      var x := if snd.Probes(v.s, room, quiet) then ProbeQueued(w) else w;
      if v.s.nxt < w.s.nxt then Advertised(x) else x
    }

    /** The flush succeeded: its segments stand for acks, and the stream leaves the list. */
    ghost function SendListLeft(v: View, ret: nat): View {
      v.(c := v.c.(ackCnt := Max(v.c.ackCnt - ret, 0)), s := v.s.(onSendList := false))
    }

    ghost function DataWritten(v: View, room: nat, quiet: bool, emitted: seq<Emission>): View {
      var ret := Turn(v, room).0;
      var w := if Flushing(v) then DataFlushed(v, room, quiet, emitted) else v;
      if ret < 0 then w
      else
        var x := SendListLeft(w, ret);
        x.(c := Promoted(x.c, x.c.onAckList))
    }

    ghost function Awaiting(v: View): View { v.(c := v.c.(controlListWaiting := true)) }

    ghost function CloseBegun(v: View): View {
      var next := AfterOpen(v.c.state);
      if v.c.haveReset then if v.c.state == CLOSED then v else Gone(To(v, CLOSED))
      else if v.c.onControlList then v.(c := v.c.(onCloseqInt := true))
      else if v.s.onSendList || v.c.onAckList then Awaiting(To(v, next))
      else if v.c.state == CLOSED then v
      else Controlled(To(v, next))
    }

    ghost function CloseTaken(v: View): View {
      v.(s := snd.FssSet(v.s), c := v.c.(onCloseq := false, onTimeout := false))
    }

    ghost function SendQueued(v: View): View {
      if v.s.onSendq then v.(s := v.s.(onSendq := false, onSendList := true)) else v
    }

    ghost function AckQueued(v: View): View {
      if v.r.onAckq then v.(r := v.r.(onAckq := false), c := Acking(v.c, false)) else v
    }

    ghost function DestroyServed(v: View): View {
      if v.c.onDestroyq && !v.c.destroyed then Gone(v.(c := v.c.(onDestroyq := false))) else v
    }

    /** The queues of the application's calls: send, ack, close and destroy. */
    ghost function ApiServed(v: View): View {
      var w := AckQueued(SendQueued(v));
      DestroyServed(if w.c.onCloseq then CloseBegun(CloseTaken(w)) else w)
    }

    ghost function SentBy(v: View, bytes: seq<u8>): View {
      if v.c.state in {ESTABLISHED, CLOSE_WAIT} then v.(s := snd.Accepts(v.s, bytes)) else v
    }

    ghost function ReadDone(v: View, len: int, user: seq<u8>, misread: bool): View {
      if v.c.state !in {ESTABLISHED, CLOSE_WAIT} then v
      else v.(r := ReadBy(v.r, len, user, misread, rcv.buf.data.Length, snd.effMss))
    }

    ghost function Closed(v: View): View {
      if v.c.closed then v
      else
        v.(c := v.c.(closed := true, onDestroyq := v.c.onDestroyq || v.c.state == CLOSED,
            onCloseq := v.c.onCloseq || v.c.state in {ESTABLISHED, CLOSE_WAIT}))
    }

    /** After a timeout snd_nxt goes back to snd_una, and the list that sends again takes the stream; after 16 of them
        the connection ends. */
    ghost function TimedOut(v: View): View {
      var w := v.(s := v.s.(onRto := false));
      if TCP_MAX_RTX <= v.s.nrtx then Gone(To(w, CLOSED))
      else Requeued(w.(s := snd.BackToUna(w.s.(nrtx := v.s.nrtx + 1))))
    }

    ghost function Requeued(v: View): View {
      if v.c.state in {ESTABLISHED, CLOSE_WAIT} then Resent(v)
      else if v.c.state in {FIN_WAIT_1, CLOSING, LAST_ACK} && SeqLt(SeqOf(snd.iss, v.s.nxt), v.s.fss) then
        Resent(Swapped(v))
      else Controlled(v)
    }

    /** The control packet waits for the send list. */
    ghost function Swapped(v: View): View { v.(c := v.c.(onControlList := false, controlListWaiting := true)) }

    ghost function Resent(v: View): View { v.(s := v.s.(onSendList := true)) }

    /** What the view says of the fields. */
    lemma Linked()
      requires rcv.Valid() && snd.Valid()
      ensures var v := Seen();
              && v.c == Ctl() && v.c.state == state && v.s == snd.State() && v.r == rcv.View()
                  && v.emitted == snd.emitted
              && v.r.nxt == rcv.rcvNxt && v.r.wnd == rcv.rcvWnd && v.r.next == rcv.NextPos()
                  && v.r.fins == rcv.finsConsumed
              && v.s.finSent == snd.isFinSent && v.s.fss == snd.fss && v.s.nxt == snd.nxtPos && v.s.head == snd.Head()
              && v.s.una == snd.unaPos && v.s.nrtx == snd.nrtx && v.s.onRto == snd.onRto
              && v.s.onSendList == snd.onSendList && v.s.onSendq == snd.onSendq && v.s.written == snd.written
              && snd.sndNxt == SeqOf(snd.iss, v.s.nxt) && v.r.onAckq == rcv.onAckq
    {
      hide Receiver.Valid, SeqOf, Wrap;
    }

    // ------------------------------------------------------------ the machine keeps sound

    /** What a handler may rely on. */
    lemma Sides()
      requires Valid()
      ensures Base() && rcv.Valid() && Sound(Seen()) && snd.Sane(Seen().s) && (Live() <==> Alive(Seen()))
                && Seen().c.state == state
      ensures Live() && state in {ESTABLISHED, CLOSE_WAIT, FIN_WAIT_1, CLOSING, LAST_ACK, FIN_WAIT_2} ==> snd.InOrder()
      ensures Live() && state in {SYN_RCVD, ESTABLISHED, FIN_WAIT_1, FIN_WAIT_2} ==> rcv.finsConsumed == 0
      ensures Live() && state in {SYN_RCVD, ESTABLISHED, CLOSE_WAIT} ==> !rcv.discarding && !snd.isFinSent
      ensures Live() && OurClose(state) ==> snd.fss == SeqOf(snd.iss, |snd.written|)
      ensures Live() && state == SYN_RCVD ==> snd.sndbuf == null && snd.unaPos == -1 && !onTimeout
      ensures Live() && onDestroyq ==> state == CLOSED
    {
      hide Sender.Valid, Sender.Sane, Receiver.Valid, Receiver.Logged, SeqOf, Wrap;
      Linked();
      snd.IsSane();
      rcv.StateIs();
    }

    lemma SoundPayload(v: View, seg: Segment)
      requires Sound(v)
      ensures Sound(Payloaded(v, seg)) && Payloaded(v, seg).s == v.s && Payloaded(v, seg).r.fins == v.r.fins
      ensures Payloaded(v, seg).c.state == v.c.state && (Alive(Payloaded(v, seg)) <==> Alive(v))
      ensures Payloaded(v, seg).c.destroyed == v.c.destroyed
    {
      hide SeqOf, Readable, EndOf, Stored, FinsAfter;
    }

    lemma PhaseAck(v: View, s: SendState, c: Control)
      requires Phase(v) && snd.Advances(v.s, s) && s.head <= s.nxt && (v.s.buffered || s == v.s)
      requires v.c.state !in {SYN_RCVD, CLOSED, TIME_WAIT} && c == v.c.(halted := false)
      ensures Phase(v.(s := s, c := c))
    {
      hide SeqOf;
    }

    lemma PhaseFins(v: View)
      requires Sound(v) && Alive(v) && v.c.state in {ESTABLISHED, FIN_WAIT_1, FIN_WAIT_2}
      ensures v.r.fins == 0
    {
      hide SeqOf;
    }

    lemma PhaseFss(v: View)
      requires Phase(v) && OurClose(v.c.state)
      ensures v.s.fss == SeqOf(snd.iss, |v.s.written|)
    {
      hide SeqOf;
    }

    lemma AckKeeps(v: View, seg: Segment)
      requires snd.Sane(v.s)
      ensures var w := AckDone(v, seg);
              && snd.Sane(w.s) && w.r == v.r && w.c.state == v.c.state && w.c.destroyed == v.c.destroyed
              && (OfFin(w, seg) <==> OfFin(v, seg)) && w.s.fins == v.s.fins && w.s.written == v.s.written
    {
      hide Sender.Processed, SeqOf, Wrap, Sender.Sane;
      snd.ProcessedAdvances(v.s, v.c.state != ESTABLISHED, seg.sq, seg.ackSeq, seg.cwindow, |seg.payload|);
    }

    lemma SoundAck(v: View, seg: Segment)
      requires Sound(v) && snd.Sane(v.s) && Alive(v) && v.c.state !in {SYN_RCVD, CLOSED, TIME_WAIT}
      ensures Sound(AckDone(v, seg))
    {
      hide Sender.Processed, SeqOf, Wrap, FinsAfter, Phase, Sender.Sane, Sender.Advances;
      snd.ProcessedAdvances(v.s, v.c.state != ESTABLISHED, seg.sq, seg.ackSeq, seg.cwindow, |seg.payload|);
      var w := AckDone(v, seg);
      if !w.c.halted { PhaseAck(v, w.s, w.c); }
      AckKeeps(v, seg);
    }

    /** The ack of our FIN acknowledges all the data. */
    lemma FinAckDone(v: View, seg: Segment)
      requires Sound(v) && snd.Sane(v.s) && Alive(v) && OurClose(v.c.state) && OfFin(v, seg)
      ensures AckDone(v, seg).s.head == |AckDone(v, seg).s.written|
    {
      hide Sender.Processed, SeqOf, Wrap, FinsAfter, Phase;
      snd.ProcessedAdvances(v.s, v.c.state != ESTABLISHED, seg.sq, seg.ackSeq, seg.cwindow, |seg.payload|);
      PhaseFss(v);
    }

    lemma FinTakenIs(v: View, seg: Segment, next: TcpState)
      requires InTurn(v, seg)
      ensures var w := FinTaken(v, seg, next);
              && w.r == FinHeard(v.r) && w.c.ackCnt == v.c.ackCnt && w.c.onAckList == v.c.onAckList
              && w.s.fins == v.s.fins && w.s.written == v.s.written && (Alive(w) <==> Alive(v))
              && (if next in {TIME_WAIT, CLOSED}
                  then w.c == v.c.(state := next, onControlList := true, onTimewait := true)
                    && w.s == v.s.(onRto := false)
                  else w.c == v.c.(state := next, onControlList := true) && w.s == v.s)
    {
    }

    lemma SoundFin(v: View, seg: Segment, next: TcpState)
      requires Sound(v) && (Alive(v) ==> v.r.fins == 0)
      requires (v.c.state, next) in {(ESTABLISHED, CLOSE_WAIT), (FIN_WAIT_1, CLOSING), (FIN_WAIT_2, CLOSED),
                (FIN_WAIT_2, TIME_WAIT)}
      ensures Sound(FinTaken(v, seg, next))
    {
      hide SeqOf, InTurn, FinTaken, Phase, FinsAfter;
      if InTurn(v, seg) {
        FinTakenIs(v, seg, next);
        if Alive(v) { PhaseFin(v, next, FinTaken(v, seg, next)); }
      } else {
        FinNotTaken(v, seg, next);
      }
    }

    lemma PhaseFin(v: View, next: TcpState, w: View)
      requires Phase(v) && v.r.fins == 0 && w.r == FinHeard(v.r)
      requires (v.c.state, next) in {(ESTABLISHED, CLOSE_WAIT), (FIN_WAIT_1, CLOSING), (FIN_WAIT_2, CLOSED),
                (FIN_WAIT_2, TIME_WAIT)}
      requires if next in {TIME_WAIT, CLOSED}
               then w.c == v.c.(state := next, onControlList := true, onTimewait := true) && w.s == v.s.(onRto := false)
               else w.c == v.c.(state := next, onControlList := true) && w.s == v.s
      ensures Phase(w)
    {
      hide SeqOf;
    }

    lemma FinNotTaken(v: View, seg: Segment, next: TcpState)
      requires !InTurn(v, seg)
      ensures FinTaken(v, seg, next) == v
    {
    }

    lemma SoundFinAcked(v: View, moves: bool)
      requires Sound(v) && snd.Sane(v.s) && v.c.state in {FIN_WAIT_1, CLOSING} && !v.c.destroyed
      requires v.s.finSent && v.s.head == |v.s.written|
      ensures v.c.state == FIN_WAIT_1 ==> Sound(To(v, FIN_WAIT_2).(s := snd.FinDone(v.s, moves)))
      ensures v.c.state == CLOSING ==> Sound(Waiting(To(v, TIME_WAIT).(s := snd.FinDone(v.s, moves))))
    {
      hide SeqOf;
    }

    lemma SoundHalted(v: View)
      requires Sound(v)
      ensures Sound(Controlled(v).(c := v.c.(onControlList := true, halted := true)))
    {
    }

    lemma SoundEstablished(v: View, seg: Segment)
      requires Sound(v) && snd.Sane(v.s) && Alive(v) && v.c.state == ESTABLISHED
      ensures Sound(InEstablished(v, seg))
    {
      hide SeqOf, Wrap, Payloaded, AckDone, FinTaken, InTurn, Sender.Sane, OfFin, Sound, Acking, Controlled;
      if seg.syn {
        SoundHalted(v);
      } else {
        PhaseFins(v);
        SoundPayload(v, seg);
        var u := Payloaded(v, seg);
        SoundAck(u, seg);
        AckKeeps(u, seg);
        var w := if seg.ack then AckDone(u, seg) else u;
        SoundFin(w, seg, CLOSE_WAIT);
        SoundAcking(w, true);
      }
    }

    lemma SoundLastAck(v: View, seg: Segment)
      requires Sound(v) && snd.Sane(v.s) && Alive(v) && v.c.state == LAST_ACK
      ensures Sound(InLastAck(v, seg))
    {
      hide SeqOf, Wrap, SeqLt, AckDone, SeqGt, OfFin;
      SoundAck(v, seg);
      AckKeeps(v, seg);
    }

    lemma SoundFinWait1(v: View, seg: Segment)
      requires Sound(v) && snd.Sane(v.s) && Alive(v) && v.c.state == FIN_WAIT_1
      ensures Sound(InFinWait1(v, seg))
    {
      hide SeqOf, Wrap, SeqLt, SeqGt, AckDone, Payloaded, FinTaken, Sender.FinDone;
      SoundAck(v, seg);
      AckKeeps(v, seg);
      var u := AckDone(v, seg);
      var moves := SeqGt(seg.ackSeq, SeqOf(snd.iss, u.s.nxt));
      if OfFin(u, seg) {
        FinAckDone(v, seg);
        SoundFinAcked(u, moves);
      }
      var x := if OfFin(u, seg) then To(u, FIN_WAIT_2).(s := snd.FinDone(u.s, moves)) else u;
      SoundPayload(x, seg);
      var w := Payloaded(x, seg);
      SoundFin(w, seg, if w.c.state == FIN_WAIT_1 then CLOSING else CLOSED);
    }

    lemma SoundFinWait2(v: View, seg: Segment)
      requires Sound(v) && snd.Sane(v.s) && Alive(v) && v.c.state == FIN_WAIT_2
      ensures Sound(InFinWait2(v, seg))
    {
      hide SeqOf, Wrap, AckDone, Payloaded, FinTaken;
      SoundAck(v, seg);
      AckKeeps(v, seg);
      SoundPayload(AckDone(v, seg), seg);
      SoundFin(Payloaded(AckDone(v, seg), seg), seg, TIME_WAIT);
    }

    lemma SoundClosing(v: View, seg: Segment)
      requires Sound(v) && snd.Sane(v.s) && Alive(v) && v.c.state == CLOSING
      ensures Sound(InClosing(v, seg))
    {
      hide SeqOf, Wrap, AckDone, Sender.FinDone;
      SoundAck(v, seg);
      AckKeeps(v, seg);
      var w := AckDone(v, seg);
      if OfFin(w, seg) {
        FinAckDone(v, seg);
        SoundFinAcked(w, true);
      }
    }

    lemma SoundAccepted(v: View, accepted: bool)
      requires Sound(v) && snd.Sane(v.s) && Alive(v) && v.c.state == SYN_RCVD
      ensures var w := Accepted(v, accepted); Sound(w) && snd.Sane(w.s) && Alive(w)
    {
      hide SeqOf, FinsAfter;
    }

    lemma SoundSynAnswered(v: View, seg: Segment, accepted: bool)
      requires Sound(v) && snd.Sane(v.s) && Alive(v) && v.c.state == SYN_RCVD
      ensures var w := SynAnswered(v, seg, accepted);
              Sound(w) && snd.Sane(w.s) && (w.c.state == ESTABLISHED ==> Alive(w))
    {
      hide SeqOf, Wrap, Accepted, FinsAfter;
      SoundAccepted(v, accepted);
    }

    lemma SoundSynRcvd(v: View, seg: Segment, accepted: bool)
      requires Sound(v) && snd.Sane(v.s) && Alive(v) && v.c.state == SYN_RCVD
      ensures Sound(InSynRcvd(v, seg, accepted))
    {
      hide SeqOf, Wrap, InEstablished, SynAnswered, Sound, Sender.Sane;
      SoundSynAnswered(v, seg, accepted);
      SoundControlled(v);
      var w := SynAnswered(v, seg, accepted);
      if w.c.state == ESTABLISHED { SoundEstablished(w, seg); }
    }

    lemma SoundDispatched(v: View, seg: Segment, accepted: bool)
      requires Sound(v) && snd.Sane(v.s) && Alive(v)
      ensures Sound(Dispatched(v, seg, accepted))
    {
      hide SeqOf, Wrap, SeqLt, Sound, AckDone, InEstablished, InLastAck, InFinWait1, InFinWait2, InClosing, InSynRcvd,
        InTimeWait;
      match v.c.state {
        case SYN_RCVD => SoundSynRcvd(v, seg, accepted);
        case ESTABLISHED => SoundEstablished(v, seg);
        case CLOSE_WAIT => SoundAck(v, seg); SoundControlled(v);
        case LAST_ACK => SoundLastAck(v, seg);
        case FIN_WAIT_1 => SoundFinWait1(v, seg);
        case FIN_WAIT_2 => SoundFinWait2(v, seg);
        case CLOSING => SoundClosing(v, seg);
        case TIME_WAIT => SoundTimeWait(v);
        case CLOSED =>
      }
    }

    lemma SoundControlled(v: View)
      requires Sound(v)
      ensures Sound(Controlled(v))
    {
    }

    lemma SoundTimeWait(v: View)
      requires Sound(v) && Alive(v) && v.c.state == TIME_WAIT
      ensures Sound(InTimeWait(v)) && Sound(Waiting(v))
    {
    }

    lemma SoundAcking(v: View, now: bool)
      requires Sound(v)
      ensures Sound(v.(c := Acking(v.c, now)))
    {
    }

    lemma SoundReset(v: View, seg: Segment)
      requires Sound(v) && snd.Sane(v.s) && Alive(v) && v.c.state != CLOSED && v.c.haveReset
      ensures Sound(ResetBy(v, seg))
    {
      hide SeqOf;
    }

    lemma SoundRefused(v: View, seg: Segment)
      requires Sound(v) && Alive(v)
      ensures Sound(Refused(v, seg)) && Alive(Refused(v, seg)) && Refused(v, seg).c.state == v.c.state
      ensures snd.Sane(v.s) ==> snd.Sane(Refused(v, seg).s)
    {
      hide SeqOf, Wrap, SeqLeq, Sound;
      SoundAcking(v, Wrap(seg.sq + 1) != v.r.nxt && !SeqLeq(seg.sq, v.r.nxt));
      if v.c.state == TIME_WAIT { SoundTimeWait(v); }
      SoundControlled(if v.c.state == TIME_WAIT then Waiting(v) else v);
    }

    lemma SoundChecked(v: View, seg: Segment, ts: Timestamp)
      requires Sound(v) && Alive(v)
      ensures Sound(Checked(v, seg, ts)) && Alive(Checked(v, seg, ts)) && Checked(v, seg, ts).c.state == v.c.state
      ensures snd.Sane(v.s) ==> snd.Sane(Checked(v, seg, ts).s)
    {
      hide Fits, Sound, Refused, Sender.Sane;
      var w := if !seg.rst && ts == Old then v.(c := Acking(v.c, true)) else v;
      SoundAcking(v, true);
      SoundRefused(w, seg);
    }

    lemma NextIs()
      requires Base()
      ensures Seen().r.nxt == rcv.rcvNxt && Seen().r.next == rcv.NextPos() && Seen().c.state == state
    {
      hide Parts, Sender.Valid, Receiver.Logged, Receiver.Valid;
    }

    lemma OrderIs()
      requires Base()
      ensures Seen().s.nxt == snd.nxtPos && Seen().s.head == snd.Head() && Seen().c.state == state
    {
      hide Parts, Sender.Valid, Receiver.Logged, Receiver.Valid, Receiver.View;
    }

    lemma FinIs()
      requires Base()
      ensures Seen().s.finSent == snd.isFinSent && Seen().s.fss == snd.fss
    {
      hide Parts, Sender.Valid, Receiver.Logged, Receiver.Valid, Receiver.View;
    }

    lemma SoundControlWritten(v: View, routed: bool)
      requires Sound(v) && snd.Sane(v.s) && Alive(v)
      ensures Sound(ControlWritten(v, routed))
    {
      hide Sound, ControlSent, Alive;
      SoundOffList(v);
      SoundControlSent(v.(c := v.c.(onControlList := false)), routed);
      SoundControlled(ControlSent(v.(c := v.c.(onControlList := false)), routed));
    }

    lemma SoundOffList(v: View)
      requires Sound(v)
      ensures Sound(v.(c := v.c.(onControlList := false)))
      ensures Alive(v.(c := v.c.(onControlList := false))) <==> Alive(v)
    {
      hide SeqOf, FinsAfter;
    }

    lemma SoundControlSent(v: View, routed: bool)
      requires Sound(v) && Alive(v)
      ensures Sound(ControlSent(v, routed))
    {
      hide SeqOf;
      if v.c.state in {FIN_WAIT_1, LAST_ACK, CLOSING} { PhaseFss(v); }
    }

    lemma SoundPromoted(v: View, otherList: bool)
      requires Sound(v)
      ensures Sound(v.(c := Promoted(v.c, otherList)))
    {
      hide SeqOf, FinsAfter;
    }

    lemma SoundAcksSent(v: View, n: nat)
      requires Sound(v)
      ensures Sound(AcksSent(v, n)) && Sound(ProbeSent(v))
      ensures Sound(v.(c := v.c.(onAckList := false)))
      ensures Sound(v.(c := v.c.(ackCnt := 0, isWack := false, onAckList := false)))
    {
      hide SeqOf, FinsAfter;
    }

    lemma SoundAckWritten(v: View, room: nat)
      requires Sound(v) && Alive(v)
      ensures Sound(AckWritten(v, room))
    {
      hide Owes, Sound, AcksSent, ProbeSent, Promoted;
      var n := Min(v.c.ackCnt, room);
      var w := AcksSent(v, n);
      SoundAcksSent(v, n);
      SoundAcksSent(w, n);
      var x := if w.c.isWack && n < room then ProbeSent(w) else w;
      SoundAcksSent(x, n);
      SoundPromoted(AcksTried(v, room), AcksTried(v, room).s.onSendList);
      SoundPromoted(v.(c := v.c.(ackCnt := 0, isWack := false, onAckList := false)), v.s.onSendList);
    }

    lemma SoundFlushed(v: View, room: nat, quiet: bool, emitted: seq<Emission>)
      requires Sound(v) && snd.Sane(v.s) && Alive(v) && Flushing(v) && v.s.onSendList
      ensures Sound(DataFlushed(v, room, quiet, emitted))
    {
      hide SeqOf, Plan, Sender.Probes, Sender.Flushes, FinsAfter, Phase;
      PhaseFlushes(v, room, emitted);
      var w := v.(s := snd.Flushes(v.s, room), emitted := emitted);
      SoundProbe(w);
      SoundProbe(ProbeQueued(w));
    }

    lemma PhaseFlushes(v: View, room: nat, emitted: seq<Emission>)
      requires Sound(v) && snd.Sane(v.s) && Alive(v) && Flushing(v) && v.s.onSendList
      ensures Sound(v.(s := snd.Flushes(v.s, room), emitted := emitted))
    {
      hide SeqOf, Plan, FinsAfter;
      PlanStops(0, v.s.nxt, v.s.una, |v.s.written|, Min(v.s.cwnd, v.s.peerWnd), snd.mss, room);
    }

    lemma SoundProbe(v: View)
      requires Sound(v)
      ensures Sound(ProbeQueued(v)) && Sound(Advertised(v))
    {
      hide SeqOf, FinsAfter;
    }

    lemma SoundLeft(v: View, ret: nat)
      requires Sound(v)
      ensures Sound(SendListLeft(v, ret))
    {
      hide SeqOf, FinsAfter;
    }

    lemma SoundDataWritten(v: View, room: nat, quiet: bool, emitted: seq<Emission>)
      requires Sound(v) && snd.Sane(v.s) && Alive(v) && v.s.onSendList
      ensures Sound(DataWritten(v, room, quiet, emitted))
    {
      hide Sound, DataFlushed, SendListLeft, Turn, Promoted, Sender.Sane;
      if Flushing(v) { SoundFlushed(v, room, quiet, emitted); }
      var w := if Flushing(v) then DataFlushed(v, room, quiet, emitted) else v;
      var ret := Turn(v, room).0;
      if 0 <= ret {
        SoundLeft(w, ret);
        SoundPromoted(SendListLeft(w, ret), SendListLeft(w, ret).c.onAckList);
      }
    }

    lemma SoundSent(v: View, bytes: seq<u8>)
      requires Sound(v) && snd.Sane(v.s) && Alive(v)
      ensures Sound(SentBy(v, bytes))
    {
      hide SeqOf;
    }

    lemma SoundReceived(v: View, len: int, user: seq<u8>, misread: bool)
      requires Sound(v)
      ensures Sound(v.(r := ReadBy(v.r, len, user, misread, rcv.buf.data.Length, snd.effMss)))
    {
      hide SeqOf, FinsAfter;
    }

    lemma SoundClosed(v: View)
      requires Sound(v) && Alive(v) && v.c.state != SYN_RCVD
      ensures Sound(Closed(v))
    {
      hide SeqOf, FinsAfter;
    }

    lemma SoundSendQueued(v: View)
      requires Sound(v) && snd.Sane(v.s) && Alive(v)
      ensures Sound(SendQueued(v))
    {
      hide SeqOf, FinsAfter;
    }

    lemma SoundAckQueued(v: View)
      requires Sound(v)
      ensures Sound(AckQueued(v))
    {
      hide SeqOf, FinsAfter;
    }

    lemma SoundDestroyServed(v: View)
      requires Sound(v)
      ensures Sound(DestroyServed(v))
    {
      hide SeqOf, FinsAfter;
    }

    lemma SoundCloseHandled(v: View)
      requires Sound(v) && snd.Sane(v.s) && Alive(v) && v.c.onCloseq && !v.s.onSendq
      ensures Sound(CloseBegun(CloseTaken(v)))
    {
      hide SeqOf, FinsAfter;
    }

    lemma SoundGone(v: View)
      requires Sound(v)
      ensures Sound(Gone(v)) && Sound(Gone(To(v, CLOSED)))
    {
      hide SeqOf, FinsAfter;
    }

    lemma SoundResent(v: View)
      requires Sound(v) && v.s.buffered && v.s.nxt <= |v.s.written|
      ensures Sound(Resent(v))
    {
      hide SeqOf, FinsAfter;
    }

    lemma SoundSwapped(v: View)
      requires Sound(v)
      ensures Sound(Swapped(v)) && Swapped(v).s == v.s
    {
      hide SeqOf, FinsAfter;
    }

    lemma SoundRequeued(v: View)
      requires Sound(v) && snd.Sane(v.s) && Alive(v) && v.s.nxt == v.s.una <= |v.s.written|
      requires v.c.state in {ESTABLISHED, CLOSE_WAIT} ==> v.s.buffered
      ensures Sound(Requeued(v))
    {
      hide SeqOf, SeqLt, Sound, Resent, Controlled, Swapped;
      SoundControlled(v);
      SoundSwapped(v);
      if v.c.state in {ESTABLISHED, CLOSE_WAIT} {
        SoundResent(v);
      } else if v.c.state in {FIN_WAIT_1, CLOSING, LAST_ACK} && SeqLt(SeqOf(snd.iss, v.s.nxt), v.s.fss) {
        DataBuffered(v);
        SoundResent(Swapped(v));
      }
    }

    lemma DataBuffered(v: View)
      requires Sound(v) && snd.Sane(v.s) && Alive(v) && v.s.nxt == v.s.una && OurClose(v.c.state)
      requires v.c.state in {FIN_WAIT_1, CLOSING, LAST_ACK} && SeqLt(SeqOf(snd.iss, v.s.nxt), v.s.fss)
      ensures v.s.buffered
    {
      hide SeqOf, SeqLt, FinsAfter;
      NotBeforeItself(v.s.fss);
    }

    lemma SoundRolledBack(v: View)
      requires Sound(v) && snd.Sane(v.s) && Alive(v) && v.s.onRto
      ensures var w := v.(s := snd.BackToUna(v.s.(onRto := false, nrtx := v.s.nrtx + 1)));
              && Sound(w) && snd.Sane(w.s) && Alive(w) && w.s.nxt == w.s.una <= |w.s.written|
              && (w.c.state in {ESTABLISHED, CLOSE_WAIT} ==> w.s.buffered)
    {
      hide SeqOf, FinsAfter;
    }

    lemma SoundTimedOut(v: View)
      requires Sound(v) && snd.Sane(v.s) && Alive(v) && v.s.onRto
      ensures Sound(TimedOut(v))
    {
      hide Sound, Sender.Sane, Requeued, Gone, To;
      SoundRolledBack(v);
      SoundRequeued(v.(s := snd.BackToUna(v.s.(onRto := false, nrtx := v.s.nrtx + 1))));
      SoundTimerOff(v);
      SoundGone(v.(s := v.s.(onRto := false)));
    }

    lemma SoundTimerOff(v: View)
      requires Sound(v)
      ensures Sound(v.(s := v.s.(onRto := false)))
    {
      hide SeqOf, FinsAfter;
    }

    /** What can be read off a valid connection without its state. */
    lemma Parties()
      requires Valid()
      ensures Base() && snd.Valid() && rcv.Valid() && {this as object, rcv, rcv.buf, rcv.buf.data} !! snd.Footprint()
      ensures Live() && snd.sndbuf == null ==> !snd.onSendList && !snd.onSendq
    {
      hide Sender.Valid, Receiver.Valid, Receiver.Logged, SeqOf;
      Linked();
    }

    /** After the application's close the FIN's number is fixed. */
    lemma Closing()
      requires Valid() && Live() && OurClose(state)
      ensures snd.fss == SeqOf(snd.iss, |snd.written|)
    {
      hide Sender.Valid, Receiver.Valid, Receiver.Logged, SeqOf;
      Linked();
    }

    /** A SYN arrives for a listening port (src/nty_tcp.c:640-669, 828-843, src/nty_stream.c:211-336): the stream is
        created, with the options of the SYN, and waits in SYN_RCVD for its SYN/ACK to be sent. */
    constructor (irs: u32, iss: u32, rcvSize: nat, sndSize: nat, mss: u16, effMss: Divisor, peerWnd: u32,
        additive: bool)
      requires rcvSize <= Fragments.MAX_SIZE && sndSize <= MAX_SEND_BUFFER
      ensures Valid() && Live() && state == SYN_RCVD && fresh(Footprint())
      ensures rcv.buf.additive == additive && rcv.log == [] && rcv.delivered == [] && rcv.finsConsumed == 0
      ensures snd.written == [] && snd.emitted == [] && !snd.isFinSent && snd.iss == iss && rcv.irs == irs
      ensures snd.sndbuf == null && snd.size == sndSize && snd.mss == mss && snd.peerWnd == peerWnd && snd.cwnd == 1
      ensures rcv.rcvNxt == Wrap(irs + 1) && !rcv.onAckq && !rcv.needWndAdv && snd.fins == [] && snd.nrtx == 0
      ensures onControlList && !onAckList && !controlListWaiting && !closed && !haveReset && ackCnt == 0 && !isWack
      ensures !onTimewait && !onTimeout && !onCloseq && !onCloseqInt && !onDestroyq
    {
      hide Sender.Valid, Receiver.Valid, Receiver.Logged, Receiver.View, SeqOf, Wrap;
      snd := new Sender(iss, sndSize, mss, effMss, peerWnd);
      rcv := new Receiver(rcvSize, irs, additive);
      state, onControlList, onAckList, ackCnt, isWack := SYN_RCVD, true, false, 0, false;
      controlListWaiting, onTimewait, onTimeout, onCloseq, onCloseqInt := false, false, false, false, false;
      closed, haveReset, onDestroyq, destroyed, halted := false, false, false, false, false;
      new;
      Linked();
      rcv.ViewIs();
      snd.IsSane();
    }

    ghost predicate Live()
      reads this
    {
      !halted && !destroyed
    }

    /** nty_tcp_enqueue_acklist with ACK_OPT_NOW or ACK_OPT_AGGREGATE; ack_cnt has six bits. */
    method EnqueueAck(now: bool)
      requires Base()
      modifies `ackCnt, `onAckList
      ensures Base() && onAckList && Seen() == old(Seen()).(c := Acking(old(Seen()).c, now))
    {
      hide Parts, Sender.Valid, Receiver.Valid, Receiver.Logged, Receiver.View, Sender.State;
      if now {
        ackCnt := (ackCnt + 1) % 64;
      } else if ackCnt == 0 {
        ackCnt := 1;
      }
      onAckList := true;
    }

    /** nty_tcp_addto_controllist. */
    method AddToControlList()
      requires Base()
      modifies `onControlList
      ensures Base() && onControlList && Seen() == Controlled(old(Seen()))
    {
      hide Parts, Sender.Valid, Receiver.Valid, Receiver.Logged, Receiver.View, Sender.State;
      onControlList := true;
    }

    method Enter(next: TcpState)
      requires Base()
      modifies `state
      ensures Base() && state == next && Seen() == To(old(Seen()), next)
    {
      hide Parts, Sender.Valid, Receiver.Valid, Receiver.Logged, Receiver.View, Sender.State;
      state := next;
    }

    method LeaveLists()
      requires Base()
      modifies `destroyed, `onControlList, `onAckList, `onTimewait, `onTimeout
      ensures Base() && destroyed
      ensures Seen() == old(Seen()).(c := Unlisted(old(Seen()).c))
    {
      hide Parts, Sender.Valid, Receiver.Valid, Receiver.Logged, Receiver.View, Sender.State, Ctl;
      ClearLists();
    }

    method ClearLists()
      modifies `destroyed, `onControlList, `onAckList, `onTimewait, `onTimeout
      ensures destroyed && Ctl() == Unlisted(old(Ctl()))
    {
      destroyed, onControlList, onAckList, onTimewait, onTimeout := true, false, false, false, false;
    }

    method DropSending()
      requires Base()
      modifies snd`onSendList, snd`onRto
      ensures Base() && !snd.onSendList && !snd.onRto
      ensures Seen() == old(Seen()).(s := old(Seen()).s.(onSendList := false, onRto := false))
    {
      hide Parts, Sender.Valid, Receiver.Valid, Receiver.Logged, Receiver.View, Sender.State, Ctl;
      snd.Drop();
    }

    /** DestroyTcpStream, as far as this stream is concerned. */
    method Destroy()
      requires Base()
      modifies `destroyed, `onControlList, `onAckList, `onTimewait, `onTimeout, snd`onSendList, snd`onRto
      ensures Base() && destroyed && Seen() == Gone(old(Seen()))
    {
      hide Base, Seen, Sound, Sender.Sane;
      LeaveLists();
      DropSending();
    }

    method End()
      requires Base()
      modifies `state, `destroyed, `onControlList, `onAckList, `onTimewait, `onTimeout, snd`onSendList, snd`onRto
      ensures Base() && destroyed && state == CLOSED && Seen() == Gone(To(old(Seen()), CLOSED))
    {
      hide Base, Seen, Sound, Sender.Sane, Gone;
      Enter(CLOSED);
      Destroy();
    }

    /** AddtoTimewaitList (src/nty_timer.c:123-143): the list shares its link with the RTO lists. */
    method EnterTimewaitList()
      requires Base()
      modifies `onTimewait, snd`onRto
      ensures Base() && onTimewait && !snd.onRto && Seen() == Waiting(old(Seen()))
    {
      hide Parts, Sender.Valid, Receiver.Valid, Receiver.Logged, Receiver.View, Sender.State;
      onTimewait := true;
      snd.StopTimer();
    }

    /** The `rcv_nxt ++` for the peer's FIN. */
    method ConsumeFin(seg: Segment)
      requires Base() && rcv.finsConsumed == 0 && Wrap(seg.sq + |seg.payload|) == rcv.rcvNxt
      modifies rcv`rcvNxt, rcv`finsConsumed
      ensures Base() && rcv.finsConsumed == 1 && rcv.rcvNxt == Wrap(seg.sq + |seg.payload| + 1)
      ensures Seen() == old(Seen()).(r := FinHeard(old(Seen()).r))
    {
      hide Parts, Sender.Valid, Receiver.Valid, Receiver.Logged, Receiver.View, Sender.State, Ctl, Wrap, SeqOf;
      WrapAdd(seg.sq + |seg.payload|, 1);
      rcv.ConsumeFin();
    }

    /** Nothing is sent, written or handed to the user. */
    twostate predicate NoData()
      reads snd, rcv
    {
      && snd.emitted == old(snd.emitted) && snd.written == old(snd.written) && snd.fins == old(snd.fins)
      && rcv.delivered == old(rcv.delivered) && rcv.misread == old(rcv.misread)
    }

    /** The receive window moves forward only: neither the next expected byte nor, once the first segment in the window
        has been processed or the user has read, the right edge of what was offered ever goes back. */
    twostate predicate Forward()
      reads rcv`started, rcv`rcvWnd, rcv.buf
    {
      && old(rcv.NextPos()) <= rcv.NextPos()
      && (old(rcv.started) ==> rcv.started && old(rcv.Edge()) <= rcv.Edge())
    }

    /** The receive history gains at most what the segment says. */
    twostate predicate Hears(seg: Segment)
      reads rcv`log
    {
      Entered(old(rcv.log), rcv.log, rcv.buf.initSeq, seg.payload, seg.sq)
    }

    /** nty_tcp_process_payload and the ack it calls for. */
    method TakePayload(seg: Segment)
      requires Base() && rcv.finsConsumed == 0 && |seg.payload| <= MAX_PAYLOAD
      requires rcv.discarding ==> state in {FIN_WAIT_1, FIN_WAIT_2}
      modifies `ackCnt, `onAckList, rcv, rcv.buf, rcv.buf.data
      ensures Base() && rcv.finsConsumed == 0 && NoData() && Forward() && Hears(seg)
      ensures rcv.rcvNxt == Wrap(seg.sq + |seg.payload|) <==> old(rcv.Completes(seg.payload, seg.sq))
      ensures Seen() == Payloaded(old(Seen()), seg) && onAckList == (old(onAckList) || seg.payload != [])
    {
      hide Sender.Valid, Receiver.Valid, Receiver.Logged, Receiver.Completes, Receiver.View, Heard, Ctl, Acking,
        Sender.State, SeqOf, Wrap;
      NextIs();
      if |seg.payload| > 0 {
        var ret := rcv.Hear(seg.payload, seg.sq, state in {FIN_WAIT_1, FIN_WAIT_2});
        NextIs();
        EnqueueAck(ret == 0);
      } else {
        rcv.OutsideCompletes(seg.payload, seg.sq);
      }
    }

    /** nty_tcp_process_ack as the handlers call it. */
    method TakeAck(seg: Segment)
      requires Base() && snd.InOrder()
      modifies `halted, snd, snd.sndbuf
      ensures Base() && snd.sndbuf == old(snd.sndbuf) && NoData()
      ensures snd.isFinSent == old(snd.isFinSent) && snd.fss == old(snd.fss)
      ensures halted == old(StaleAck(seg)) && (halted <==> !snd.InOrder()) && (snd.sndbuf == null ==> !halted)
      ensures snd.Head() == old(snd.AckedTo(state != ESTABLISHED, seg.ackSeq))
      ensures Seen() == AckDone(old(Seen()), seg)
    {
      hide Parts, Sender.Valid, Receiver.Valid, Receiver.Logged, SeqOf, Wrap, Receiver.View, Sender.State,
        Sender.Processed, Sender.AckedTo, Sender.Head, Sender.InOrder;
      halted := snd.TakeAck(state != ESTABLISHED, seg.sq, seg.ackSeq, seg.cwindow, |seg.payload|);
    }

    /** The ack of the segment, if it is processed, is an old one that moves snd_nxt before the buffer's head. */
    ghost predicate StaleAck(seg: Segment)
      reads `state, snd, snd.sndbuf
    {
      snd.Stale(state != ESTABLISHED, seg.sq, seg.ackSeq, seg.cwindow, |seg.payload|)
    }

    /** The same, once nty_tcp_process has taken over the window of the segment. */
    ghost predicate MisledBy(seg: Segment)
      reads `state, snd`sndbuf, snd`isFinSent, snd`fss, snd`written, snd`sndNxt, snd`lastAckSeq, snd`sndWl1
      reads snd`sndWl2, snd`dupAcks, snd.sndbuf
    {
      snd.Misleads(state != ESTABLISHED, seg.sq, seg.ackSeq, |seg.payload|)
    }

    /** The handler of the state processes the ack of the segment. */
    predicate TakesAck(seg: Segment)
      reads `state, rcv`rcvNxt
    {
      match state
      case ESTABLISHED => !seg.syn && seg.ack
      case CLOSE_WAIT => !SeqLt(seg.sq, rcv.rcvNxt)
      case FIN_WAIT_1 | LAST_ACK => seg.ack && !SeqLt(seg.sq, rcv.rcvNxt)
      case FIN_WAIT_2 | CLOSING => seg.ack
      case _ => false
    }

    /** How many bytes are acknowledged once the segment was handled. */
    ghost function HeadAfter(seg: Segment): int
      reads `state, rcv`rcvNxt, snd`sndbuf, snd`isFinSent, snd`fss, snd`written, snd.sndbuf
    {
      if TakesAck(seg) then snd.AckedTo(state != ESTABLISHED, seg.ackSeq) else snd.Head()
    }

    /** The segment ends the model's run: it has a wrong ack of our SYN, it is a SYN on an open connection, or its ack
        is processed and `stale`. */
    predicate Stops(seg: Segment, accepted: bool, stale: bool)
      reads `state, rcv`rcvNxt
    {
      match state
      case SYN_RCVD =>
        && !(seg.syn && seg.sq == rcv.irs) && seg.ack
        && (seg.ackSeq != Wrap(snd.iss + 1) || (accepted && seg.payload != [] && seg.syn))
      case ESTABLISHED => seg.syn || (seg.ack && stale)
      case _ => TakesAck(seg) && stale
    }

    /** What a segment that ended the run leaves behind. */
    ghost predicate StoppedBy(seg: Segment)
      reads `state, snd`nxtPos, snd`sndbuf, snd.sndbuf
    {
      || (state == SYN_RCVD && seg.ack && seg.ackSeq != Wrap(snd.iss + 1))
      || (state == ESTABLISHED && seg.syn)
      || !snd.InOrder()
    }

    /** The segment acknowledges our FIN: its ack number is fss + 1, and it is not turned away as old. */
    predicate AcksFin(seg: Segment)
      reads `state, snd`isFinSent, snd`fss, rcv`rcvNxt
    {
      && seg.ack && snd.isFinSent && seg.ackSeq == Wrap(snd.fss + 1)
      && (state in {FIN_WAIT_1, LAST_ACK} ==> !SeqLt(seg.sq, rcv.rcvNxt))
    }

    /** The segment brings the peer's FIN to be consumed: in order, in a state that waits for it.  In SYN_RCVD it does
        so if it completes the handshake with data and the listener takes the connection. */
    ghost predicate BringsFin(seg: Segment, accepted: bool)
      requires rcv.Valid()
      reads `state, rcv, rcv.buf, rcv.buf.data
    {
      && seg.fin && rcv.Completes(seg.payload, seg.sq)
      && (match state
          case SYN_RCVD => !seg.syn && seg.ack && seg.ackSeq == Wrap(snd.iss + 1) && accepted && seg.payload != []
          case ESTABLISHED => !seg.syn
          case FIN_WAIT_1 => seg.ack && !SeqLt(seg.sq, rcv.rcvNxt)
          case FIN_WAIT_2 => seg.ack
          case _ => false)
    }

    /** The ack of our FIN is never stale. */
    lemma FinIsStale(seg: Segment)
      requires Valid() && Live() && OurClose(state) && snd.isFinSent && seg.ackSeq == Wrap(snd.fss + 1)
      ensures !StaleAck(seg) && snd.AckedTo(true, seg.ackSeq) == |snd.written|
    {
      hide Parts, Sender.Valid, Receiver.Valid, Receiver.Logged, SeqOf, Wrap, Receiver.View, SeqGt, Sender.MovesNxt,
        Sound;
      Sides();
      if snd.sndbuf == null { snd.NoBuffer(); } else { snd.FinAckPos(seg.ackSeq); }
    }

    method HandleEstablished(seg: Segment)
      requires Valid() && Live() && state == ESTABLISHED && |seg.payload| <= MAX_PAYLOAD
      modifies `state, `ackCnt, `onAckList, `onControlList, `halted, rcv, rcv.buf, rcv.buf.data, snd, snd.sndbuf
      ensures Base() && Seen() == InEstablished(old(Seen()), seg)
      ensures Valid() && !destroyed && snd.sndbuf == old(snd.sndbuf) && NoData() && Forward()
      ensures rcv.finsConsumed == if old(BringsFin(seg, true)) then 1 else 0
      ensures state == CodeNext(ESTABLISHED, false, old(BringsFin(seg, true)))
      ensures rcv.finsConsumed == 1 ==> rcv.rcvNxt == Wrap(seg.sq + |seg.payload| + 1)
      ensures Hears(seg)
      ensures (halted <==> old(Stops(seg, true, StaleAck(seg)))) && (halted ==> StoppedBy(seg))
      ensures snd.Head() == old(HeadAfter(seg))
    {
      hide Base, Seen, Sound, Sender.Sane, Receiver.Completes, SeqOf, Wrap, Sender.Stale, Sender.AckedTo, Payloaded,
        AckDone, FinTaken, Acking;
      Sides();
      ghost var was := Seen();
      SoundEstablished(was, seg);
      if seg.syn {
        StopAtSyn();
        return;
      }
      TakePayload(seg);
      if seg.ack { TakeAck(seg); }
      NextIs();
      if seg.fin { FinInEstablished(seg); }
    }

    /** A SYN on an open connection (src/nty_tcp.c:974-983). */
    method StopAtSyn()
      requires Base()
      modifies `onControlList, `halted
      ensures Base() && halted
      ensures Seen() == Controlled(old(Seen())).(c := old(Seen()).c.(onControlList := true, halted := true))
    {
      hide Base, Seen;
      AddToControlList();
      Halt();
    }

    /** The FIN part of ESTABLISHED (src/nty_tcp.c:1000-1023). */
    method FinInEstablished(seg: Segment)
      requires Base() && rcv.finsConsumed == 0 && state == ESTABLISHED
      modifies `state, `onControlList, `ackCnt, `onAckList, rcv`rcvNxt, rcv`finsConsumed
      ensures Base() && rcv.finsConsumed == (if Wrap(seg.sq + |seg.payload|) == old(rcv.rcvNxt) then 1 else 0)
      ensures state == if rcv.finsConsumed == 0 then ESTABLISHED else CLOSE_WAIT
      ensures rcv.rcvNxt == if rcv.finsConsumed == 0 then old(rcv.rcvNxt) else Wrap(seg.sq + |seg.payload| + 1)
      ensures rcv.finsConsumed == 1 ==> Seen() == FinTaken(old(Seen()), seg, CLOSE_WAIT)
      ensures rcv.finsConsumed == 0 ==> Seen() == old(Seen()).(c := Acking(old(Seen()).c, true))
    {
      hide Base, Seen, Sound, Sender.Sane, SeqOf, Wrap, Acking;
      NextIs();
      if Wrap(seg.sq + |seg.payload|) == rcv.rcvNxt {
        Enter(CLOSE_WAIT);
        ConsumeFin(seg);
        AddToControlList();
      } else {
        EnqueueAck(true);
      }
    }

    method HandleCloseWait(seg: Segment)
      requires Valid() && Live() && state == CLOSE_WAIT
      modifies `onControlList, `halted, snd, snd.sndbuf
      ensures Base() && Seen() == InCloseWait(old(Seen()), seg)
      ensures Valid() && !destroyed && snd.sndbuf == old(snd.sndbuf) && NoData()
      ensures (halted <==> old(Stops(seg, true, StaleAck(seg)))) && (halted ==> StoppedBy(seg))
      ensures snd.Head() == old(HeadAfter(seg))
    {
      hide Base, Seen, Sound, Sender.Sane, SeqOf, Wrap, SeqLt, Sender.Stale, Sender.AckedTo, AckDone;
      Sides();
      ghost var was := Seen();
      NextIs();
      SoundDispatched(was, seg, true);
      if SeqLt(seg.sq, rcv.rcvNxt) {
        AddToControlList();
        return;
      }
      TakeAck(seg);
    }

    method HandleLastAck(seg: Segment)
      requires Valid() && Live() && state == LAST_ACK
      modifies `state, `onControlList, `onAckList, `onTimewait, `onTimeout, `destroyed, `halted, snd, snd.sndbuf
      ensures Base() && Seen() == InLastAck(old(Seen()), seg)
      ensures Valid() && snd.sndbuf == old(snd.sndbuf) && NoData()
      ensures state == CodeNext(LAST_ACK, old(AcksFin(seg)), false) && (destroyed <==> state == CLOSED)
      ensures (halted <==> old(Stops(seg, true, StaleAck(seg)))) && (halted ==> StoppedBy(seg))
      ensures snd.Head() == old(HeadAfter(seg))
    {
      hide Base, Seen, Sound, Sender.Sane, SeqOf, Wrap, SeqLt, Sender.Stale, Sender.AckedTo, AckDone, Sender.LastDone;
      Sides();
      ghost var was := Seen();
      NextIs();
      SoundDispatched(was, seg, true);
      if SeqLt(seg.sq, rcv.rcvNxt) { return; }
      if seg.ack {
        TakeAck(seg);
        FinIs();
        if !snd.isFinSent { return; }
        if seg.ackSeq == Wrap(snd.fss + 1) {
          EndLastAck();
        } else {
          AddToControlList();
        }
      } else {
        AddToControlList();
      }
    }

    method AckLast()
      requires Base()
      modifies snd`sndUna, snd`unaPos, snd`nrtx, snd`onRto
      ensures Base() && Seen() == old(Seen()).(s := snd.LastDone(old(Seen()).s))
    {
      hide Parts, Sender.Valid, Receiver.Valid, Receiver.Logged, Receiver.View, Sender.State, Ctl, Sender.LastDone,
        SeqOf, SeqGt;
      snd.LastAcked();
    }

    method EndLastAck()
      requires Base()
      modifies `state, `onControlList, `onAckList, `onTimewait, `onTimeout, `destroyed
      modifies snd`sndUna, snd`unaPos, snd`nrtx, snd`onRto, snd`onSendList
      ensures Base() && state == CLOSED && destroyed
      ensures Seen() == Gone(To(old(Seen()), CLOSED).(s := snd.LastDone(old(Seen()).s)))
    {
      hide Base, Seen, Sound, Sender.Sane, Sender.LastDone, Gone;
      AckLast();
      End();
    }

    method HandleFinWait1(seg: Segment)
      requires Valid() && Live() && state == FIN_WAIT_1 && |seg.payload| <= MAX_PAYLOAD
      modifies `state, `ackCnt, `onAckList, `onControlList, `onTimewait, `halted, rcv, rcv.buf, rcv.buf.data, snd,
        snd.sndbuf
      ensures Base() && Seen() == InFinWait1(old(Seen()), seg)
      ensures Valid() && !destroyed && snd.sndbuf == old(snd.sndbuf) && NoData() && Forward()
      ensures rcv.finsConsumed == if old(BringsFin(seg, true)) then 1 else 0
      ensures state == CodeNext(FIN_WAIT_1, old(AcksFin(seg)), old(BringsFin(seg, true)))
      ensures (state == CLOSED ==> onControlList) && (seg.payload == [] ==> onAckList == old(onAckList))
      ensures rcv.finsConsumed == 1 ==> rcv.rcvNxt == Wrap(seg.sq + |seg.payload| + 1)
      ensures Hears(seg) && (snd.sndbuf == null ==> !halted)
      ensures (halted <==> old(Stops(seg, true, StaleAck(seg)))) && (halted ==> StoppedBy(seg))
      ensures snd.Head() == old(HeadAfter(seg))
    {
      hide Base, Seen, Sound, Sender.Sane, Receiver.Completes, SeqOf, Wrap, SeqLt, SeqGt, Sender.Stale,
        Sender.AckedTo, Payloaded, AckedInFinWait1, FinTaken;
      Sides();
      ghost var was := Seen();
      NextIs();
      SoundFinWait1(was, seg);
      if SeqLt(seg.sq, rcv.rcvNxt) {
        AddToControlList();
        return;
      }
      if !seg.ack { return; }
      AckInFinWait1(seg);
      TakePayload(seg);
      NextIs();
      if seg.fin { FinInFinWait1(seg); }
    }

    /** The ack part of FIN_WAIT_1 (src/nty_tcp.c:1098-1116). */
    method AckInFinWait1(seg: Segment)
      requires Valid() && Live() && state == FIN_WAIT_1
      modifies `state, `halted, snd, snd.sndbuf
      ensures Base() && !destroyed && unchanged(rcv) && unchanged(rcv.buf) && unchanged(rcv.buf.data)
      ensures snd.sndbuf == old(snd.sndbuf) && NoData() && (snd.sndbuf == null ==> !halted)
      ensures halted == old(StaleAck(seg)) && (halted ==> !snd.InOrder())
      ensures snd.Head() == old(snd.AckedTo(true, seg.ackSeq))
      ensures state == if old(snd.isFinSent) && seg.ackSeq == Wrap(old(snd.fss) + 1) then FIN_WAIT_2 else FIN_WAIT_1
      ensures Seen() == AckedInFinWait1(old(Seen()), seg)
    {
      hide Base, Seen, Sound, Sender.Sane, SeqOf, Wrap, SeqLt, SeqGt, Sender.Stale, Sender.AckedTo, AckDone,
        Sender.FinDone;
      Sides();
      if snd.isFinSent && seg.ackSeq == Wrap(snd.fss + 1) { FinIsStale(seg); }
      TakeAck(seg);
      FinIs();
      if snd.isFinSent && seg.ackSeq == Wrap(snd.fss + 1) {
        AckFin(seg, false);
        Enter(FIN_WAIT_2);
      }
    }

    /** snd_una and snd_nxt, and the timer, for an ack of our FIN. */
    method AckFin(seg: Segment, always: bool)
      requires Base() && snd.isFinSent && seg.ackSeq == Wrap(snd.fss + 1) && snd.fss == SeqOf(snd.iss, |snd.written|)
      modifies snd`sndUna, snd`unaPos, snd`sndNxt, snd`nxtPos, snd`nrtx, snd`onRto
      ensures Base()
      ensures var w := old(Seen());
              Seen() == w.(s := snd.FinDone(w.s, always || SeqGt(seg.ackSeq, SeqOf(snd.iss, w.s.nxt))))
    {
      hide Parts, Sender.Valid, Receiver.Valid, Receiver.Logged, Receiver.View, Sender.State, Ctl, Sender.FinDone,
        SeqOf, SeqGt, Wrap;
      snd.FinAcked(seg.ackSeq, always);
    }

    /** The FIN part of FIN_WAIT_1, when the state may already be FIN_WAIT_2 (src/nty_tcp.c:1131-1149). */
    method FinInFinWait1(seg: Segment)
      requires Base() && rcv.finsConsumed == 0 && state in {FIN_WAIT_1, FIN_WAIT_2}
      modifies `state, `onControlList, `onTimewait, snd`onRto, rcv`rcvNxt, rcv`finsConsumed
      ensures Base() && rcv.finsConsumed == (if Wrap(seg.sq + |seg.payload|) == old(rcv.rcvNxt) then 1 else 0)
      ensures state == (if rcv.finsConsumed == 0 then old(state) else if old(state) == FIN_WAIT_1 then CLOSING
                else CLOSED)
      ensures state == CLOSED ==> onControlList
      ensures rcv.rcvNxt == if rcv.finsConsumed == 0 then old(rcv.rcvNxt) else Wrap(seg.sq + |seg.payload| + 1)
      ensures Seen() == FinTaken(old(Seen()), seg, if old(state) == FIN_WAIT_1 then CLOSING else CLOSED)
    {
      hide Base, Seen, Sound, Sender.Sane, SeqOf, Wrap;
      NextIs();
      if Wrap(seg.sq + |seg.payload|) == rcv.rcvNxt {
        ConsumeFin(seg);
        if state == FIN_WAIT_1 {
          Enter(CLOSING);
        } else {
          Enter(CLOSED);  // NTY_TCP_TIMEWAIT == 0 at src/nty_tcp.c:1140
          EnterTimewaitList();
        }
        AddToControlList();
      }
    }

    method HandleFinWait2(seg: Segment)
      requires Valid() && Live() && state == FIN_WAIT_2 && |seg.payload| <= MAX_PAYLOAD
      modifies `state, `ackCnt, `onAckList, `onControlList, `onTimewait, `halted, rcv, rcv.buf, rcv.buf.data, snd,
        snd.sndbuf
      ensures Base() && Seen() == InFinWait2(old(Seen()), seg)
      ensures Valid() && !destroyed && snd.sndbuf == old(snd.sndbuf) && NoData() && Forward()
      ensures rcv.finsConsumed == if old(BringsFin(seg, true)) then 1 else 0
      ensures state == CodeNext(FIN_WAIT_2, false, old(BringsFin(seg, true)))
      ensures rcv.finsConsumed == 1 ==> rcv.rcvNxt == Wrap(seg.sq + |seg.payload| + 1)
      ensures Hears(seg)
      ensures (halted <==> old(Stops(seg, true, StaleAck(seg)))) && (halted ==> StoppedBy(seg))
      ensures snd.Head() == old(HeadAfter(seg))
    {
      hide Base, Seen, Sound, Sender.Sane, Receiver.Completes, SeqOf, Wrap, Sender.Stale, Sender.AckedTo, Payloaded,
        AckDone, FinTaken;
      Sides();
      ghost var was := Seen();
      SoundFinWait2(was, seg);
      if !seg.ack { return; }
      TakeAck(seg);
      TakePayload(seg);
      NextIs();
      if seg.fin { FinInFinWait2(seg); }
    }

    /** The FIN part of FIN_WAIT_2 (src/nty_tcp.c:1173-1182). */
    method FinInFinWait2(seg: Segment)
      requires Base() && rcv.finsConsumed == 0 && state == FIN_WAIT_2
      modifies `state, `onControlList, `onTimewait, snd`onRto, rcv`rcvNxt, rcv`finsConsumed
      ensures Base() && rcv.finsConsumed == (if Wrap(seg.sq + |seg.payload|) == old(rcv.rcvNxt) then 1 else 0)
      ensures state == if rcv.finsConsumed == 0 then FIN_WAIT_2 else TIME_WAIT
      ensures rcv.rcvNxt == if rcv.finsConsumed == 0 then old(rcv.rcvNxt) else Wrap(seg.sq + |seg.payload| + 1)
      ensures Seen() == FinTaken(old(Seen()), seg, TIME_WAIT)
    {
      hide Base, Seen, Sound, Sender.Sane, SeqOf, Wrap;
      NextIs();
      if Wrap(seg.sq + |seg.payload|) == rcv.rcvNxt {
        Enter(TIME_WAIT);
        ConsumeFin(seg);
        EnterTimewaitList();
        AddToControlList();
      }
    }

    method HandleClosing(seg: Segment)
      requires Valid() && Live() && state == CLOSING
      modifies `state, `onTimewait, `halted, snd, snd.sndbuf
      ensures Base() && Seen() == InClosing(old(Seen()), seg)
      ensures Valid() && !destroyed && snd.sndbuf == old(snd.sndbuf) && NoData()
      ensures state == CodeNext(CLOSING, old(AcksFin(seg)), false)
      ensures (halted <==> old(Stops(seg, true, StaleAck(seg)))) && (halted ==> StoppedBy(seg))
      ensures snd.Head() == old(HeadAfter(seg))
    {
      hide Base, Seen, Sound, Sender.Sane, SeqOf, Wrap, Sender.Stale, Sender.AckedTo, AckDone, Sender.FinDone;
      Sides();
      ghost var was := Seen();
      SoundClosing(was, seg);
      if !seg.ack { return; }
      if snd.isFinSent && seg.ackSeq == Wrap(snd.fss + 1) { FinIsStale(seg); }
      TakeAck(seg);
      FinIs();
      if !snd.isFinSent { return; }
      if seg.ackSeq != Wrap(snd.fss + 1) { return; }
      FinishClosing(seg);
    }

    method FinishClosing(seg: Segment)
      requires Base() && snd.isFinSent && seg.ackSeq == Wrap(snd.fss + 1) && snd.fss == SeqOf(snd.iss, |snd.written|)
      modifies `state, `onTimewait, snd`sndUna, snd`unaPos, snd`sndNxt, snd`nxtPos, snd`nrtx, snd`onRto
      ensures Base() && state == TIME_WAIT
      ensures Seen() == Waiting(To(old(Seen()), TIME_WAIT).(s := snd.FinDone(old(Seen()).s, true)))
    {
      hide Base, Seen, Sound, Sender.Sane, SeqOf, Wrap, SeqGt, Sender.FinDone;
      AckFin(seg, true);
      Enter(TIME_WAIT);
      EnterTimewaitList();
    }

    /** nty_tcp_handle_syn_rcvd; `accepted` says whether the listener's accept queue has room. */
    method HandleSynRcvd(seg: Segment, accepted: bool)
      requires Valid() && Live() && state == SYN_RCVD
      modifies `state, `onControlList, `onTimeout, `halted
      modifies snd`sndUna, snd`unaPos, snd`sndNxt, snd`nxtPos, snd`cwnd, snd`nrtx, snd`onRto
      ensures Base() && Seen() == SynAnswered(old(Seen()), seg, accepted)
      ensures Valid() && !destroyed && NoData()
      ensures halted <==> seg.ack && seg.ackSeq != Wrap(snd.iss + 1)
      ensures state == if !seg.ack || halted then SYN_RCVD else if accepted then ESTABLISHED else CLOSED
      ensures state == ESTABLISHED ==> snd.unaPos == snd.nxtPos == 0 && onControlList == old(onControlList)
      ensures state == ESTABLISHED ==> snd.cwnd == if old(snd.cwnd) == 1 then 2 * snd.mss else snd.mss
    {
      hide Base, Seen, Sound, Sender.Sane, SeqOf, Wrap, Sender.Opened, Accepted;
      Sides();
      ghost var was := Seen();
      SoundSynAnswered(was, seg, accepted);
      if !seg.ack {
        SynAgain();
      } else if seg.ackSeq != Wrap(snd.iss + 1) {
        Halt();  // exit(1), src/nty_tcp.c:913
      } else {
        Accept(seg, accepted);
      }
    }

    /** The SYN/ACK is sent again (src/nty_tcp.c:964-965). */
    method SynAgain()
      requires Base() && snd.sndbuf == null
      modifies `onControlList, snd`sndNxt, snd`nxtPos
      ensures Base() && Seen() == Controlled(old(Seen())).(s := old(Seen()).s.(nxt := -1))
    {
      hide Parts, Sender.Valid, Receiver.Valid, Receiver.Logged, Receiver.View, Sender.State, SeqOf, Wrap;
      snd.NoBuffer();
      snd.BackToSyn();
      onControlList := true;
    }

    /** The model's run ends. */
    method Halt()
      requires Base()
      modifies `halted
      ensures Base() && halted && Seen() == old(Seen()).(c := old(Seen()).c.(halted := true))
    {
      hide Parts, Sender.Valid, Receiver.Valid, Receiver.Logged, Receiver.View, Sender.State;
      halted := true;
    }

    method Establish(seg: Segment)
      requires Base() && snd.sndbuf == null && snd.unaPos == -1 && seg.ackSeq == Wrap(snd.iss + 1)
      modifies snd`sndUna, snd`unaPos, snd`sndNxt, snd`nxtPos, snd`cwnd, snd`nrtx, snd`onRto
      ensures Base() && snd.unaPos == snd.nxtPos == 0 && Seen() == old(Seen()).(s := snd.Opened(old(Seen()).s))
      ensures snd.cwnd == if old(snd.cwnd) == 1 then 2 * snd.mss else snd.mss
    {
      hide Parts, Sender.Valid, Receiver.Valid, Receiver.Logged, Receiver.View, Sender.State, Ctl, SeqOf, Wrap,
        Sender.Opened;
      snd.NoBuffer();
      snd.Establish(seg.ackSeq);
    }

    method AddToTimeoutList()
      requires Base()
      modifies `onTimeout
      ensures Base() && Seen() == old(Seen()).(c := old(Seen()).c.(onTimeout := true))
    {
      hide Parts, Sender.Valid, Receiver.Valid, Receiver.Logged, Receiver.View, Sender.State;
      onTimeout := true;
    }

    /** Our SYN is acknowledged, and the connection is handed to the listener, if that has room
        (src/nty_tcp.c:917-938). */
    method Accept(seg: Segment, accepted: bool)
      requires Base() && !onTimeout && snd.sndbuf == null && snd.unaPos == -1 && seg.ackSeq == Wrap(snd.iss + 1)
      modifies `state, `onControlList, `onTimeout
      modifies snd`sndUna, snd`unaPos, snd`sndNxt, snd`nxtPos, snd`cwnd, snd`nrtx, snd`onRto
      ensures Base() && state == (if accepted then ESTABLISHED else CLOSED) && snd.unaPos == snd.nxtPos == 0
      ensures onControlList == (old(onControlList) || !accepted)
      ensures snd.cwnd == if old(snd.cwnd) == 1 then 2 * snd.mss else snd.mss
      ensures Seen() == Accepted(old(Seen()), accepted)
    {
      hide Base, Seen, Sound, Sender.Sane, SeqOf, Wrap, Sender.Opened;
      Establish(seg);
      Enter(ESTABLISHED);
      if !accepted {
        Enter(CLOSED);
        AddToControlList();
      }
      assert !onTimeout;  // the assertion of src/nty_timer.c:158-161
      AddToTimeoutList();
    }

    /** nty_tcp_validseq: whether the segment goes on to its state's handler. */
    method ValidSeq(seg: Segment, ts: Timestamp) returns (ok: bool)
      requires Valid() && Live() && state !in {CLOSED, SYN_RCVD}
      modifies `ackCnt, `onAckList, `onControlList, `onTimewait, snd`onRto
      ensures Base() && Seen() == Checked(old(Seen()), seg, ts)
      ensures Valid() && Live()
      ensures ok <==> (seg.rst || ts != Missing) && SeqBetween(Wrap(seg.sq + |seg.payload|), rcv.rcvNxt,
                Wrap(rcv.rcvNxt + rcv.rcvWnd))
      ensures ok ==> snd.onRto == old(snd.onRto) && onControlList == old(onControlList) && onTimewait == old(onTimewait)
      ensures ok && (seg.rst || ts != Old) ==> onAckList == old(onAckList)
    {
      hide Base, Seen, Sound, Sender.Sane, SeqOf, Wrap, SeqBetween, SeqLeq, Acking;
      WindowIs();
      ghost var was := Seen();
      SoundChecked(was, seg, ts);
      if !seg.rst && ts != Unused {
        if ts == Missing { return false; }
        if ts == Old { EnqueueAck(true); }
      }
      ok := SeqBetween(Wrap(seg.sq + |seg.payload|), rcv.rcvNxt, Wrap(rcv.rcvNxt + rcv.rcvWnd));
      if !ok && !seg.rst { Refuse(seg); }
    }

    lemma WindowIs()
      requires Valid()
      ensures Base() && rcv.Valid() && Seen().r.nxt == rcv.rcvNxt && Seen().r.wnd == rcv.rcvWnd
                && Seen().c.state == state
      ensures Sound(Seen()) && (Alive(Seen()) <==> Live())
    {
      hide Parts, Sender.Valid, Receiver.Valid, Receiver.Logged, Sender.State, Sound;
    }

    /** A segment that is not in the window is answered (src/nty_tcp.c:724-741). */
    method Refuse(seg: Segment)
      requires Base()
      modifies `ackCnt, `onAckList, `onControlList, `onTimewait, snd`onRto
      ensures Base() && Seen() == Refused(old(Seen()), seg)
    {
      hide Base, Seen, Sound, Sender.Sane, Wrap, SeqLeq, Acking;
      NextIs();
      if state == ESTABLISHED {
        EnqueueAck(Wrap(seg.sq + 1) != rcv.rcvNxt && !SeqLeq(seg.sq, rcv.rcvNxt));
      } else {
        if state == TIME_WAIT { EnterTimewaitList(); }
        AddToControlList();
      }
    }

    /** nty_tcp_process_rst; it always ends the processing of the segment. */
    method HandleRst(seg: Segment)
      requires Valid() && Live() && state != CLOSED && haveReset
      modifies `state, `onControlList, `onAckList, `onTimewait, `onTimeout, `destroyed, snd`onSendList, snd`onRto
      ensures Base() && Seen() == ResetBy(old(Seen()), seg)
      ensures Valid() && !halted
      ensures state == if old(state) == SYN_RCVD then (if seg.ackSeq == snd.sndNxt then CLOSED else SYN_RCVD)
                       else if OurClose(old(state)) then CLOSED
                       else if onCloseq || onCloseqInt then old(state) else CLOSE_WAIT
      ensures destroyed <==> state == CLOSED
    {
      hide Base, Seen, Sound, Sender.Sane, SeqOf, Wrap;
      Sides();
      WindowIs();
      ghost var was := Seen();
      NumberIs();
      SoundReset(was, seg);
      if state == SYN_RCVD {
        if seg.ackSeq == snd.sndNxt { End(); }
      } else if OurClose(state) {
        End();
      } else if !(onCloseq || onCloseqInt) {
        Enter(CLOSE_WAIT);
      }
    }

    lemma NumberIs()
      requires Valid()
      ensures snd.sndNxt == SeqOf(snd.iss, Seen().s.nxt) && Seen().c.haveReset == haveReset
      ensures Seen().c.onCloseq == onCloseq && Seen().c.onCloseqInt == onCloseqInt
    {
      hide Parts, Sender.Valid, Receiver.Valid, Receiver.Logged, Receiver.View, Sender.State, Sound, SeqOf;
      snd.NumberOf();
    }

    /** Which state a segment leads to once it reaches its handler. */
    ghost predicate Follows(was: TcpState, acked: bool, brings: bool, fins: nat, seg: Segment)
      reads `state, `halted, rcv
    {
      && rcv.finsConsumed == (if brings then fins + 1 else fins)
      && (brings ==> rcv.rcvNxt == Wrap(seg.sq + |seg.payload| + 1))
      && (if was == SYN_RCVD
          then state == CodeNext(ESTABLISHED, false, brings) || (!brings && state in {SYN_RCVD, CLOSED})
          else state == CodeNext(was, acked, brings))
    }

    /** With nothing buffered no ack moves anything. */
    lemma NothingBuffered(seg: Segment)
      requires snd.sndbuf == null
      ensures !StaleAck(seg) && HeadAfter(seg) == snd.Head() == 0
    {
    }

    /** SYN_RCVD, where data that comes with the ack of our SYN is processed at once (src/nty_tcp.c:1662-1673). */
    method TakeInSynRcvd(seg: Segment, accepted: bool)
      requires Valid() && Live() && state == SYN_RCVD && |seg.payload| <= MAX_PAYLOAD
      modifies `state, `onControlList, `onAckList, `ackCnt, `onTimeout, `halted
      modifies rcv, rcv.buf, rcv.buf.data, snd, snd.sndbuf
      ensures Base() && Seen() == InSynRcvd(old(Seen()), seg, accepted)
      ensures Valid() && !destroyed && snd.sndbuf == old(snd.sndbuf) && NoData() && Forward()
      ensures Follows(SYN_RCVD, false, old(BringsFin(seg, accepted)), 0, seg) && old(rcv.finsConsumed) == 0
      ensures Hears(seg) && (halted <==> old(Stops(seg, accepted, false))) && (halted ==> StoppedBy(seg))
      ensures snd.Head() == old(snd.Head())
    {
      hide Base, Seen, Sound, Sender.Sane, Receiver.Completes, SeqOf, Wrap, SeqLt, Sender.Stale, Sender.AckedTo,
        SynAnswered, InEstablished;
      Sides();
      ghost var was := Seen();
      if seg.syn && seg.sq == rcv.irs {
        SoundControlled(was);
        AddToControlList();
      } else {
        HandleSynRcvd(seg, accepted);
        NextIs();
        if |seg.payload| > 0 && state == ESTABLISHED && !halted {
          NothingBuffered(seg);
          HandleEstablished(seg);
        }
      }
    }

    /** The switch over the state (src/nty_tcp.c:1652-1715). */
    method Dispatch(seg: Segment, accepted: bool)
      requires Valid() && Live() && |seg.payload| <= MAX_PAYLOAD
      modifies `state, `onControlList, `onAckList, `ackCnt, `onTimewait, `onTimeout, `destroyed, `halted
      modifies rcv, rcv.buf, rcv.buf.data, snd, snd.sndbuf
      ensures Valid() && snd.sndbuf == old(snd.sndbuf) && NoData() && Forward()
      ensures Follows(old(state), old(AcksFin(seg)), old(BringsFin(seg, accepted)), old(rcv.finsConsumed), seg)
      ensures Hears(seg) && (halted <==> old(Stops(seg, accepted, StaleAck(seg)))) && (halted ==> StoppedBy(seg))
      ensures snd.Head() == old(HeadAfter(seg))
      ensures Seen() == Dispatched(old(Seen()), seg, accepted)
    {
      hide Valid, Base, Receiver.Completes, SeqOf, Wrap, SeqLt, Receiver.View, Sender.State, Sender.Stale,
        Sender.AckedTo, Seen, InSynRcvd, InEstablished, InCloseWait, InLastAck, InFinWait1, InFinWait2, InClosing,
        InTimeWait, Sender.Sane;
      Sides();
      match state {
        case SYN_RCVD =>
          NothingBuffered(seg);
          TakeInSynRcvd(seg, accepted);
        case ESTABLISHED => HandleEstablished(seg);
        case CLOSE_WAIT => HandleCloseWait(seg);
        case LAST_ACK => HandleLastAck(seg);
        case FIN_WAIT_1 => HandleFinWait1(seg);
        case FIN_WAIT_2 => HandleFinWait2(seg);
        case CLOSING => HandleClosing(seg);
        case TIME_WAIT => HandleTimeWait();
        case CLOSED =>
      }
    }

    lemma TimewaitIs()
      requires Base()
      ensures Seen().c.onTimewait == onTimewait
    {
      hide Parts, Sender.Valid, Receiver.Valid, Receiver.Logged, Receiver.View, Sender.State;
    }

    method HandleTimeWait()
      requires Valid() && Live() && state == TIME_WAIT
      modifies `onTimewait, `onControlList, snd`onRto
      ensures Valid() && Live() && Seen() == InTimeWait(old(Seen()))
    {
      hide Base, Seen, Sound, Sender.Sane, Waiting, Controlled;
      Sides();
      ghost var was := Seen();
      SoundTimeWait(was);
      TimewaitIs();
      if onTimewait { EnterTimewaitList(); }
      AddToControlList();
    }

    /** The segment reaches its handler, or the RST handler. */
    predicate Passes(seg: Segment, ts: Timestamp)
      reads `state, rcv
    {
      state in {CLOSED, SYN_RCVD}
      || ((seg.rst || ts != Missing) && SeqBetween(Wrap(seg.sq + |seg.payload|), rcv.rcvNxt,
          Wrap(rcv.rcvNxt + rcv.rcvWnd)))
    }

    /** nty_tcp_process, once the stream is found and the checksum holds (src/nty_tcp.c:1622-1717). */
    method Arrive(seg: Segment, ts: Timestamp, accepted: bool)
      requires Valid() && Live() && |seg.payload| <= MAX_PAYLOAD
      modifies `state, `onControlList, `onAckList, `ackCnt, `onTimewait, `onTimeout, `haveReset, `destroyed, `halted
      modifies rcv, rcv.buf, rcv.buf.data, snd, snd.sndbuf
      ensures Valid() && snd.sndbuf == old(snd.sndbuf) && NoData() && Forward()
      ensures old(rcv.finsConsumed) <= rcv.finsConsumed
      ensures !old(Passes(seg, ts)) ==> state == old(state) && Live() && rcv.finsConsumed == old(rcv.finsConsumed)
      ensures old(Passes(seg, ts)) && !seg.rst ==>
                Follows(old(state), old(AcksFin(seg)), old(BringsFin(seg, accepted)), old(rcv.finsConsumed), seg)
      ensures old(Passes(seg, ts)) && seg.rst && old(state) != CLOSED ==>
                state in {old(state), CLOSED, CLOSE_WAIT} && (destroyed <==> state == CLOSED)
      ensures Hears(seg) && (halted ==> StoppedBy(seg))
      ensures halted <==> old(Passes(seg, ts)) && !seg.rst && old(Stops(seg, accepted, MisledBy(seg)))
      ensures snd.Head() == if old(Passes(seg, ts)) && !seg.rst then old(HeadAfter(seg)) else old(snd.Head())
      ensures Seen() == Arrived(old(Seen()), seg, ts, accepted)
    {
      hide MisledBy, HeadAfter, AcksFin, BringsFin, Stops, StoppedBy, Follows, Valid, Base, Receiver.Completes, SeqOf,
        Wrap, SeqBetween, SeqLt, Sender.Misleads, Sender.AckedTo, Seen, Handled, Checked, Sender.Sane, Sound;
      WindowIs();
      if state !in {CLOSED, SYN_RCVD} {
        var ok := ValidSeq(seg, ts);
        if !ok { return; }
      }
      Handle(seg, accepted);
    }

    /** A segment that may be processed: the RST handler or the handler of the state. */
    method Handle(seg: Segment, accepted: bool)
      requires Valid() && Live() && |seg.payload| <= MAX_PAYLOAD
      modifies `state, `onControlList, `onAckList, `ackCnt, `onTimewait, `onTimeout, `haveReset, `destroyed, `halted
      modifies rcv, rcv.buf, rcv.buf.data, snd, snd.sndbuf
      ensures Valid() && snd.sndbuf == old(snd.sndbuf) && NoData() && Forward()
      ensures old(rcv.finsConsumed) <= rcv.finsConsumed
      ensures !seg.rst ==> Follows(old(state), old(AcksFin(seg)), old(BringsFin(seg, accepted)),
                old(rcv.finsConsumed), seg)
      ensures seg.rst && old(state) != CLOSED ==>
                state in {old(state), CLOSED, CLOSE_WAIT} && (destroyed <==> state == CLOSED)
      ensures Hears(seg) && (halted ==> StoppedBy(seg))
      ensures halted <==> !seg.rst && old(Stops(seg, accepted, MisledBy(seg)))
      ensures snd.Head() == if !seg.rst then old(HeadAfter(seg)) else old(snd.Head())
      ensures Seen() == Handled(old(Seen()), seg, accepted)
    {
      hide MisledBy, HeadAfter, AcksFin, BringsFin, Stops, StoppedBy, StaleAck, Valid, Base, Receiver.Completes,
        SeqOf, Wrap, SeqLt, Sender.Misleads, Sender.Stale, Sender.AckedTo, Seen, Dispatched, ResetBy, Sound;
      WindowIs();
      TakeWindow(seg);
      if seg.rst {
        TakeReset(seg);
      } else {
        Dispatch(seg, accepted);
      }
    }

    /** A reset is noted, and handled unless the connection is closed; then the switch does nothing. */
    method TakeReset(seg: Segment)
      requires Valid() && Live()
      modifies `haveReset, `state, `onControlList, `onAckList, `onTimewait, `onTimeout, `destroyed
      modifies snd`onSendList, snd`onRto
      ensures Valid() && !halted
      ensures old(state) != CLOSED ==> state in {old(state), CLOSED, CLOSE_WAIT} && (destroyed <==> state == CLOSED)
      ensures var x := old(Seen()).(c := old(Seen()).c.(haveReset := true));
              Seen() == if x.c.state == CLOSED then x else ResetBy(x, seg)
    {
      hide Base, Seen, Sound, Sender.Sane, SeqOf, ResetBy;
      WindowIs();
      SoundResetNoted(Seen());
      NoteReset();
      if state != CLOSED { HandleRst(seg); }
    }

    /** snd.peer_wnd (src/nty_tcp.c:1634-1638). */
    method TakeWindow(seg: Segment)
      requires Valid()
      modifies snd`peerWnd
      ensures Valid() && Seen() == old(Seen()).(s := old(Seen()).s.(peerWnd := seg.cwindow))
      ensures StaleAck(seg) == MisledBy(seg)
    {
      hide Parts, Sender.Valid, Receiver.Valid, Receiver.Logged, Receiver.View, Sender.State, Ctl, SeqOf;
      snd.SetPeerWnd(seg.cwindow);
      snd.StaleMisleads(state != ESTABLISHED, seg.sq, seg.ackSeq, seg.cwindow, |seg.payload|);
    }

    method NoteReset()
      requires Base()
      modifies `haveReset
      ensures Base() && haveReset && Seen() == old(Seen()).(c := old(Seen()).c.(haveReset := true))
    {
      hide Parts, Sender.Valid, Receiver.Valid, Receiver.Logged, Receiver.View, Sender.State;
      haveReset := true;
    }

    lemma SoundResetNoted(v: View)
      requires Sound(v)
      ensures Sound(v.(c := v.c.(haveReset := true)))
    {
      hide SeqOf, FinsAfter;
    }

    // ------------------------------------------------------------ the write loops

    /** A segment tells the peer our window. */
    method TellWindow()
      requires Base()
      modifies rcv`needWndAdv
      ensures Base() && Seen() == Advertised(old(Seen()))
    {
      hide Parts, Sender.Valid, Receiver.Valid, Receiver.Logged, Receiver.View, Sender.State, Ctl;
      rcv.NoteWindow();
    }

    /** The control packet waits until the stream has left the send and the ack list. */
    predicate Defers()
      reads `state, `onAckList, snd`onSendList
    {
      state in {FIN_WAIT_1, LAST_ACK, CLOSED} && (snd.onSendList || onAckList)
    }

    /** The control packet carries a FIN. */
    predicate CarriesFin()
      reads `state, `onAckList, snd`onSendList, snd`isFinSent, snd`sndNxt, snd`fss
    {
      (state in {FIN_WAIT_1, LAST_ACK} && !Defers()) || (state == CLOSING && (!snd.isFinSent || snd.sndNxt == snd.fss))
    }

    /** Before a first FIN: all data was sent exactly if snd_nxt is at fss, a test the code makes in CLOSING only. */
    lemma FinIsNext()
      requires Valid() && Live() && state in {FIN_WAIT_1, LAST_ACK, CLOSING} && !snd.isFinSent
      ensures snd.sndNxt == snd.fss <==> snd.nxtPos == |snd.written|
    {
      hide Parts, Sender.Valid, Receiver.Valid, Receiver.Logged, AllRight, Wrap, Receiver.View, Sound, Sender.Sane,
        Sender.State;
      Sides();
      snd.HeadWithin();
      snd.NumberOf();
      snd.NotBeyond();
      WrapInjective(snd.iss + 1 + snd.nxtPos, snd.iss + 1 + |snd.written|);
    }

    /** What no control packet changes. */
    twostate predicate NoBytes()
      reads snd, rcv
    {
      && snd.emitted == old(snd.emitted) && snd.written == old(snd.written)
      && rcv.delivered == old(rcv.delivered) && rcv.misread == old(rcv.misread)
    }

    /** nty_tcp_send_controlpkt (src/nty_tcp.c:2168-2241): a FIN goes out under the sequence number fss; in FIN_WAIT_1
        and LAST_ACK not before the stream has left the send and the ack list.  In CLOSED a reset ends the stream. */
    method SendControl(routed: bool) returns (ret: int)
      requires Base() && (state == SYN_RCVD ==> snd.unaPos == -1 && snd.sndbuf == null)
      modifies `onControlList, `onAckList, `onTimewait, `onTimeout, `destroyed
      modifies rcv`needWndAdv, snd`sndNxt, snd`nxtPos, snd`isFinSent, snd`fins, snd`onRto, snd`onSendList
      ensures Base() && NoBytes()
      ensures Seen() == ControlSent(old(Seen()), routed)
      ensures ret < 0 <==> !routed || old(Defers())
      ensures snd.fins == old(snd.fins) + if routed && old(CarriesFin()) then [snd.fss] else []
      ensures destroyed <==> old(destroyed) || (state == CLOSED && routed && !old(Defers()))
      ensures !destroyed ==> unchanged(`onAckList, snd`onSendList)
    {
      hide Base, Seen, Sound, Sender.Sane, SeqOf, Gone, Advertised, Sender.FinSent, Sender.SynSent;
      ListsIs();
      if Defers() { return -1; }
      if routed { TellWindow(); }
      FinIs();
      NxtIs();
      ret := if routed then 0 else -2;
      match state {
        case SYN_RCVD => SendSynAck(routed);
        case FIN_WAIT_1 => SendFinAck(routed);
        case LAST_ACK => SendFinAck(routed);
        case CLOSING => if !snd.isFinSent || snd.sndNxt == snd.fss { SendFinAck(routed); }
        case CLOSED => if routed { Destroy(); }
        case _ =>
      }
    }

    lemma ListsIs()
      requires Base()
      ensures rcv.Valid() && Seen().c.state == state && Seen().s.onSendList == snd.onSendList
                && Seen().c.onAckList == onAckList
      ensures Seen().c.onControlList == onControlList && Seen().s.onSendq == snd.onSendq
                && Seen().r.onAckq == rcv.onAckq
    {
      hide Parts, Sender.Valid, Receiver.Valid, Receiver.Logged;
    }

    lemma NxtIs()
      requires Base()
      ensures snd.sndNxt == SeqOf(snd.iss, Seen().s.nxt)
    {
      hide Parts, Sender.Valid, Receiver.Valid, Receiver.Logged, Receiver.View, Sender.State, SeqOf, Ctl;
      snd.NumberOf();
    }

    method SendSynAck(routed: bool)
      requires Base() && snd.unaPos == -1 && snd.sndbuf == null
      modifies snd`sndNxt, snd`nxtPos, snd`onRto
      ensures Base() && Seen() == old(Seen()).(s := snd.SynSent(old(Seen()).s, routed))
    {
      hide Parts, Sender.Valid, Receiver.Valid, Receiver.Logged, Receiver.View, Sender.State, Ctl, Sender.SynSent,
        SeqOf, Wrap;
      snd.NoBuffer();
      var ret := snd.SendSyn(routed);
    }

    method SendFinAck(routed: bool)
      requires Base()
      modifies snd`sndNxt, snd`nxtPos, snd`isFinSent, snd`fins, snd`onRto
      ensures Base() && Seen() == old(Seen()).(s := snd.FinSent(old(Seen()).s, routed))
      ensures snd.fins == old(snd.fins) + if routed then [snd.fss] else []
    {
      hide Parts, Sender.Valid, Receiver.Valid, Receiver.Logged, Receiver.View, Sender.State, Ctl, Sender.FinSent,
        SeqOf, Wrap;
      var ret := snd.SendFin(routed);
    }

    /** One round of nty_tcp_write_controllist for this stream: it stays on the list when the packet is not sent. */
    method WriteControl(routed: bool)
      requires Valid() && Live() && onControlList
      modifies `onControlList, `onAckList, `onTimewait, `onTimeout, `destroyed
      modifies rcv`needWndAdv, snd`sndNxt, snd`nxtPos, snd`isFinSent, snd`fins, snd`onRto, snd`onSendList
      ensures Base() && Seen() == ControlWritten(old(Seen()), routed)
      ensures Valid() && !halted && state == old(state) && NoBytes()
      ensures onControlList <==> !routed || old(Defers())
      ensures snd.fins == old(snd.fins) + if routed && old(CarriesFin()) then [snd.fss] else []
      ensures destroyed <==> state == CLOSED && routed && !old(Defers())
      ensures !destroyed ==> onAckList == old(onAckList) && snd.onSendList == old(snd.onSendList)
    {
      hide Base, Seen, Sound, Sender.Sane, SeqOf, ControlSent;
      Sides();
      ghost var was := Seen();
      SoundControlWritten(was, routed);
      ListsIs();
      LeaveControlList();
      var ret := SendControl(routed);
      ListsIs();
      ControlListIs(was, routed);
      if ret < 0 { AddToControlList(); }
    }

    /** No control packet puts the stream on the list. */
    lemma ControlListIs(v: View, routed: bool)
      ensures !ControlSent(v.(c := v.c.(onControlList := false)), routed).c.onControlList
    {
      hide SeqOf;
    }

    method LeaveControlList()
      requires Base()
      modifies `onControlList
      ensures Base() && !onControlList && Seen() == old(Seen()).(c := old(Seen()).c.(onControlList := false))
    {
      hide Parts, Sender.Valid, Receiver.Valid, Receiver.Logged, Receiver.View, Sender.State;
      onControlList := false;
    }

    /** The stream has left the send or the ack list and waited for that (src/nty_tcp.c:2338-2343, 2436-2441). */
    method PromoteWaiting(otherList: bool)
      requires Base()
      modifies `controlListWaiting, `onControlList
      ensures Base() && Seen() == old(Seen()).(c := Promoted(old(Seen()).c, otherList))
      ensures onControlList == (old(onControlList) || (old(controlListWaiting) && !otherList))
      ensures controlListWaiting == (old(controlListWaiting) && otherList)
    {
      hide Parts, Sender.Valid, Receiver.Valid, Receiver.Logged, Receiver.View, Sender.State;
      if controlListWaiting {
        if !otherList { controlListWaiting, onControlList := false, true; }
      }
    }

    /** One round of nty_tcp_write_acklist for this stream; `room` is the number of frames to be had. */
    /** Whether the stream owes an ack (src/nty_tcp.c:2378-2391). */
    method OwesAck() returns (owes: bool)
      requires Base()
      ensures Base() && Seen() == old(Seen()) && owes == Owes(Seen())
    {
      hide Base, Seen, Sound, Sender.Sane, Wrap, SeqLeq;
      NextIs();
      ReceiverIs();
      rcv.HeadIs();
      owes := false;
      if state in {ESTABLISHED, CLOSE_WAIT, FIN_WAIT_1, FIN_WAIT_2, TIME_WAIT} {
        if SeqLeq(rcv.rcvNxt, Wrap(rcv.buf.headSeq + rcv.buf.mergedLen)) { owes := true; }
      }
    }

    lemma ReceiverIs()
      requires Base()
      ensures rcv.Valid()
    {
    }

    method WriteAck(room: nat)
      requires Valid() && Live() && onAckList
      modifies `onAckList, `ackCnt, `isWack, `controlListWaiting, `onControlList, rcv`needWndAdv
      ensures Base() && Seen() == AckWritten(old(Seen()), room)
      ensures Valid() && Live() && state == old(state)
      ensures onAckList ==> room < old(ackCnt) + (if old(isWack) then 1 else 0)
      ensures !onAckList ==> ackCnt == 0 && !isWack
    {
      hide Base, Seen, Sound, Sender.Sane, Owes, Promoted, AcksTried;
      Sides();
      AcksIs();
      ghost var was := Seen();
      SoundAckWritten(was, room);
      var toAck := OwesAck();
      if toAck { TryAcks(room); } else { DropAcks(); }
      ListsIs();
      PromoteWaiting(snd.onSendList);
    }

    method TryAcks(room: nat)
      requires Base() && onAckList
      modifies `onAckList, `ackCnt, `isWack, rcv`needWndAdv
      ensures Base() && Seen() == AcksTried(old(Seen()), room)
      ensures onAckList ==> room < old(ackCnt) + (if old(isWack) then 1 else 0)
      ensures !onAckList ==> ackCnt == 0 && !isWack
    {
      hide Base, Seen, Sound, Sender.Sane, AcksSent, ProbeSent;
      AcksIs();
      var left := SendAcks(room);
      AcksIs();
      if isWack && 0 < left { SendProbe(); }
      AcksIs();
      if !(ackCnt != 0 || isWack) { LeaveAckList(); }
    }

    lemma AcksIs()
      requires Base()
      ensures rcv.Valid() && Seen().c.ackCnt == ackCnt && Seen().c.isWack == isWack && Seen().c.onAckList == onAckList
    {
      hide Parts, Sender.Valid, Receiver.Valid, Receiver.Logged, Receiver.View, Sender.State;
    }

    method SendAcks(room: nat) returns (left: nat)
      requires Base()
      modifies `ackCnt, rcv`needWndAdv
      ensures Base() && left == Max(room - old(ackCnt), 0) && ackCnt == Max(old(ackCnt) - room, 0)
      ensures Seen() == AcksSent(old(Seen()), Min(old(ackCnt), room))
    {
      hide Base, Seen, AcksSent;
      left := room;
      AcksIs();
      ghost var was := Seen();
      SentOn(was, 0);
      while ackCnt > 0
        invariant Base() && left <= room && ackCnt <= old(ackCnt) && room - left == old(ackCnt) - ackCnt
        invariant Seen() == AcksSent(was, room - left)
      {
        if left == 0 { break; }
        SentOn(was, room - left);
        SendAck();
        left := left - 1;
      }
    }

    lemma SentOn(v: View, n: nat)
      ensures AcksSent(v, 0) == v && AcksSent(AcksSent(v, n), 1) == AcksSent(v, n + 1)
    {
    }

    method SendAck()
      requires Base() && 0 < ackCnt
      modifies `ackCnt, rcv`needWndAdv
      ensures Base() && ackCnt == old(ackCnt) - 1 && Seen() == AcksSent(old(Seen()), 1)
    {
      hide Parts, Sender.Valid, Receiver.Valid, Receiver.Logged, Receiver.View, Sender.State, WindowTold;
      rcv.NoteWindow();
      ackCnt := ackCnt - 1;
    }

    method SendProbe()
      requires Base()
      modifies `isWack, rcv`needWndAdv
      ensures Base() && !isWack && Seen() == ProbeSent(old(Seen()))
    {
      hide Parts, Sender.Valid, Receiver.Valid, Receiver.Logged, Receiver.View, Sender.State, WindowTold;
      rcv.NoteWindow();
      isWack := false;
    }

    method LeaveAckList()
      requires Base()
      modifies `onAckList
      ensures Base() && !onAckList && Seen() == old(Seen()).(c := old(Seen()).c.(onAckList := false))
    {
      hide Parts, Sender.Valid, Receiver.Valid, Receiver.Logged, Receiver.View, Sender.State;
      onAckList := false;
    }

    method DropAcks()
      requires Base()
      modifies `onAckList, `ackCnt, `isWack
      ensures Base() && !onAckList && ackCnt == 0 && !isWack
      ensures Seen() == old(Seen()).(c := old(Seen()).c.(ackCnt := 0, isWack := false, onAckList := false))
    {
      hide Parts, Sender.Valid, Receiver.Valid, Receiver.Logged, Receiver.View, Sender.State;
      onAckList, ackCnt, isWack := false, 0, false;
    }

    /** One round of nty_tcp_write_datalist for this stream. */
    method WriteData(room: nat, quiet: bool)
      requires Valid() && Live() && snd.onSendList
      modifies `onAckList, `ackCnt, `isWack, `controlListWaiting, `onControlList, rcv`needWndAdv
      modifies snd`sndNxt, snd`nxtPos, snd`emitted, snd`onRto, snd`onSendList
      ensures Base() && Seen() == DataWritten(old(Seen()), room, quiet, snd.emitted)
      ensures Valid() && Live() && state == old(state)
      ensures old(snd.emitted) <= snd.emitted && old(snd.nxtPos) <= snd.nxtPos
      ensures Consecutive(snd.emitted[|old(snd.emitted)|..], old(snd.nxtPos), snd.nxtPos)
      ensures snd.nxtPos == Turn(old(Seen()), room).1 && (snd.onSendList <==> Turn(old(Seen()), room).0 < 0)
      ensures onControlList ==> old(onControlList) || old(controlListWaiting)
      ensures onAckList ==> old(onAckList) || Turn(old(Seen()), room).0 == -3
    {
      hide Base, Seen, Sound, Sender.Sane, SeqOf, Consecutive, Promoted, SendListLeft, DataFlushed, Sender.PlanOf;
      NoneConsecutive(snd.nxtPos);
      assert snd.emitted[|snd.emitted|..] == [];
      Sides();
      ListsIs();
      OrderIs();
      ghost var was := Seen();
      var ret := 0;
      if state == ESTABLISHED && onControlList {
        ret := -1;
      } else if state in {ESTABLISHED, CLOSE_WAIT, FIN_WAIT_1, LAST_ACK} {
        FlushReady();
        ret := FlushData(room, quiet);
      }
      SoundDataWritten(was, room, quiet, snd.emitted);
      if ret >= 0 {
        LeaveSendList(ret);
        ListsIs();
        PromoteWaiting(onAckList);
      }
    }

    lemma TurnIs(room: nat)
      requires Base() && state in {ESTABLISHED, CLOSE_WAIT} && !onControlList
      ensures Turn(Seen(), room)
           == Plan(0, snd.nxtPos, snd.unaPos, |snd.written|, Min(snd.cwnd, snd.peerWnd), snd.mss, room)
    {
      hide Parts, Sender.Valid, Receiver.Valid, Receiver.Logged, Plan, Receiver.View;
    }

    lemma FlushReady()
      requires Valid() && Live() && snd.onSendList && state in {ESTABLISHED, CLOSE_WAIT, FIN_WAIT_1, LAST_ACK}
      ensures snd.sndbuf != null && snd.InOrder() && snd.nxtPos <= |snd.written| && snd.unaPos == snd.Head()
    {
      hide Parts, Sender.Valid, Receiver.Valid, Receiver.Logged, SeqOf;
      Linked();
      snd.IsSane();
    }

    /** nty_tcp_flush_sendbuffer, with the probe it asks for (src/nty_tcp.c:2133) and the window its segments tell. */
    method FlushData(room: nat, quiet: bool) returns (ret: int)
      requires Base() && snd.sndbuf != null && snd.InOrder() && snd.nxtPos <= |snd.written| && snd.unaPos == snd.Head()
      modifies `onAckList, `isWack, rcv`needWndAdv, snd`sndNxt, snd`nxtPos, snd`emitted, snd`onRto
      ensures Base() && Seen() == DataFlushed(old(Seen()), room, quiet, snd.emitted)
      ensures old(snd.emitted) <= snd.emitted && old(snd.nxtPos) <= snd.nxtPos
      ensures Consecutive(snd.emitted[|old(snd.emitted)|..], old(snd.nxtPos), snd.nxtPos)
      ensures (ret, snd.nxtPos) == snd.PlanOf(old(Seen()).s, room) && (onAckList ==> old(onAckList) || ret == -3)
    {
      hide Base, Seen, Sound, Sender.Sane, SeqOf, Consecutive, Sender.PlanOf, Sender.Flushes, Sender.Probes,
        WindowTold;
      OrderIs();
      var wack, sent;
      ret, wack, sent := FlushSender(room, quiet);
      OrderIs();
      if wack { QueueProbe(); }
      if 0 < sent { TellWindow(); }
    }

    method FlushSender(room: nat, quiet: bool) returns (ret: int, wack: bool, sent: nat)
      requires Base() && snd.sndbuf != null && snd.InOrder() && snd.nxtPos <= |snd.written| && snd.unaPos == snd.Head()
      modifies snd`sndNxt, snd`nxtPos, snd`emitted, snd`onRto
      ensures Base() && Seen() == old(Seen()).(s := snd.Flushes(old(Seen()).s, room), emitted := snd.emitted)
      ensures old(snd.emitted) <= snd.emitted && old(snd.nxtPos) <= snd.nxtPos
                && (0 < sent <==> old(snd.nxtPos) < snd.nxtPos)
      ensures Consecutive(snd.emitted[|old(snd.emitted)|..], old(snd.nxtPos), snd.nxtPos)
      ensures (ret, snd.nxtPos) == snd.PlanOf(old(Seen()).s, room) && wack == snd.Probes(old(Seen()).s, room, quiet)
      ensures wack ==> ret == -3
    {
      hide Parts, Sender.Valid, Receiver.Valid, Receiver.Logged, Receiver.View, Sender.State, Ctl, SeqOf, Consecutive,
        Sender.Flushes, Sender.Probes, Plan;
      ret, wack, sent := snd.Flush(room, quiet);
    }

    /** nty_tcp_enqueue_acklist with ACK_OPT_WACK. */
    method QueueProbe()
      requires Base()
      modifies `onAckList, `isWack
      ensures Base() && Seen() == ProbeQueued(old(Seen()))
    {
      hide Parts, Sender.Valid, Receiver.Valid, Receiver.Logged, Receiver.View, Sender.State;
      isWack, onAckList := true, true;
    }

    /** Every data segment sent stands for an ack (src/nty_tcp.c:2327-2336). */
    method LeaveSendList(ret: nat)
      requires Base()
      modifies `ackCnt, snd`onSendList
      ensures Base() && !snd.onSendList && Seen() == SendListLeft(old(Seen()), ret)
    {
      hide Parts, Sender.Valid, Receiver.Valid, Receiver.Logged, Receiver.View, Sender.State;
      if ackCnt > 0 { ackCnt := if ackCnt > ret then ackCnt - ret else 0; }
      snd.SetSending(false);
    }

    // ------------------------------------------------------------ the application

    /** send (src/nty_api.c:1111-1201), while the socket is open. */
    method AppSend(bytes: seq<u8>) returns (ret: int)
      requires Valid() && Live() && !closed
      modifies snd`sndbuf, snd`written, snd`sndWnd, snd`onSendq, snd.sndbuf, if snd.sndbuf == null then {}
        else {snd.sndbuf.data}
      ensures Base() && Seen() == SentBy(old(Seen()), bytes)
      ensures Valid() && Live() && fresh(Footprint() - old(Footprint()))
      ensures ret == (if state !in {ESTABLISHED, CLOSE_WAIT} || Min(old(snd.sndWnd), |bytes|) <= 0 then -1
                      else Min(old(snd.sndWnd), |bytes|))
      ensures snd.written == old(snd.written) + bytes[..Max(ret, 0)]
      ensures snd.onSendq == (old(snd.onSendq) || (0 < ret && !snd.onSendList))
    {
      hide Base, Sound, Seen, Sender.Sane, Sender.Accepts;
      Sides();
      ghost var was := Seen();
      SoundSent(was, bytes);
      if state !in {ESTABLISHED, CLOSE_WAIT} { return -1; }
      ret := CopyFrom(bytes);
    }

    method CopyFrom(bytes: seq<u8>) returns (ret: int)
      requires Base()
      modifies snd`sndbuf, snd`written, snd`sndWnd, snd`onSendq, snd.sndbuf, if snd.sndbuf == null then {}
        else {snd.sndbuf.data}
      ensures Base() && Seen() == old(Seen()).(s := snd.Accepts(old(Seen()).s, bytes))
      ensures fresh(Footprint() - old(Footprint()))
      ensures ret == (if Min(old(snd.sndWnd), |bytes|) <= 0 then -1 else Min(old(snd.sndWnd), |bytes|))
      ensures snd.written == old(snd.written) + bytes[..Max(ret, 0)]
      ensures snd.onSendq == (old(snd.onSendq) || (0 < ret && !snd.onSendList))
    {
      hide Sender.Valid, Receiver.Valid, Receiver.Logged, Receiver.View, Sender.State, Ctl, Sender.Accepts, SeqOf;
      ret := snd.CopyFromUser(bytes);
    }

    /** recv (src/nty_api.c:1001-1109), while the socket is open and there is something to read or no need to wait. */
    method AppRecv(len: int) returns (ret: int, user: seq<u8>)
      requires Valid() && Live() && !closed
      modifies rcv, rcv.buf
      ensures Base() && Seen() == ReadDone(old(Seen()), len, user, rcv.misread)
      ensures state in {ESTABLISHED, CLOSE_WAIT} ==> HandsOver(old(Seen()).r, len, user, rcv.misread)
      ensures Valid() && Live() && rcv.delivered == old(rcv.delivered) + user && |user| == Max(ret, 0)
      ensures rcv.finsConsumed == old(rcv.finsConsumed) && Forward()
      ensures state !in {ESTABLISHED, CLOSE_WAIT} ==> ret == -1 && rcv.misread == old(rcv.misread)
      ensures rcv.misread == (old(rcv.misread) || !old(rcv.buf.KeepsPlace(|user|)))
      ensures rcv.log == old(rcv.log) + if 0 < ret then [Read(ret)] else []
    {
      hide Base, Sound, Seen, Sender.Sane, ReadBy, HandsOver;
      Sides();
      ghost var was := Seen();
      if state !in {ESTABLISHED, CLOSE_WAIT} { return -1, []; }
      ret, user := CopyTo(len);
      SoundReceived(was, len, user, rcv.misread);
    }

    method CopyTo(len: int) returns (ret: int, user: seq<u8>)
      requires Base()
      modifies rcv, rcv.buf
      ensures Base() && HandsOver(old(Seen()).r, len, user, rcv.misread)
      ensures Seen() == old(Seen()).(r := ReadBy(old(Seen()).r, len, user, rcv.misread, rcv.buf.data.Length,
                snd.effMss))
      ensures rcv.delivered == old(rcv.delivered) + user && |user| == Max(ret, 0)
      ensures rcv.finsConsumed == old(rcv.finsConsumed) && Forward()
      ensures rcv.misread == (old(rcv.misread) || !old(rcv.buf.KeepsPlace(|user|)))
      ensures rcv.log == old(rcv.log) + if 0 < ret then [Read(ret)] else []
    {
      hide Parts, Sender.Valid, Receiver.Valid, Receiver.Logged, Receiver.View, Sender.State, Ctl, ReadBy, HandsOver,
        SeqOf;
      ret, user := rcv.Give(len, snd.effMss);
    }

    /** nty_socket_close_stream (src/nty_socket.c:384-436). */
    method AppClose()
      requires Valid() && Live() && state != SYN_RCVD
      modifies `closed, `onCloseq, `onDestroyq
      ensures Base() && Seen() == Closed(old(Seen()))
      ensures Valid() && Live() && closed
      ensures onCloseq == (old(onCloseq) || (!old(closed) && state in {ESTABLISHED, CLOSE_WAIT}))
    {
      hide Parts, Sender.Valid, Receiver.Valid, Receiver.Logged, Receiver.View, Sender.State, Sound, Sender.Sane,
        SeqOf;
      Sides();
      SoundClosed(Seen());
      if closed { return; }
      closed := true;
      if state == CLOSED {
        onDestroyq := true;
      } else if state in {ESTABLISHED, CLOSE_WAIT} {
        onCloseq := true;
      }
    }

    /** The queues of nty_tcp_handle_apicall that hold this stream (src/nty_tcp.c:1927-1997, 2059-2061). */
    method ApiCalls()
      requires Valid() && Live()
      modifies `state, `onControlList, `onAckList, `ackCnt, `controlListWaiting, `onTimewait, `onTimeout, `onCloseq,
        `onCloseqInt, `onDestroyq, `destroyed
      modifies rcv`onAckq, snd`onSendq, snd`onSendList, snd`onRto, snd`fss
      ensures Valid() && !halted && snd.emitted == old(snd.emitted)
      ensures Seen() == ApiServed(old(Seen()))
      ensures state == if old(onCloseq) then old(AfterClose()) else old(state)
      ensures destroyed ==> state == CLOSED
    {
      hide Valid, Base, Seen, SendQueued, AckQueued, DestroyServed, CloseBegun, CloseTaken;
      DequeueSend();
      DequeueAck();
      CloseqIs();
      if onCloseq { HandleClose(); }
      DestroyqIs();
      if onDestroyq && !destroyed { DestroyQueued(); }
    }

    lemma CloseqIs()
      requires Valid()
      ensures rcv.Valid() && Seen().c.onCloseq == onCloseq
    {
      hide Parts, Sender.Valid, Receiver.Valid, Receiver.Logged, Receiver.View, Sender.State, Sound;
    }

    lemma DestroyqIs()
      requires Valid()
      ensures rcv.Valid() && DestroyServed(Seen()) == if onDestroyq && !destroyed then DestroyServed(Seen()) else Seen()
    {
      hide Parts, Sender.Valid, Receiver.Valid, Receiver.Logged, Receiver.View, Sender.State, Sound;
    }

    /** The state the application's close leads to.  While a control packet is pending it leads nowhere. */
    function AfterClose(): TcpState
      reads `state, `haveReset, `onControlList
    {
      if haveReset then CLOSED
      else if onControlList then state
      else if state == ESTABLISHED then FIN_WAIT_1
      else if state == CLOSE_WAIT then LAST_ACK
      else state
    }

    method DequeueSend()
      requires Valid() && Live()
      modifies snd`onSendq, snd`onSendList
      ensures Valid() && !snd.onSendq && snd.onSendList == (old(snd.onSendList) || old(snd.onSendq))
      ensures Seen() == SendQueued(old(Seen()))
    {
      hide Base, Seen, Sound, Sender.Sane;
      Sides();
      ListsIs();
      SoundSendQueued(Seen());
      if snd.onSendq { MoveToSendList(); }
    }

    method MoveToSendList()
      requires Base()
      modifies snd`onSendq, snd`onSendList
      ensures Base() && !snd.onSendq && snd.onSendList
      ensures Seen() == old(Seen()).(s := old(Seen()).s.(onSendq := false, onSendList := true))
    {
      hide Parts, Sender.Valid, Receiver.Valid, Receiver.Logged, Receiver.View, Sender.State, Ctl;
      snd.LeaveSendq();
      snd.SetSending(true);
    }

    method DequeueAck()
      requires Valid() && Live()
      modifies `ackCnt, `onAckList, rcv`onAckq
      ensures Valid() && !rcv.onAckq && Seen() == AckQueued(old(Seen()))
    {
      hide Base, Seen, Sound, Sender.Sane, Acking;
      Sides();
      ListsIs();
      SoundAckQueued(Seen());
      if rcv.onAckq {
        LeaveAckq();
        EnqueueAck(false);
      }
    }

    method LeaveAckq()
      requires Base()
      modifies rcv`onAckq
      ensures Base() && !rcv.onAckq && Seen() == old(Seen()).(r := old(Seen()).r.(onAckq := false))
    {
      hide Parts, Sender.Valid, Receiver.Valid, Receiver.Logged, Receiver.View, Sender.State, Ctl;
      rcv.LeaveAckq();
    }

    method DestroyQueued()
      requires Valid() && Live() && onDestroyq
      modifies `onControlList, `onAckList, `onTimewait, `onTimeout, `onDestroyq, `destroyed, snd`onSendList, snd`onRto
      ensures Valid() && destroyed && state == CLOSED && Seen() == DestroyServed(old(Seen()))
    {
      hide Base, Seen, Sound, Sender.Sane, Gone;
      Sides();
      SoundDestroyServed(Seen());
      DestroyqIs();
      LeaveDestroyq();
      Destroy();
    }

    method LeaveDestroyq()
      requires Base() && onDestroyq && !destroyed
      modifies `onDestroyq
      ensures Base() && old(Seen()).c.onDestroyq && !old(Seen()).c.destroyed
      ensures Seen() == old(Seen()).(c := old(Seen()).c.(onDestroyq := false))
    {
      hide Parts, Sender.Valid, Receiver.Valid, Receiver.Logged, Receiver.View, Sender.State;
      onDestroyq := false;
    }

    /** The close queue (src/nty_tcp.c:1941-1997). */
    method HandleClose()
      requires Valid() && Live() && onCloseq && !snd.onSendq
      modifies `state, `onControlList, `onAckList, `controlListWaiting, `onTimewait, `onTimeout, `onCloseq,
        `onCloseqInt, `destroyed
      modifies snd`onSendList, snd`onRto, snd`fss
      ensures Valid() && !halted && !onCloseq && state == old(AfterClose())
      ensures Seen() == CloseBegun(CloseTaken(old(Seen())))
      ensures destroyed <==> haveReset && old(state) != CLOSED
      ensures !destroyed ==>
                onControlList == (old(onControlList) || (state != CLOSED && !old(snd.onSendList) && !old(onAckList)))
      ensures !destroyed ==> onAckList == old(onAckList) && snd.onSendList == old(snd.onSendList)
    {
      hide Base, Seen, Sound, Sender.Sane, CloseBegun, CloseTaken;
      Sides();
      CloseqIs();
      ListsIs();
      SoundCloseHandled(Seen());
      LeaveCloseq();
      BeginClose();
    }

    method BeginClose()
      requires Base() && !onCloseq
      modifies `state, `onControlList, `onAckList, `controlListWaiting, `onTimewait, `onTimeout, `onCloseqInt,
        `destroyed
      modifies snd`onSendList, snd`onRto
      ensures Base() && Seen() == CloseBegun(old(Seen())) && state == old(AfterClose())
      ensures destroyed <==> old(destroyed) || (haveReset && old(state) != CLOSED)
      ensures !destroyed ==>
                onControlList == (old(onControlList) || (state != CLOSED && !old(snd.onSendList) && !old(onAckList)))
      ensures !destroyed ==> onAckList == old(onAckList) && snd.onSendList == old(snd.onSendList)
    {
      hide Base, Seen, Sound, Sender.Sane, Gone, Awaiting, To, Controlled;
      ListsIs();
      ResetIs();
      if haveReset {
        if state != CLOSED { End(); }
      } else if onControlList {
        SetAside();
      } else if snd.onSendList || onAckList {
        StartClose();
        AwaitLists();
      } else if state != CLOSED {
        StartClose();
        AddToControlList();
      }
    }

    lemma ResetIs()
      requires Base()
      ensures Seen().c.haveReset == haveReset
    {
      hide Parts, Sender.Valid, Receiver.Valid, Receiver.Logged, Receiver.View, Sender.State;
    }

    /** closeq_int; nothing ever takes the stream from it. */
    method SetAside()
      requires Base()
      modifies `onCloseqInt
      ensures Base() && onCloseqInt && Seen() == old(Seen()).(c := old(Seen()).c.(onCloseqInt := true))
    {
      hide Parts, Sender.Valid, Receiver.Valid, Receiver.Logged, Receiver.View, Sender.State;
      onCloseqInt := true;
    }

    method AwaitLists()
      requires Base()
      modifies `controlListWaiting
      ensures Base() && controlListWaiting && Seen() == Awaiting(old(Seen()))
    {
      hide Parts, Sender.Valid, Receiver.Valid, Receiver.Logged, Receiver.View, Sender.State;
      controlListWaiting := true;
    }

    /** The FIN's number is fixed, and the stream leaves the close queue and the timeout list. */
    method LeaveCloseq()
      requires Base()
      modifies `onTimeout, `onCloseq, snd`fss
      ensures Base() && !onCloseq && Seen() == CloseTaken(old(Seen()))
    {
      hide Parts, Sender.Valid, Receiver.Valid, Receiver.Logged, Receiver.View, Sender.State, Sender.FssSet, SeqOf;
      snd.SetFss();
      onCloseq, onTimeout := false, false;
    }

    lemma AsBefore()
      requires Base()
      ensures Seen() == To(Seen(), state)
    {
      hide Parts, Sender.Valid, Receiver.Valid, Receiver.Logged, Receiver.View, Sender.State;
    }

    method StartClose()
      requires Base()
      modifies `state
      ensures Base() && state == AfterOpen(old(state)) && Seen() == To(old(Seen()), AfterOpen(old(Seen()).c.state))
    {
      hide Base, Seen, To;
      ListsIs();
      AsBefore();
      if state == ESTABLISHED {
        Enter(FIN_WAIT_1);
      } else if state == CLOSE_WAIT {
        Enter(LAST_ACK);
      }
    }

    // ------------------------------------------------------------ timers

    /** After a rollback: the list that sends again.  Data before a FIN goes first, and the control packet waits for
        it. */
    ghost predicate SendsAgain()
      reads `state, `onControlList, `controlListWaiting, snd`onSendList, snd`written, snd`sndbuf, snd.sndbuf
    {
      match state
      case SYN_RCVD => onControlList
      case ESTABLISHED | CLOSE_WAIT => snd.onSendList
      case FIN_WAIT_1 | CLOSING | LAST_ACK =>
        if snd.Head() < |snd.written| then snd.onSendList && controlListWaiting && !onControlList else onControlList
      case _ => false
    }

    /** CheckRtmTimeout takes the stream from its list and HandleRTO runs (src/nty_timer.c:206-344): the timeout is
        counted, snd_nxt goes back to snd_una, and what lies there is queued again. */
    method RtoFires()
      requires Valid() && Live() && snd.onRto
      modifies `state, `onControlList, `onAckList, `controlListWaiting, `onTimewait, `onTimeout, `destroyed
      modifies snd`nrtx, snd`ssthresh, snd`cwnd, snd`sndNxt, snd`nxtPos, snd`onSendList, snd`onRto
      ensures Base() && Seen() == TimedOut(old(Seen()))
      ensures Valid() && !halted && (destroyed <==> old(snd.nrtx) >= 16)
      ensures if destroyed then state == CLOSED
              else state == old(state) && snd.nrtx == old(snd.nrtx) + 1 && snd.nxtPos == snd.unaPos && SendsAgain()
    {
      hide Base, Seen, Sound, Sender.Sane, SeqOf, Gone, Requeued, Sender.BackToUna;
      Sides();
      ghost var was := Seen();
      RtxIs();
      SoundTimedOut(was);
      NotFinished();
      StopTimer();
      if snd.nrtx >= TCP_MAX_RTX {
        End();
        return;
      }
      CountTimeout();
      assert state != CLOSED;  // the assertion of src/nty_timer.c:308
      Retransmit();
    }

    /** A stream on a retransmission list is in a state that HandleRTO knows. */
    lemma NotFinished()
      requires Valid() && Live() && snd.onRto
      ensures state !in {CLOSED, FIN_WAIT_2, TIME_WAIT} && snd.unaPos <= |snd.written|
      ensures state != SYN_RCVD ==> snd.unaPos == snd.Head()
      ensures state in {FIN_WAIT_1, CLOSING, LAST_ACK} ==> snd.fss == SeqOf(snd.iss, |snd.written|)
    {
      hide Parts, Sender.Valid, Receiver.Valid, Receiver.Logged, SeqOf;
      Linked();
      snd.HeadWithin();
    }

    lemma RtxIs()
      requires Base()
      ensures Seen().s.nrtx == snd.nrtx && Seen().s.onRto == snd.onRto
    {
      hide Parts, Sender.Valid, Receiver.Valid, Receiver.Logged, Receiver.View;
    }

    method StopTimer()
      requires Base()
      modifies snd`onRto
      ensures Base() && !snd.onRto && Seen() == old(Seen()).(s := old(Seen()).s.(onRto := false))
    {
      hide Parts, Sender.Valid, Receiver.Valid, Receiver.Logged, Receiver.View, Sender.State, Ctl;
      snd.StopTimer();
    }

    method CountTimeout()
      requires Base()
      modifies snd`nrtx
      ensures Base() && snd.nrtx == old(snd.nrtx) + 1
      ensures Seen() == old(Seen()).(s := old(Seen()).s.(nrtx := old(Seen()).s.nrtx + 1))
    {
      hide Parts, Sender.Valid, Receiver.Valid, Receiver.Logged, Receiver.View, Sender.State, Ctl;
      snd.CountTimeout();
    }

    /** The rollback, and the list that takes it from there (src/nty_timer.c:312-341). */
    method Retransmit()
      requires Base() && state !in {CLOSED, FIN_WAIT_2, TIME_WAIT} && snd.unaPos <= |snd.written|
      requires state != SYN_RCVD ==> snd.unaPos == snd.Head()
      requires state in {FIN_WAIT_1, CLOSING, LAST_ACK} ==> snd.fss == SeqOf(snd.iss, |snd.written|)
      modifies `onControlList, `controlListWaiting
      modifies snd`ssthresh, snd`cwnd, snd`sndNxt, snd`nxtPos, snd`onSendList
      ensures Base() && snd.nxtPos == snd.unaPos && SendsAgain()
      ensures Seen() == Requeued(old(Seen()).(s := snd.BackToUna(old(Seen()).s)))
    {
      hide Base, Seen, Sound, Sender.Sane, SeqOf, SeqLt, Sender.BackToUna;
      RollBack();
      ListsIs();
      if state in {ESTABLISHED, CLOSE_WAIT} {
        Resend();
      } else if state in {FIN_WAIT_1, CLOSING, LAST_ACK} {
        RequeueClosing();
      } else {
        AddToControlList();
      }
    }

    method RollBack()
      requires Base() && snd.unaPos <= |snd.written|
      modifies snd`ssthresh, snd`cwnd, snd`sndNxt, snd`nxtPos
      ensures Base() && snd.nxtPos == snd.unaPos && Seen() == old(Seen()).(s := snd.BackToUna(old(Seen()).s))
    {
      hide Parts, Sender.Valid, Receiver.Valid, Receiver.Logged, Receiver.View, Sender.State, Ctl, Sender.BackToUna,
        SeqOf;
      snd.Rollback();
    }

    method Resend()
      requires Base()
      modifies snd`onSendList
      ensures Base() && snd.onSendList && Seen() == Resent(old(Seen()))
    {
      hide Parts, Sender.Valid, Receiver.Valid, Receiver.Logged, Receiver.View, Sender.State, Ctl;
      snd.SetSending(true);
    }

    /** Data before the FIN is sent again first. */
    method RequeueClosing()
      requires Base() && state in {FIN_WAIT_1, CLOSING, LAST_ACK} && snd.nxtPos == snd.unaPos == snd.Head()
      requires snd.fss == SeqOf(snd.iss, |snd.written|)
      modifies `onControlList, `controlListWaiting, snd`onSendList
      ensures Base() && SendsAgain() && Seen() == Requeued(old(Seen()))
    {
      hide Base, Seen, Sound, Sender.Sane, SeqOf, SeqLt;
      ListsIs();
      FinIs();
      NxtIs();
      DataWaits();
      if SeqLt(snd.sndNxt, snd.fss) {
        SwapLists();
        Resend();
      } else {
        AddToControlList();
      }
    }

    lemma DataWaits()
      requires Base() && snd.nxtPos == snd.Head() && snd.fss == SeqOf(snd.iss, |snd.written|)
      ensures SeqLt(snd.sndNxt, snd.fss) <==> snd.Head() < |snd.written|
    {
      hide Parts, Sender.Valid, Receiver.Valid, Receiver.Logged, SeqOf, SeqLt;
      snd.RolledBack();
    }

    method SwapLists()
      requires Base()
      modifies `onControlList, `controlListWaiting
      ensures Base() && !onControlList && controlListWaiting && Seen() == Swapped(old(Seen()))
    {
      hide Base, Seen;
      LeaveControlList();
      AwaitLists();
    }

    /** CheckTimewaitExpire, for an expired stream (src/nty_timer.c:430-442). */
    method TimewaitExpires()
      requires Valid() && Live() && onTimewait
      modifies `state, `onControlList, `onAckList, `onTimewait, `onTimeout, `destroyed, snd`onSendList, snd`onRto
      ensures Base() && Seen() == if old(onControlList) then old(Seen()) else Gone(To(old(Seen()), CLOSED))
      ensures Valid() && !halted && snd.emitted == old(snd.emitted)
      ensures if old(onControlList) then state == old(state) && !destroyed else state == CLOSED && destroyed
    {
      hide Base, Seen, Sound, Sender.Sane, Gone;
      Sides();
      SoundGone(Seen());
      if !onControlList { End(); }
    }

    /** CheckConnectionTimeout, for an idle stream (src/nty_timer.c:464-477). */
    method TimesOut()
      requires Valid() && Live() && onTimeout
      modifies `state, `onControlList, `onAckList, `onTimewait, `onTimeout, `destroyed, snd`onSendList, snd`onRto
      ensures Base() && Seen() == Gone(To(old(Seen()), CLOSED))
      ensures Valid() && !halted && destroyed && state == CLOSED && snd.emitted == old(snd.emitted)
    {
      hide Base, Seen, Sound, Sender.Sane, Gone;
      Sides();
      SoundGone(Seen());
      End();
    }

    // ------------------------------------------------------------ runs

    /** What no event undoes. */
    twostate predicate Grows()
      reads snd, rcv, rcv.buf
    {
      && Forward()
      && old(snd.emitted) <= snd.emitted && old(snd.written) <= snd.written && old(snd.fins) <= snd.fins
      && old(rcv.delivered) <= rcv.delivered
      && old(rcv.finsConsumed) <= rcv.finsConsumed && (old(rcv.misread) ==> rcv.misread)
    }

    /** The entry of the receive history stems from the event. */
    ghost predicate Reports(entry: RecvEvent, e: Event) {
      match entry
      case Read(_) => e.Receives?
      case Segment(pos, payload, _, _, _) =>
        e.Arrives? && payload == e.seg.payload && Wrap(rcv.buf.initSeq + pos) == e.seg.sq
    }

    /** The event adds at most one entry to the receive history. */
    ghost predicate Noticed(was: seq<RecvEvent>, now: seq<RecvEvent>, e: Event) {
      was <= now && |now| <= |was| + 1 && (|now| > |was| ==> Reports(now[|was|], e))
    }

    /** The event ends the model's run. */
    ghost predicate EndsRun(e: Event)
      reads `state, rcv, snd, snd.sndbuf
    {
      e.Arrives? && Passes(e.seg, e.ts) && !e.seg.rst && Stops(e.seg, e.accepted, MisledBy(e.seg))
    }

    /** What the event makes of the machine, if it can happen now.  What a flush puts on the wire are consecutive
        segments up to where it leaves snd_nxt. */
    ghost predicate Did(e: Event, v: View, w: View) {
      match e
      case Arrives(seg, ts, accepted) => w == Arrived(v, seg, ts, accepted)
      case Sends(bytes) => w == if v.c.closed then v else SentBy(v, bytes)
      case Receives(len) => if v.c.closed then w == v else Reads(v, w, len)
      case Closes => w == if v.c.state == SYN_RCVD then v else Closed(v)
      case ApiRound => w == ApiServed(v)
      case ControlRound(routed) => w == if v.c.onControlList then ControlWritten(v, routed) else v
      case AckRound(room) => w == if v.c.onAckList then AckWritten(v, room) else v
      case DataRound(room, quiet) =>
        if v.s.onSendList then w == DataWritten(v, room, quiet, w.emitted) && Emits(v, w) else w == v
      case RtoTimer => w == if v.s.onRto then TimedOut(v) else v
      case TimewaitTimer => w == if v.c.onTimewait && !v.c.onControlList then Gone(To(v, CLOSED)) else v
      case IdleTimer => w == if v.c.onTimeout then Gone(To(v, CLOSED)) else v
    }

    ghost predicate Reads(v: View, w: View, len: int) {
      && v.r.st.delivered <= w.r.st.delivered
      && var user := w.r.st.delivered[|v.r.st.delivered|..];
         && (v.c.state in {ESTABLISHED, CLOSE_WAIT} ==> HandsOver(v.r, len, user, w.r.misread))
         && w == ReadDone(v, len, user, w.r.misread)
    }

    ghost predicate Emits(v: View, w: View) {
      v.emitted <= w.emitted && Consecutive(w.emitted[|v.emitted|..], v.s.nxt, w.s.nxt)
    }

    method AppEvent(e: Event)
      requires Valid() && Live() && (e.Closes? || e.Sends? || e.Receives?)
      modifies Footprint()
      ensures Base() && Did(e, old(Seen()), Seen())
      ensures Valid() && fresh(Footprint() - old(Footprint())) && Grows()
      ensures !e.Receives? ==> rcv.misread == old(rcv.misread)
      ensures Noticed(old(rcv.log), rcv.log, e) && Live()
    {
      hide Base, Seen, Sound, Sender.Sane, SentBy, ReadDone, Closed, HandsOver;
      Sides();
      ListsIs();
      TimersIs();
      DeliveredIs();
      ghost var was := Seen();
      match e {
        case Sends(bytes) => if !closed { var ret := AppSend(bytes); }
        case Receives(len) => if !closed { Recv(len); }
        case Closes => if state != SYN_RCVD { AppClose(); }
      }
    }

    method Recv(len: int)
      requires Valid() && Live() && !closed
      modifies rcv, rcv.buf
      ensures Base() && Reads(old(Seen()), Seen(), len)
      ensures Valid() && Live() && Forward() && rcv.finsConsumed == old(rcv.finsConsumed)
      ensures old(rcv.delivered) <= rcv.delivered && (old(rcv.misread) ==> rcv.misread)
      ensures Noticed(old(rcv.log), rcv.log, Receives(len))
    {
      hide Base, Seen, Sound, Sender.Sane, ReadDone, HandsOver;
      Sides();
      DeliveredIs();
      var ret, user := AppRecv(len);
      DeliveredIs();
      assert rcv.delivered[|old(rcv.delivered)|..] == user;
    }

    lemma DeliveredIs()
      requires Base()
      ensures Seen().r.st.delivered == rcv.delivered && Seen().r.misread == rcv.misread && Seen().c.state == state
    {
      hide Parts, Sender.Valid, Receiver.Valid, Receiver.Logged, Sender.State;
      rcv.StateIs();
    }

    lemma TimersIs()
      requires Base()
      ensures Seen().c.onTimewait == onTimewait && Seen().c.onTimeout == onTimeout && Seen().c.closed == closed
      ensures Seen().s.onRto == snd.onRto
    {
      hide Parts, Sender.Valid, Receiver.Valid, Receiver.Logged, Receiver.View;
    }

    method TimerEvent(e: Event)
      requires Valid() && Live() && (e.RtoTimer? || e.TimewaitTimer? || e.IdleTimer?)
      modifies `state, `onControlList, `onAckList, `controlListWaiting, `onTimewait, `onTimeout, `destroyed
      modifies snd`nrtx, snd`ssthresh, snd`cwnd, snd`sndNxt, snd`nxtPos, snd`onSendList, snd`onRto
      ensures Base() && Did(e, old(Seen()), Seen())
      ensures Valid() && !halted
    {
      hide Base, Seen, Sound, Sender.Sane, TimedOut, Gone;
      Sides();
      ListsIs();
      TimersIs();
      match e {
        case RtoTimer => if snd.onRto { RtoFires(); }
        case TimewaitTimer => if onTimewait { TimewaitExpires(); }
        case IdleTimer => if onTimeout { TimesOut(); }
        case _ =>
      }
    }

    method WriteEvent(e: Event)
      requires Valid() && Live() && (e.ControlRound? || e.AckRound? || e.DataRound?)
      modifies `onControlList, `onAckList, `ackCnt, `isWack, `controlListWaiting, `onTimewait, `onTimeout, `destroyed
      modifies rcv`needWndAdv, snd`sndNxt, snd`nxtPos, snd`isFinSent, snd`fins, snd`emitted, snd`onRto, snd`onSendList
      ensures Base() && Did(e, old(Seen()), Seen())
      ensures Valid() && !halted && old(snd.emitted) <= snd.emitted && old(snd.fins) <= snd.fins
    {
      hide Base, Seen, Sound, Sender.Sane, ControlWritten, AckWritten, DataWritten, Consecutive, Turn, Defers,
        CarriesFin;
      Sides();
      ListsIs();
      OrderIs();
      EmittedIs();
      match e {
        case ControlRound(routed) => if onControlList { WriteControl(routed); }
        case AckRound(room) => if onAckList { WriteAck(room); }
        case DataRound(room, quiet) =>
          if snd.onSendList {
            WriteData(room, quiet);
            OrderIs();
            EmittedIs();
          }
        case _ =>
      }
    }

    lemma EmittedIs()
      requires Base()
      ensures Seen().emitted == snd.emitted
    {
      hide Parts, Sender.Valid, Receiver.Valid, Receiver.Logged, Receiver.View, Sender.State, Ctl;
    }

    method SegmentEvent(e: Event)
      requires Valid() && Live() && e.Arrives? && |e.seg.payload| <= MAX_PAYLOAD
      modifies `state, `onControlList, `onAckList, `ackCnt, `onTimewait, `onTimeout, `haveReset, `destroyed, `halted
      modifies rcv, rcv.buf, rcv.buf.data, snd, snd.sndbuf
      ensures Base() && Did(e, old(Seen()), Seen())
      ensures Valid() && snd.sndbuf == old(snd.sndbuf) && NoData() && Forward()
      ensures old(rcv.finsConsumed) <= rcv.finsConsumed && Noticed(old(rcv.log), rcv.log, e)
      ensures (halted <==> old(EndsRun(e))) && (halted ==> StoppedBy(e.seg))
    {
      hide Base, Seen, Sound, Sender.Sane, Sender.Misleads, Passes, Stops, StoppedBy, Follows, Arrived;
      Sides();
      Arrive(e.seg, e.ts, e.accepted);
      Sides();
    }

    method ApiEvent()
      requires Valid() && Live()
      modifies `state, `onControlList, `onAckList, `ackCnt, `controlListWaiting, `onTimewait, `onTimeout, `onCloseq,
        `onCloseqInt, `onDestroyq, `destroyed
      modifies rcv`onAckq, snd`onSendq, snd`onSendList, snd`onRto, snd`fss
      ensures Base() && Did(ApiRound, old(Seen()), Seen())
      ensures Valid() && !halted
    {
      hide Base, Seen, Sound, Sender.Sane, ApiServed;
      Sides();
      ApiCalls();
      Sides();
    }

    /** An event other than a segment and a read leaves the history alone, and none but a segment ends the run. */
    lemma Undisturbed(e: Event, log: seq<RecvEvent>)
      ensures Noticed(log, log, e) && (!e.Arrives? ==> !EndsRun(e))
    {
    }

    /** One event, if it can happen now.  Only a read can misplace bytes the user may still read. */
    method Step(e: Event)
      requires Valid() && Live() && (e.Arrives? ==> |e.seg.payload| <= MAX_PAYLOAD)
      modifies Footprint()
      ensures Base() && Did(e, old(Seen()), Seen())
      ensures Valid() && fresh(Footprint() - old(Footprint())) && Grows()
      ensures !e.Receives? ==> rcv.misread == old(rcv.misread)
      ensures Noticed(old(rcv.log), rcv.log, e)
      ensures (halted <==> old(EndsRun(e))) && (halted ==> e.Arrives? && StoppedBy(e.seg))
    {
      hide Base, Seen, Sound, Sender.Sane, StoppedBy, EndsRun, Noticed, Did;
      Sides();
      Undisturbed(e, rcv.log);
      if e.Arrives? {
        SegmentEvent(e);
      } else if e.ApiRound? {
        ApiEvent();
      } else if e.ControlRound? || e.AckRound? || e.DataRound? {
        WriteEvent(e);
      } else if e.RtoTimer? || e.TimewaitTimer? || e.IdleTimer? {
        TimerEvent(e);
      } else {
        AppEvent(e);
      }
    }

    /** The machine goes through `views`, one event at a time, and lives until the last. */
    ghost predicate Trace(events: seq<Event>, views: seq<View>) {
      && |views| == |events| + 1
      && (forall i :: 0 <= i < |events| ==> Alive(views[i]) && Did(events[i], views[i], views[i + 1]))
      && (forall i :: 0 <= i < |views| ==> Sound(views[i]) && snd.Sane(views[i].s))
    }

    lemma TraceOn(events: seq<Event>, views: seq<View>, e: Event, w: View)
      requires Trace(events, views) && Alive(views[|events|]) && Did(e, views[|events|], w)
      requires Sound(w) && snd.Sane(w.s)
      ensures Trace(events + [e], views + [w])
    {
      hide Sound, Sender.Sane, Alive, Did;
      var es, vs := events + [e], views + [w];
      forall i | 0 <= i < |es| ensures Alive(vs[i]) && Did(es[i], vs[i], vs[i + 1]) {
        if i < |events| { assert es[i] == events[i] && vs[i] == views[i] && vs[i + 1] == views[i + 1]; }
      }
    }

    /** The events, one after the other. */
    method RunEvents(events: seq<Event>) returns (done: nat, ghost views: seq<View>)
      requires Valid() && Live()
      requires forall i :: 0 <= i < |events| && events[i].Arrives? ==> |events[i].seg.payload| <= MAX_PAYLOAD
      modifies Footprint()
      ensures Base() && Valid() && Grows() && done <= |events| && (done < |events| ==> !Live())
      ensures Trace(events[..done], views) && views[0] == old(Seen()) && views[done] == Seen()
      ensures halted ==> 0 < done && events[done - 1].Arrives? && StoppedBy(events[done - 1].seg)
      ensures Told(old(rcv.log), rcv.log, events[..done])
    {
      hide Base, Seen, Sound, Sender.Sane, StoppedBy, EndsRun, From, Noticed, Did, Trace;
      done := 0;
      Sides();
      ghost var start := Seen();
      views := [start];
      TraceStart(start);
      while done < |events| && !halted && !destroyed
        invariant Base() && Valid() && Grows() && done <= |events|
        invariant fresh(Footprint() - old(Footprint()))
        invariant |views| == done + 1 && Trace(events[..done], views) && views[0] == start && rcv.Valid()
                  && views[done] == Seen()
        invariant halted ==> 0 < done && events[done - 1].Arrives? && StoppedBy(events[done - 1].seg)
        invariant Told(old(rcv.log), rcv.log, events[..done])
        decreases |events| - done
      {
        ghost var log := rcv.log;
        Sides();
        Step(events[done]);
        TellOn(old(rcv.log), log, rcv.log, events[..done], events[done]);
        Sides();
        TraceOn(events[..done], views, events[done], Seen());
        assert events[..done] + [events[done]] == events[..done + 1];
        views := views + [Seen()];
        done := done + 1;
      }
    }

    /** Any sequence of events.  Each has the effect that Did says.  Until the connection is destroyed, or the model
        stops, every data segment on the wire carried the bytes the application wrote at its position; what the
        peer's segments said is what the user got; and each state means what Phase says of it. */
    method Run(events: seq<Event>, ghost stream: int -> u8) returns (done: nat, ghost views: seq<View>)
      requires Valid() && Live()
      requires forall i :: 0 <= i < |events| && events[i].Arrives? ==> |events[i].seg.payload| <= MAX_PAYLOAD
      modifies Footprint()
      ensures Base() && Valid() && Grows() && done <= |events| && (done < |events| ==> !Live())
      ensures Trace(events[..done], views) && views[0] == old(Seen()) && views[done] == Seen()
      ensures halted ==> 0 < done && events[done - 1].Arrives? && StoppedBy(events[done - 1].seg)
      ensures Told(old(rcv.log), rcv.log, events[..done])
      ensures AllRight(snd.emitted, snd.written, snd.iss)
      ensures rcv.buf.additive ==> !rcv.misread
      ensures !rcv.misread && (forall i :: 0 <= i < |rcv.log| ==> Honest(rcv.log[i], stream)) ==>
                forall i :: 0 <= i < |rcv.delivered| ==> rcv.delivered[i] == stream(i)
      ensures Live() ==> !(onTimewait && snd.onRto)
      ensures snd.FinsAfterData()
      ensures Live() && state == TIME_WAIT ==>
                snd.isFinSent && snd.fss == SeqOf(snd.iss, |snd.written|) && snd.sndUna == Wrap(snd.fss + 1)
                    && rcv.finsConsumed == 1
      ensures Live() && state in {ESTABLISHED, CLOSE_WAIT} ==> WindowsOrdered()
    {
      hide Base, Seen, Sound, Sender.Sane, AllRight, SeqOf, Wrap, Honest, WindowsOrdered, StoppedBy, Told, Trace,
        Sender.FinsAfterData, Grows;
      done, views := RunEvents(events);
      Conclusions();
      if !rcv.misread && (forall i :: 0 <= i < |rcv.log| ==> Honest(rcv.log[i], stream)) {
        rcv.DeliveredIsPrefix(stream);
      }
    }

    lemma TraceStart(v: View)
      requires Sound(v) && snd.Sane(v.s)
      ensures Trace([], [v])
    {
    }

    // ------------------------------------------------------------ laws of runs

    /** How often the retransmission timer fires. */
    ghost function Timeouts(events: seq<Event>, views: seq<View>): nat
      requires |views| == |events| + 1
    {
      if events == [] then 0
      else
        var last := |events| - 1;
        Timeouts(events[..last], views[..last + 1]) + if events[last].RtoTimer? && views[last].s.onRto then 1 else 0
    }

    /** While nothing is acknowledged timeouts are counted, and when the count is 16 the next ends the connection. */
    lemma {:induction false} SilenceEnds(events: seq<Event>, views: seq<View>)
      requires Trace(events, views) && !views[|events|].c.destroyed
      requires forall i :: 0 <= i < |views| ==> views[i].s.una == views[0].s.una
      ensures views[0].s.nrtx + Timeouts(events, views) <= views[|events|].s.nrtx
      ensures 0 < Timeouts(events, views) ==> views[0].s.nrtx + Timeouts(events, views) <= 16
      decreases |events|
    {
      hide Sound, Sender.Sane, Did;
      if events != [] {
        var last := |events| - 1;
        var es, vs := events[..last], views[..last + 1];
        assert Trace(es, vs) by { TracePrefix(events, views); }
        SilenceEnds(es, vs);
        Counted(events[last], views[last], views[last + 1]);
      }
    }

    lemma TracePrefix(events: seq<Event>, views: seq<View>)
      requires Trace(events, views) && events != []
      ensures Trace(events[..|events| - 1], views[..|events|])
    {
      hide Sound, Sender.Sane, Did, Alive;
      var es, vs := events[..|events| - 1], views[..|events|];
      forall i | 0 <= i < |es| ensures Alive(vs[i]) && Did(es[i], vs[i], vs[i + 1]) {
        assert es[i] == events[i] && vs[i] == views[i] && vs[i + 1] == views[i + 1];
      }
    }

    /** One event: the count of timeouts goes back only if snd_una moves. */
    lemma Counted(e: Event, v: View, w: View)
      requires Sound(v) && snd.Sane(v.s) && Alive(v) && Did(e, v, w) && w.s.una == v.s.una
      ensures v.s.nrtx <= w.s.nrtx
      ensures e.RtoTimer? && v.s.onRto && !w.c.destroyed ==> v.s.nrtx < TCP_MAX_RTX && w.s.nrtx == v.s.nrtx + 1
    {
      hide Arrived, Sound, Sender.Sane, ApiServed, ControlWritten, AckWritten, DataWritten, TimedOut, Alive, SentBy,
        ReadDone, HandsOver, Emits;
      match e {
        case Arrives(seg, ts, accepted) => ArrivedCounts(v, seg, ts, accepted);
        case RtoTimer => TimeoutCounts(v);
        case ApiRound => ApiKeepsCount(v);
        case ControlRound(routed) => ControlKeepsCount(v, routed);
        case AckRound(room) => AckRoundKeepsCount(v, room);
        case DataRound(room, quiet) => DataKeepsCount(v, room, quiet, w.emitted);
        case Sends(bytes) => SendKeepsCount(v, bytes);
        case Receives(len) => if !v.c.closed { ReadKeepsCount(v, w, len); }
        case _ =>
      }
    }

    lemma GoneIs(v: View)
      ensures Gone(v).c.destroyed && Gone(v).s.nrtx == v.s.nrtx
    {
    }

    lemma RequeuedCounts(v: View)
      ensures Requeued(v).s.nrtx == v.s.nrtx && Requeued(v).c.destroyed == v.c.destroyed
    {
      hide SeqOf, SeqLt, Resent, Controlled, Swapped;
      ResentLeaves(v);
      ResentLeaves(Swapped(v));
      SwappedLeaves(v);
      ControlledLeaves(v);
    }

    lemma ResentLeaves(v: View)
      ensures Resent(v).c == v.c && Resent(v).s.nrtx == v.s.nrtx
    {
    }

    lemma SwappedLeaves(v: View)
      ensures Swapped(v).s == v.s && Swapped(v).c.destroyed == v.c.destroyed
    {
    }

    lemma TimeoutCounts(v: View)
      ensures var w := TimedOut(v);
              v.s.nrtx <= w.s.nrtx && (w.c.destroyed || (v.s.nrtx < TCP_MAX_RTX && w.s.nrtx == v.s.nrtx + 1))
    {
      hide Requeued, Gone, To;
      var w := v.(s := v.s.(onRto := false));
      GoneIs(To(w, CLOSED));
      RequeuedCounts(w.(s := snd.BackToUna(w.s.(nrtx := v.s.nrtx + 1))));
      ToLeaves(w, CLOSED);
    }

    lemma ApiKeepsCount(v: View)
      ensures ApiServed(v).s.nrtx == v.s.nrtx
    {
      hide SendQueued, AckQueued, CloseBegun, CloseTaken, DestroyServed;
      var a := SendQueued(v);
      var w := AckQueued(a);
      QueuesKeepCount(v);
      QueuesKeepCount(a);
      CloseKeepsCount(w);
      CloseKeepsCount(CloseTaken(w));
      QueuesKeepCount(w);
      QueuesKeepCount(CloseBegun(CloseTaken(w)));
    }

    lemma QueuesKeepCount(v: View)
      ensures SendQueued(v).s.nrtx == AckQueued(v).s.nrtx == DestroyServed(v).s.nrtx == v.s.nrtx
    {
      hide Acking;
    }

    lemma CloseKeepsCount(v: View)
      ensures CloseTaken(v).s.nrtx == CloseBegun(v).s.nrtx == v.s.nrtx
    {
      hide SeqOf;
    }

    lemma ControlKeepsCount(v: View, routed: bool)
      ensures ControlWritten(v, routed).s.nrtx == v.s.nrtx
    {
      hide SeqOf, WindowTold;
    }

    lemma AckRoundKeepsCount(v: View, room: nat)
      ensures AckWritten(v, room).s == v.s
    {
      hide Owes, WindowTold;
    }

    lemma DataKeepsCount(v: View, room: nat, quiet: bool, emitted: seq<Emission>)
      ensures DataWritten(v, room, quiet, emitted).s.nrtx == v.s.nrtx
    {
      hide Sender.PlanOf, Sender.Probes, WindowTold;
    }

    lemma SendKeepsCount(v: View, bytes: seq<u8>)
      ensures SentBy(v, bytes).s.nrtx == v.s.nrtx
    {
    }

    lemma ReadKeepsCount(v: View, w: View, len: int)
      requires Reads(v, w, len)
      ensures w.s == v.s
    {
      hide ReadBy, HandsOver;
    }

    lemma AckCounts(v: View, seg: Segment)
      requires Sound(v) && snd.Sane(v.s) && Alive(v) && v.c.state !in {SYN_RCVD, CLOSED, TIME_WAIT}
      ensures var w := AckDone(v, seg);
              && v.s.una <= w.s.una && w.c.state == v.c.state && w.s.written == v.s.written
              && (w.s.una == v.s.una ==> v.s.nrtx <= w.s.nrtx)
    {
      hide Sender.Processed, SeqOf, Wrap;
      snd.ProcessedAdvances(v.s, v.c.state != ESTABLISHED, seg.sq, seg.ackSeq, seg.cwindow, |seg.payload|);
    }

    lemma UnaWithin(v: View)
      requires Sound(v) && snd.Sane(v.s) && Alive(v) && v.c.state in {SYN_RCVD, FIN_WAIT_1, CLOSING, LAST_ACK}
      ensures v.s.una <= |v.s.written| && (v.c.state == SYN_RCVD ==> v.s.una == -1)
    {
      hide SeqOf;
    }

    lemma DispatchedCounts(v: View, seg: Segment, accepted: bool)
      requires Sound(v) && snd.Sane(v.s) && Alive(v)
      ensures var w := Dispatched(v, seg, accepted); w.s.una == v.s.una ==> v.s.nrtx <= w.s.nrtx
    {
      hide AckDone, Sound, Sender.Sane, SeqOf, SeqLt, SeqGt, Wrap, Alive, InSynRcvd, InEstablished, InLastAck,
        InFinWait1, InFinWait2, InClosing;
      match v.c.state {
        case SYN_RCVD => SynRcvdCounts(v, seg, accepted);
        case ESTABLISHED => EstablishedCounts(v, seg);
        case CLOSE_WAIT => AckCounts(v, seg);
        case FIN_WAIT_2 => FinWait2Counts(v, seg);
        case TIME_WAIT =>
        case CLOSED =>
        case _ => ClosingCounts(v, seg);
      }
    }

    lemma EstablishedCounts(v: View, seg: Segment)
      requires Sound(v) && snd.Sane(v.s) && Alive(v) && v.c.state == ESTABLISHED
      ensures var w := InEstablished(v, seg); w.s.una == v.s.una ==> v.s.nrtx <= w.s.nrtx
    {
      hide AckDone, Sound, Sender.Sane, SeqOf, Wrap, Payloaded, Acking;
      SoundPayload(v, seg);
      AckCounts(Payloaded(v, seg), seg);
    }

    lemma SynRcvdCounts(v: View, seg: Segment, accepted: bool)
      requires Sound(v) && snd.Sane(v.s) && Alive(v) && v.c.state == SYN_RCVD
      ensures var w := InSynRcvd(v, seg, accepted); w.s.una == v.s.una ==> v.s.nrtx <= w.s.nrtx
    {
      hide Sound, Sender.Sane, SeqOf, Wrap, InEstablished, SynAnswered;
      UnaWithin(v);
      SoundSynAnswered(v, seg, accepted);
      SynCounts(v, seg, accepted);
      var w := SynAnswered(v, seg, accepted);
      if w.c.state == ESTABLISHED { EstablishedUna(w, seg); }
    }

    lemma SynCounts(v: View, seg: Segment, accepted: bool)
      requires v.s.una == -1 && v.c.state == SYN_RCVD
      ensures var w := SynAnswered(v, seg, accepted);
              (w.s.una == -1 ==> v.s.nrtx <= w.s.nrtx) && (w.c.state == ESTABLISHED ==> w.s.una == 0)
    {
      hide SeqOf, Wrap, Accepted, Controlled;
      AcceptedUna(v, accepted);
      ControlledLeaves(v);
    }

    lemma ControlledLeaves(v: View)
      ensures Controlled(v).s == v.s && Controlled(v).c.state == v.c.state && Controlled(v).c.destroyed == v.c.destroyed
    {
    }

    lemma AcceptedUna(v: View, accepted: bool)
      ensures Accepted(v, accepted).s.una == 0
    {
    }

    lemma EstablishedUna(v: View, seg: Segment)
      requires Sound(v) && snd.Sane(v.s) && Alive(v) && v.c.state == ESTABLISHED
      ensures v.s.una <= InEstablished(v, seg).s.una
    {
      hide AckDone, Sound, Sender.Sane, SeqOf, Wrap, Payloaded, Acking;
      SoundPayload(v, seg);
      AckCounts(Payloaded(v, seg), seg);
    }

    lemma FinWait2Counts(v: View, seg: Segment)
      requires Sound(v) && snd.Sane(v.s) && Alive(v) && v.c.state == FIN_WAIT_2
      ensures var w := InFinWait2(v, seg); w.s.una == v.s.una ==> v.s.nrtx <= w.s.nrtx
    {
      hide AckDone, Sound, Sender.Sane, SeqOf, Wrap, Payloaded, InTurn;
      AckCounts(v, seg);
      SoundAck(v, seg);
      SoundPayload(AckDone(v, seg), seg);
    }

    /** An ack of our FIN always moves snd_una. */
    lemma ClosingCounts(v: View, seg: Segment)
      requires Sound(v) && snd.Sane(v.s) && Alive(v) && v.c.state in {FIN_WAIT_1, CLOSING, LAST_ACK}
      ensures var w := InFinWait1(v, seg); v.c.state == FIN_WAIT_1 && w.s.una == v.s.una ==> v.s.nrtx <= w.s.nrtx
      ensures var w := InClosing(v, seg); v.c.state == CLOSING && w.s.una == v.s.una ==> v.s.nrtx <= w.s.nrtx
      ensures var w := InLastAck(v, seg); v.c.state == LAST_ACK && w.s.una == v.s.una ==> v.s.nrtx <= w.s.nrtx
    {
      hide AckDone, Sound, Sender.Sane, SeqOf, SeqLt, SeqGt, Wrap, Payloaded, InTurn, OfFin;
      UnaWithin(v);
      AckCounts(v, seg);
      if v.c.state == FIN_WAIT_1 { SoundPayloadOf(AckedInFinWait1(v, seg), seg); }
    }

    lemma SoundPayloadOf(v: View, seg: Segment)
      ensures Payloaded(v, seg).s == v.s
    {
    }

    lemma ArrivedCounts(v: View, seg: Segment, ts: Timestamp, accepted: bool)
      requires Sound(v) && snd.Sane(v.s) && Alive(v)
      ensures var w := Arrived(v, seg, ts, accepted); w.s.una == v.s.una ==> v.s.nrtx <= w.s.nrtx
    {
      hide Handled, Sound, Sender.Sane, Fits, Wrap, SeqLeq, Alive;
      SoundChecked(v, seg, ts);
      HandledCounts(v, seg, accepted);
      HandledCounts(Checked(v, seg, ts), seg, accepted);
    }

    lemma HandledCounts(v: View, seg: Segment, accepted: bool)
      requires Sound(v) && snd.Sane(v.s) && Alive(v)
      ensures var w := Handled(v, seg, accepted); w.s.una == v.s.una ==> v.s.nrtx <= w.s.nrtx
    {
      hide SeqOf, Dispatched;
      var w := v.(s := v.s.(peerWnd := seg.cwindow));
      assert Sound(w) && snd.Sane(w.s);
      DispatchedCounts(w, seg, accepted);
    }

    /** The handler of the state takes the segment's data. */
    ghost predicate TakesData(v: View, seg: Segment) {
      && seg.payload != []
      && (match v.c.state
          case ESTABLISHED => !seg.syn
          case FIN_WAIT_1 => seg.ack && !SeqLt(seg.sq, v.r.nxt)
          case FIN_WAIT_2 => seg.ack
          case _ => false)
    }

    /** What is heard of the segment's data. */
    ghost function DataHeard(v: View, seg: Segment): ReceivePath.Received {
      Heard(v.r, seg.payload, seg.sq, v.c.state != ESTABLISHED, rcv.buf.data.Length, rcv.buf.initSeq)
    }

    /** How many acks are due after the segment, of `was` before: the data is acknowledged with the next ack if it
        extends what can be read, and by an ack of its own otherwise; a FIN that is out of order while established
        calls for one more.  ack_cnt has six bits. */
    ghost function AcksDue(v: View, seg: Segment): nat {
      var r := DataHeard(v, seg);
      var due := Acking(v.c, r.next == v.r.next).ackCnt;
      if v.c.state == ESTABLISHED && seg.fin && Wrap(seg.sq + |seg.payload|) != r.nxt then (due + 1) % 64 else due
    }

    ghost predicate Acknowledges(v: View, w: View, seg: Segment) {
      && w.c.onAckList && w.c.ackCnt == AcksDue(v, seg)
      && w.r.st == DataHeard(v, seg).st && w.r.next == DataHeard(v, seg).next && w.r.log == DataHeard(v, seg).log
    }

    lemma AckLeaves(v: View, seg: Segment)
      ensures var w := AckDone(v, seg);
              w.r == v.r && w.c.ackCnt == v.c.ackCnt && w.c.onAckList == v.c.onAckList && w.c.state == v.c.state
    {
      hide Sender.Processed;
    }

    lemma PayloadAcknowledged(v: View, seg: Segment)
      requires seg.payload != [] && v.c.state in {ESTABLISHED, FIN_WAIT_1, FIN_WAIT_2}
      ensures var w := Payloaded(v, seg);
              && w.c.onAckList && w.c.ackCnt == Acking(v.c, DataHeard(v, seg).next == v.r.next).ackCnt
              && w.r == DataHeard(v, seg) && w.c.state == v.c.state
    {
      hide Heard;
    }

    lemma FinKeepsAcks(v: View, seg: Segment, next: TcpState)
      ensures var w := FinTaken(v, seg, next);
              && w.c.onAckList == v.c.onAckList && w.c.ackCnt == v.c.ackCnt
              && w.r.st == v.r.st && w.r.next == v.r.next && w.r.log == v.r.log
    {
      hide InTurn, FinTaken;
      if InTurn(v, seg) { FinTakenIs(v, seg, next); } else { FinNotTaken(v, seg, next); }
    }

    lemma EstablishedAcknowledges(v: View, seg: Segment)
      requires TakesData(v, seg) && v.c.state == ESTABLISHED
      ensures Acknowledges(v, InEstablished(v, seg), seg)
    {
      hide Wrap, SeqLt, SeqOf, SeqGt, Payloaded, AckDone, FinTaken, DataHeard;
      var w := Payloaded(v, seg);
      PayloadAcknowledged(v, seg);
      AckLeaves(w, seg);
      FinKeepsAcks(if seg.ack then AckDone(w, seg) else w, seg, CLOSE_WAIT);
    }

    lemma FinWait1Acknowledges(v: View, seg: Segment)
      requires TakesData(v, seg) && v.c.state == FIN_WAIT_1
      ensures Acknowledges(v, InFinWait1(v, seg), seg)
    {
      hide Wrap, SeqLt, SeqOf, SeqGt, Payloaded, AckDone, FinTaken, DataHeard, Sender.FinDone, AckedInFinWait1,
        Acking;
      var w := AckedInFinWait1(v, seg);
      AckedLeaves(v, seg);
      SameHeard(v, w, seg);
      PayloadAcknowledged(w, seg);
      FinKeepsAcks(Payloaded(w, seg), seg, if w.c.state == FIN_WAIT_1 then CLOSING else CLOSED);
    }

    lemma AckedLeaves(v: View, seg: Segment)
      requires v.c.state == FIN_WAIT_1
      ensures var w := AckedInFinWait1(v, seg);
              && w.r == v.r && w.c.ackCnt == v.c.ackCnt && w.c.onAckList == v.c.onAckList
              && w.c.state in {FIN_WAIT_1, FIN_WAIT_2}
    {
      hide AckDone, Sender.FinDone, SeqOf, SeqGt, To, OfFin;
      AckLeaves(v, seg);
      ToLeaves(AckDone(v, seg), FIN_WAIT_2);
    }

    lemma ToLeaves(v: View, state: TcpState)
      ensures To(v, state).c == v.c.(state := state) && To(v, state).r == v.r && To(v, state).s == v.s
    {
    }

    lemma FinWait2Acknowledges(v: View, seg: Segment)
      requires TakesData(v, seg) && v.c.state == FIN_WAIT_2
      ensures Acknowledges(v, InFinWait2(v, seg), seg)
    {
      hide Wrap, SeqLt, SeqOf, SeqGt, Payloaded, AckDone, FinTaken, DataHeard, Acking;
      var w := AckDone(v, seg);
      AckLeaves(v, seg);
      SameHeard(v, w, seg);
      PayloadAcknowledged(w, seg);
      FinKeepsAcks(Payloaded(w, seg), seg, TIME_WAIT);
    }

    /** Received data is acknowledged in every state that takes it. */
    lemma DataIsAcknowledged(v: View, seg: Segment, accepted: bool)
      requires TakesData(v, seg)
      ensures Acknowledges(v, Dispatched(v, seg, accepted), seg)
    {
      hide SeqLt, InEstablished, InFinWait1, InFinWait2, Acknowledges;
      match v.c.state {
        case ESTABLISHED => EstablishedAcknowledges(v, seg);
        case FIN_WAIT_1 => FinWait1Acknowledges(v, seg);
        case FIN_WAIT_2 => FinWait2Acknowledges(v, seg);
      }
    }

    lemma SameHeard(v: View, w: View, seg: Segment)
      requires w.r == v.r && v.c.state in {FIN_WAIT_1, FIN_WAIT_2} && w.c.state in {FIN_WAIT_1, FIN_WAIT_2}
      ensures DataHeard(w, seg) == DataHeard(v, seg)
      ensures w.c.ackCnt == v.c.ackCnt ==> forall now :: Acking(w.c, now).ackCnt == Acking(v.c, now).ackCnt
    {
      hide Heard;
    }

    /** And so it is when the segment arrives, in the window and with a timestamp that is not old. */
    lemma ArrivalIsAcknowledged(v: View, seg: Segment, ts: Timestamp, accepted: bool)
      requires TakesData(v, seg) && !seg.rst && ts in {Unused, Current} && Fits(v, seg)
      ensures Acknowledges(v, Arrived(v, seg, ts, accepted), seg)
    {
      hide Dispatched, Fits, SeqLt, Heard;
      DataIsAcknowledged(v.(s := v.s.(peerWnd := seg.cwindow)), seg, accepted);
    }

    /** One of the events explains the entry. */
    ghost predicate From(entry: RecvEvent, events: seq<Event>) {
      exists j :: 0 <= j < |events| && Reports(entry, events[j])
    }

    ghost predicate Told(was: seq<RecvEvent>, now: seq<RecvEvent>, events: seq<Event>) {
      was <= now && forall i :: |was| <= i < |now| ==> From(now[i], events)
    }

    /** One more event explains what it added. */
    lemma TellOn(was: seq<RecvEvent>, log: seq<RecvEvent>, now: seq<RecvEvent>, events: seq<Event>, e: Event)
      requires Told(was, log, events) && Noticed(log, now, e)
      ensures Told(was, now, events + [e])
    {
      hide Reports;
      var all := events + [e];
      assert all[|events|] == e;
      forall i | |was| <= i < |now| ensures From(now[i], all) {
        if i < |log| {
          assert now[i] == log[i];
          var j :| 0 <= j < |events| && Reports(now[i], events[j]);
          assert all[j] == events[j];
        } else {
          assert Reports(now[i], all[|events|]);
        }
      }
    }

    /** snd_una is the head of the send buffer, snd_nxt lies between it and the end of what was written, and snd_wnd is
        the room left. */
    ghost predicate WindowsOrdered()
      reads snd, snd.sndbuf
    {
      && snd.unaPos == snd.Head() <= snd.nxtPos <= |snd.written|
      && snd.sndUna == SeqOf(snd.iss, snd.unaPos) && snd.sndNxt == SeqOf(snd.iss, snd.nxtPos)
      && snd.sndWnd == snd.size - (|snd.written| - snd.Head())
      && (snd.sndbuf != null ==> snd.sndbuf.headSeq == snd.sndUna && snd.sndbuf.len == |snd.written| - snd.Head())
    }

    lemma Ordered()
      requires Valid()
      ensures Live() && state in {ESTABLISHED, CLOSE_WAIT} ==> WindowsOrdered()
    {
      hide Parts, Receiver.Valid, Receiver.Logged, Receiver.View, AllRight, SeqOf, Wrap;
      Linked();
      if snd.sndbuf != null { snd.HeadSeqIs(); }
    }

    lemma Conclusions()
      requires Valid()
      ensures rcv.Valid() && rcv.Logged() && snd.Valid()
      ensures rcv.buf.additive ==> !rcv.misread
      ensures Live() ==> !(onTimewait && snd.onRto)
      ensures AllRight(snd.emitted, snd.written, snd.iss) && snd.FinsAfterData()
      ensures Live() && state == TIME_WAIT ==>
                snd.isFinSent && snd.fss == SeqOf(snd.iss, |snd.written|) && snd.sndUna == Wrap(snd.fss + 1)
                    && rcv.finsConsumed == 1
      ensures Live() && state in {ESTABLISHED, CLOSE_WAIT} ==> WindowsOrdered()
    {
      hide Receiver.Valid, AllRight, SeqOf, Wrap, Legal, ReceivePath.Run, WindowsOrdered, Receiver.View;
      Ordered();
      Linked();
      TimersIs();
      FinsIs();
      SeqOfAdd(snd.iss, |snd.written|, 1);
    }

    lemma FinsIs()
      requires Base()
      ensures Seen().s.fins == snd.fins && Seen().s.written == snd.written
    {
      hide Parts, Sender.Valid, Receiver.Valid, Receiver.Logged, Receiver.View;
    }
  }

  lemma NotBeforeItself(a: u32)
    ensures !SeqLt(a, a)
  {
  }

  /** A connection that has answered the peer's SYN, whose number is 100, under the number 200. */
  method SynReceived(peerWnd: u32) returns (c: Connection)
    ensures c.Valid() && c.Live() && c.state == SYN_RCVD && fresh(c.Footprint())
    ensures !c.onControlList && !c.onAckList && !c.controlListWaiting && !c.closed && !c.haveReset
    ensures c.rcv.rcvNxt == 101 && c.rcv.finsConsumed == 0
    ensures c.snd.iss == 200 && c.snd.sndbuf == null && c.snd.written == [] && c.snd.fins == []
    ensures c.snd.size == 8192 && c.snd.mss == 1460 && c.snd.cwnd == 1 && c.snd.peerWnd == peerWnd
  {
    hide Connection.Valid, Connection.Base, Connection.Seen, Connection.Sound;
    c := new Connection(100, 200, 8192, 8192, 1460, 1448, peerWnd, false);
    c.Parties();
    c.WriteControl(true);
  }

  /** A connection whose handshake is over.  The peer's initial number is 100, ours is 200. */
  method Opened(peerWnd: u32) returns (c: Connection)
    ensures c.Valid() && c.Live() && c.state == ESTABLISHED && fresh(c.Footprint())
    ensures !c.onControlList && !c.onAckList && !c.controlListWaiting && !c.closed && !c.haveReset
    ensures c.rcv.rcvNxt == 101 && c.rcv.finsConsumed == 0
    ensures c.snd.iss == 200 && c.snd.sndbuf == null && c.snd.written == [] && c.snd.fins == []
    ensures c.snd.unaPos == c.snd.nxtPos == 0 && c.snd.size == 8192 && c.snd.mss == 1460
    ensures c.snd.cwnd == 2920 && c.snd.peerWnd == peerWnd
  {
    hide Connection.Valid, Connection.Base, Connection.Seen, Connection.Sound;
    c := SynReceived(peerWnd);
    c.HandleSynRcvd(Segment.Segment(false, true, false, false, 101, 201, peerWnd, []), true);
  }

  /** The application closes before it wrote anything. */
  method ClosedAtOnce() returns (c: Connection)
    ensures c.Valid() && c.Live() && c.state == FIN_WAIT_1 && fresh(c.Footprint())
    ensures c.onControlList && !c.onAckList && !c.snd.onSendList && c.rcv.rcvNxt == 101 && c.rcv.finsConsumed == 0
    ensures c.snd.iss == 200 && c.snd.sndbuf == null && c.snd.written == [] && c.snd.fins == []
  {
    hide Connection.Valid, Connection.Base, Connection.Seen, Connection.Sound;
    c := Opened(5000);
    c.Parties();
    c.AppClose();
    c.HandleClose();
  }

  /** And the FIN goes out. */
  method FinSent() returns (c: Connection)
    ensures c.Valid() && c.Live() && c.state == FIN_WAIT_1 && fresh(c.Footprint())
    ensures !c.onAckList && c.rcv.rcvNxt == 101 && c.rcv.finsConsumed == 0
    ensures c.snd.sndbuf == null && c.snd.isFinSent && c.snd.fins == [201] && c.snd.fss == 201
  {
    hide Connection.Valid, Connection.Base, Connection.Seen, Connection.Sound;
    c := ClosedAtOnce();
    c.Closing();
    c.WriteControl(true);
    c.Parties();
  }

  /** A segment that acknowledges our FIN and brings the peer's may be processed. */
  method FinArrives() returns (c: Connection, seg: Segment)
    ensures c.Valid() && c.Live() && c.state == FIN_WAIT_1 && fresh(c.Footprint())
    ensures !c.onAckList && c.rcv.rcvNxt == 101 && c.rcv.finsConsumed == 0
    ensures c.snd.sndbuf == null && c.snd.isFinSent && c.snd.fins == [201] && c.snd.fss == 201
    ensures seg == Segment.Segment(false, true, true, false, 101, 202, 5000, []) && c.rcv.Valid()
    ensures c.rcv.Completes([], 101)
  {
    hide Connection.Valid, Connection.Base, Connection.Seen, Connection.Sound, Receiver.Valid, Receiver.Completes,
      SeqBetween;
    c := FinSent();
    seg := Segment.Segment(false, true, true, false, 101, 202, 5000, []);
    c.Parties();
    c.rcv.OutsideCompletes([], 101);
    c.rcv.NextFits();
    var ok := c.ValidSeq(seg, Current);
    assert ok;
    c.Parties();
    c.rcv.OutsideCompletes([], 101);
  }

  /** It leads to CLOSED. */
  method FinsCrossed() returns (c: Connection, trace: seq<TcpState>)
    ensures c.Valid() && c.Live() && c.state == CLOSED && fresh(c.Footprint()) && trace == [FIN_WAIT_1, CLOSED]
    ensures c.onControlList && !c.onAckList && !c.snd.onSendList && c.snd.fins == [201] && c.rcv.finsConsumed == 1
  {
    hide Connection.Valid, Connection.Base, Connection.Seen, Connection.Sound, Receiver.Valid, Receiver.Completes;
    var seg;
    c, seg := FinArrives();
    trace := [c.state];
    c.HandleFinWait1(seg);
    c.Parties();
    trace := trace + [c.state];
  }

  /** The run that shows what storing a duration for a state does (src/nty_tcp.c:1140).  One segment acknowledges our
      FIN and brings the peer's: the state becomes CLOSED, and the next control packet is a reset, after which the
      stream is destroyed without having waited. */
  method TimeWaitSkipped() returns (c: Connection, trace: seq<TcpState>)
    ensures trace == [FIN_WAIT_1, CLOSED] && c.Valid() && c.destroyed
    ensures c.snd.fins == [201] && c.rcv.finsConsumed == 1
  {
    hide Connection.Valid, Connection.Base, Connection.Seen, Connection.Sound;
    c, trace := FinsCrossed();
    c.WriteControl(true);
  }

  /** A run in which the FIN overtakes data.  A flush that uses up the peer's window of 50 bytes takes the stream off
      the send list with half of its 100 bytes unsent; then nothing holds the FIN back.  Its number is right all the
      same. */
  method FinOvertakesData() returns (c: Connection, ghost sent: int)
    ensures c.Valid() && c.Live() && c.state == FIN_WAIT_1
    ensures sent == 50 && |c.snd.written| == 100 && c.snd.fins == [301]
  {
    hide Connection.Valid, Connection.Base, Connection.Seen, Connection.Sound;
    c := HalfSent();
    sent := c.snd.nxtPos;
    c.AppClose();
    c.HandleClose();
    c.Closing();
    c.WriteControl(true);
  }

  /** The application has written 100 bytes; the peer's window has 50. */
  method Written() returns (c: Connection)
    ensures c.Valid() && c.Live() && c.state == ESTABLISHED && fresh(c.Footprint())
    ensures !c.onControlList && !c.onAckList && !c.controlListWaiting && !c.closed && !c.haveReset
    ensures c.snd.onSendList && !c.snd.onSendq && c.snd.iss == 200 && |c.snd.written| == 100 && c.snd.fins == []
    ensures c.snd.unaPos == c.snd.nxtPos == 0 && c.snd.mss == 1460 && c.snd.cwnd == 2920 && c.snd.peerWnd == 50
  {
    hide Connection.Valid, Connection.Base, Connection.Seen, Connection.Sound;
    c := Accepted();
    c.DequeueSend();
  }

  /** They are buffered and queued first. */
  method Accepted() returns (c: Connection)
    ensures c.Valid() && c.Live() && c.state == ESTABLISHED && fresh(c.Footprint())
    ensures !c.onControlList && !c.onAckList && !c.controlListWaiting && !c.closed && !c.haveReset
    ensures c.snd.onSendq && c.snd.iss == 200 && |c.snd.written| == 100 && c.snd.fins == []
    ensures c.snd.unaPos == c.snd.nxtPos == 0 && c.snd.mss == 1460 && c.snd.cwnd == 2920 && c.snd.peerWnd == 50
  {
    hide Connection.Valid, Connection.Base, Connection.Seen, Connection.Sound;
    c := Opened(50);
    c.Parties();
    c.snd.AllRoom();
    var ret := c.AppSend(seq(100, _ => 7));
  }

  /** Of 100 bytes written, the first 50 are sent. */
  method HalfSent() returns (c: Connection)
    ensures c.Valid() && c.Live() && c.state == ESTABLISHED && fresh(c.Footprint())
    ensures !c.onControlList && !c.onAckList && !c.snd.onSendList && !c.snd.onSendq && !c.closed && !c.haveReset
    ensures c.snd.iss == 200 && c.snd.nxtPos == 50 && |c.snd.written| == 100 && c.snd.fins == []
  {
    hide Connection.Valid, Connection.Base, Connection.Seen, Connection.Sound, Plan, Connection.Turn;
    c := Written();
    c.Parties();
    c.TurnIs(10);
    HalfGoesOut();
    c.WriteData(10, false);
  }

  lemma HalfGoesOut()
    ensures Plan(0, 0, 0, 100, 50, 1460, 10) == (1, 50)
  {
    assert Plan(1, 50, 0, 100, 0, 1460, 9) == (1, 50);
  }
}
