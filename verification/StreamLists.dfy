/** The lists a stream can be on: the sender's control, send and ack lists (src/nty_tcp.c:272-340, 2243-2457), and the
    retransmission, time-wait and timeout lists (src/nty_timer.c).  Every list has a flag in the stream and a counter
    beside its head, all kept by hand. */
module StreamLists {
  import opened Lists
  import opened SeqArith

  const RTO_HASH := 3000
  const TIMEWAIT := 0        // NTY_TCP_TIMEWAIT, ticks
  const TIMEOUT := 30000     // NTY_TCP_TIMEOUT * 1000, ticks

  /** Whether the state of a stream lets the data loop flush it: always in CLOSE_WAIT, FIN_WAIT_1 and LAST_ACK, in
      ESTABLISHED unless a control packet goes first, and not at all otherwise. */
  datatype Flushing = Always | ControlFirst | Never

  /** What an attempt to send comes to: no room in the device, a segment that only acknowledges, one that has to be
      acknowledged, or the reset that ends a CLOSED stream. */
  datatype Sending = Failed | Acked | Armed(tsRto: u32) | Reset

  /** What a flush comes to: how many segments went out, all to be acknowledged, before it ended or failed. */
  datatype Flush = Flush(sent: nat, failed: bool, tsRto: u32)

  /** What the ack loop makes of a stream: whether an acknowledgment is due, how many go out, and whether the window
      advertisement does. */
  datatype AckTurn = AckTurn(due: bool, acks: nat, window: bool)

  /** The slot of the wheel for a deadline, when the wheel stands at `base`; deadlines far ahead share the last list. */
  function SlotAt(base: u32, tsRto: u32): nat {
    if Signed(Wrap(tsRto - base)) < RTO_HASH then tsRto % RTO_HASH else RTO_HASH
  }

  /** Deadlines less than 3000 ticks ahead have a slot each, except across the wrap of the clock: 2^32 is no multiple of
      3000, and two deadlines 2296 ticks apart meet there.  What is further ahead shares the last list. */
  lemma SlotsApart(base: u32, i: nat, j: nat, far: nat)
    requires i < j < 3000 <= far < 0x8000_0000
    ensures SlotAt(base, Wrap(base + i)) == SlotAt(base, Wrap(base + j)) <==>
              base + i < 0x1_0000_0000 <= base + j && j - i == 2296
    ensures SlotAt(base, Wrap(base + i)) < 3000
    ensures SlotAt(base, Wrap(base + far)) == 3000
  {
    FarAhead(base, far);
    Ahead(base, i);
    Ahead(base, j);
    var a, b := Wrap(base + i), Wrap(base + j);
    SameRemainder(a, b);
    if base + i < 0x1_0000_0000 <= base + j {
      Multiple(2296 - (j - i), 1_431_655);
    } else {
      Multiple(i - j, 0);
    }
  }

  lemma Multiple(d: int, k: nat)
    requires -3000 < d < 3000
    ensures (k * 3000 + d) % 3000 == 0 <==> d == 0
  {
    assert (k * 3000 + d) % 3000 == d % 3000;
  }

  lemma Ahead(base: u32, i: nat)
    requires i < 3000
    ensures SlotAt(base, Wrap(base + i)) == Wrap(base + i) % 3000
    ensures Wrap(base + i) == if base + i < 0x1_0000_0000 then base + i else base + i - 0x1_0000_0000
  {
  }

  lemma SameRemainder(a: nat, b: nat)
    ensures a % 3000 == b % 3000 <==> (a - b) % 3000 == 0
  {
    assert a == a / 3000 * 3000 + a % 3000 && b == b / 3000 * 3000 + b % 3000;
    assert a - b == (a / 3000 - b / 3000) * 3000 + (a % 3000 - b % 3000);
  }

  /** More than that ahead, up to half the clock's range, they share the last list. */
  lemma FarAhead(base: u32, i: nat)
    requires 3000 <= i < 0x8000_0000
    ensures SlotAt(base, Wrap(base + i)) == 3000
  {
  }

  class Stream {
    var onControl: bool
    var onSend: bool
    var onAck: bool
    var onRto: int           // index of the retransmission list, or -1
    var onTimewait: bool
    var onTimeout: bool
    var waiting: bool        // control_list_waiting
    var hasSocket: bool
    var closed: bool         // the state is CLOSED
    var flushing: Flushing
    var ackCount: nat
    var windowAck: bool      // is_wack
    var tsRto: u32
    var expires: u32         // ts_tw_expire
    var active: u32          // last_active_ts
    var activeAt: int        // the same instants on a clock that never wraps
    var expiresAt: int

    constructor ()
      ensures !onControl && !onSend && !onAck && onRto == -1 && !onTimewait && !onTimeout
      ensures !hasSocket && !closed && flushing == Never && !waiting && ackCount == 0 && !windowAck
      ensures tsRto == expires == active == 0 && activeAt == expiresAt == 0
    {
      onControl, onSend, onAck, onRto, onTimewait, onTimeout := false, false, false, -1, false, false;
      hasSocket, closed, flushing := false, false, Never;
      waiting, ackCount, windowAck := false, 0, false;
      tsRto, expires, active, activeAt, expiresAt := 0, 0, 0, 0, 0;
    }
  }

  /** The lists of a manager, the time the wheel stands at, and the clock. */
  datatype View = View(control: seq<Stream>, send: seq<Stream>, ack: seq<Stream>, timewait: seq<Stream>,
    timeout: seq<Stream>, wheel: seq<seq<Stream>>, base: u32, streams: set<Stream>, now: int)

  class Manager {
    var control: seq<Stream>
    var controlCount: int
    var send: seq<Stream>
    var sendCount: int
    var ack: seq<Stream>
    var ackCount: int
    var rto: seq<seq<Stream>>
    var rtoCount: int
    var nowIdx: nat                  // rto_now_idx
    var nowTs: u32                   // rto_now_ts
    var timewait: seq<Stream>
    var timewaitCount: int
    var timeout: seq<Stream>
    var timeoutCount: int
    var streams: set<Stream>         // every stream created and not destroyed
    var now: int                     // the latest time seen, on a clock that never wraps

    ghost predicate ControlOk()
      reads `control, `controlCount, `streams, streams`onControl
    {
      Tidy(control, controlCount, streams) && forall s :: s in streams ==> (s.onControl <==> s in control)
    }

    ghost predicate SendOk()
      reads `send, `sendCount, `streams, streams`onSend
    {
      Tidy(send, sendCount, streams) && forall s :: s in streams ==> (s.onSend <==> s in send)
    }

    ghost predicate AckOk()
      reads `ack, `ackCount, `streams, streams`onAck
    {
      Tidy(ack, ackCount, streams) && forall s :: s in streams ==> (s.onAck <==> s in ack)
    }

    ghost predicate TimewaitOk()
      reads `timewait, `timewaitCount, `streams, streams`onTimewait
    {
      Tidy(timewait, timewaitCount, streams) && forall s :: s in streams ==> (s.onTimewait <==> s in timewait)
    }

    ghost predicate TimeoutOk()
      reads `timeout, `timeoutCount, `streams, streams`onTimeout
    {
      Tidy(timeout, timeoutCount, streams) && forall s :: s in streams ==> (s.onTimeout <==> s in timeout)
    }

    /** One list for every slot of the wheel, and one for what lies beyond it. */
    ghost predicate RtoOk()
      reads `rto, `rtoCount, `streams, streams`onRto
    {
      && |rto| == RTO_HASH + 1 && rtoCount == Sum(rto)
      && (forall i :: 0 <= i < |rto| ==> Tidy(rto[i], |rto[i]|, streams))
      && (forall s :: s in streams ==> -1 <= s.onRto <= RTO_HASH)
      && (forall s, i :: s in streams && 0 <= i < |rto| ==> (s in rto[i] <==> s.onRto == i))
    }

    /** In the order of their deadlines; and nothing expires later than the newest entry could. */
    ghost predicate TimewaitSorted()
      reads `timewait, `now, timewait`expires, timewait`expiresAt
    {
      && ByDeadline(timewait, null)
      && (forall s :: s in timewait ==> s.expires == Wrap(s.expiresAt) && s.expiresAt <= now + TIMEWAIT)
    }

    /** Least recently active first. */
    ghost predicate TimeoutSorted()
      reads `timeout, `now, timeout`active, timeout`activeAt
    {
      && ByActivity(timeout, null)
      && (forall s :: s in timeout ==> s.active == Wrap(s.activeAt) && s.activeAt <= now)
    }

    ghost predicate Valid()
      reads this, streams
    {
      && ControlOk() && SendOk() && AckOk() && RtoOk() && TimewaitOk() && TimeoutOk()
      && TimewaitSorted() && TimeoutSorted()
    }

    /** The retransmission lists and the time-wait list share the link in the stream, so it must be on one of them
        only. */
    ghost predicate Exclusive()
      reads `streams, streams`onRto, streams`onTimewait
    {
      forall s :: s in streams ==> !(s.onRto >= 0 && s.onTimewait)
    }

    constructor ()
      ensures Valid() && Exclusive() && streams == {} && nowIdx == 0 && nowTs == 0 && now == 0
    {
      control, send, ack, timewait, timeout := [], [], [], [], [];
      controlCount, sendCount, ackCount, rtoCount, timewaitCount, timeoutCount := 0, 0, 0, 0, 0, 0;
      rto := seq(RTO_HASH + 1, _ => []);
      nowIdx, nowTs, streams, now := 0, 0, {}, 0;
      new;
      SumEmpty(rto);
    }

    // ---------------------------------------------------------------- what the lists come to

    ghost function Seen(): View
      reads this
    {
      View(control, send, ack, timewait, timeout, rto, nowTs, streams, now)
    }

    ghost predicate OnWheel(v: View, s: Stream) { exists i :: 0 <= i < |v.wheel| && s in v.wheel[i] }

    /** What the flags and the counter say about the lists. */
    lemma WheelIs(s: Stream)
      requires Valid() && s in streams
      ensures (s.onRto >= 0 <==> OnWheel(Seen(), s)) && rtoCount == Sum(rto)
      ensures (s.onTimeout <==> s in timeout) && (s.onTimewait <==> s in timewait) && (s.onControl <==> s in control)
      ensures (s.onSend <==> s in send) && (s.onAck <==> s in ack)
    {
      hide NoDup, Tidy, Sum, Manager.TimewaitSorted, Manager.TimeoutSorted;
      if s.onRto >= 0 { assert s in Seen().wheel[s.onRto]; }
    }

    ghost function Added(q: seq<Stream>, s: Stream): seq<Stream> { if s in q then q else q + [s] }

    /** A stream that is active goes to the end of the timeout list. */
    ghost function Touched(v: View, s: Stream): View {
      if s in v.timeout then v.(timeout := Drop(v.timeout, s) + [s]) else v
    }

    /** The timer is started, unless it runs; an empty wheel starts at the deadline. */
    ghost function ArmedView(v: View, s: Stream, ts: u32): View {
      var w := Touched(v, s);
      var base := if Sum(v.wheel) == 0 then ts else v.base;
      w.(base := base, wheel := if OnWheel(v, s) then v.wheel else Joined(v.wheel, SlotAt(base, ts), s))
    }

    /** DestroyTcpStream. */
    ghost function Erased(v: View, s: Stream): View {
      View(Drop(v.control, s), Drop(v.send, s), Drop(v.ack, s), Drop(v.timewait, s), Drop(v.timeout, s),
          Off(v.wheel, s),
        v.base, v.streams - {s}, v.now)
    }

    /** What an attempt to send comes to. */
    ghost function Emitted(v: View, s: Stream, o: Sending): View {
      match o
      case Failed => v
      case Acked => Touched(v, s)
      case Armed(ts) => ArmedView(v, s, ts)
      case Reset => Erased(v, s)
    }

    /** The turn of the first stream of the control list. */
    ghost function HeadServed(v: View, o: Sending): View
      requires v.control != []
    {
      if o == Failed then v else Emitted(v.(control := v.control[1..]), v.control[0], o)
    }

    /** The first `k` turns of a round. */
    ghost function Round(v: View, k: nat, outcome: nat -> Sending): View {
      if k == 0 then v
      else
        var w := Round(v, k - 1, outcome);
        if w.control == [] then w else HeadServed(w, outcome(k - 1))
    }

    ghost function Fired(v: View, s: Stream, e: RtoEffect): View {
      var w := v.(wheel := Off(v.wheel, s));
      match e
      case GiveUp => Erased(w, s)
      case Keep => w
      case Resend => w.(send := Added(w.send, s))
      case Control => w.(control := Added(w.control, s))
      case FinishData => w.(control := Drop(w.control, s), send := Added(w.send, s))
    }

    ghost function Acted(v: View, s: Stream, act: Action): View {
      match act
      case ToControl => v.(control := Added(v.control, s))
      case ToSend => v.(send := Added(v.send, s))
      case ToAck => v.(ack := Added(v.ack, s))
      case ToRto(ts) => ArmedView(v, s, ts)
      case OffRto => v.(wheel := Off(v.wheel, s))
      case ToTimewait =>
        v.(timewait := Drop(v.timewait, s) + [s], wheel := if s in v.timewait then v.wheel else Off(v.wheel, s))
      case ToTimeout => v.(timeout := Drop(v.timeout, s) + [s])
      case Seen => Touched(v, s)
      case Fires(e) => Fired(v, s, e)
      case Die => Erased(v, s)
    }

    // ---------------------------------------------------------------- the sender's lists

    method AddToControl(s: Stream)
      requires ControlOk() && s in streams
      modifies s`onControl, `control, `controlCount
      ensures ControlOk() && s.onControl && control == if old(s.onControl) then old(control) else old(control) + [s]
    {
      hide NoDup, Tidy;
      if !s.onControl {
        TidySnoc(control, controlCount, streams, s);
        s.onControl, control, controlCount := true, control + [s], controlCount + 1;
      }
    }

    method RemoveFromControl(s: Stream)
      requires ControlOk() && s in streams
      modifies s`onControl, `control, `controlCount
      ensures ControlOk() && !s.onControl && control == Drop(old(control), s)
    {
      hide NoDup, Tidy, Drop;
      if s.onControl {
        TidyDrop(control, controlCount, streams, s);
        s.onControl, control, controlCount := false, Drop(control, s), controlCount - 1;
      } else {
        Absent(control, s);
      }
    }

    method AddToSend(s: Stream)
      requires SendOk() && s in streams
      modifies s`onSend, `send, `sendCount
      ensures SendOk() && s.onSend && send == if old(s.onSend) then old(send) else old(send) + [s]
    {
      hide NoDup, Tidy;
      if !s.onSend {
        TidySnoc(send, sendCount, streams, s);
        s.onSend, send, sendCount := true, send + [s], sendCount + 1;
      }
    }

    method RemoveFromSend(s: Stream)
      requires SendOk() && s in streams
      modifies s`onSend, `send, `sendCount
      ensures SendOk() && !s.onSend && send == Drop(old(send), s)
    {
      hide NoDup, Tidy, Drop;
      if s.onSend {
        TidyDrop(send, sendCount, streams, s);
        s.onSend, send, sendCount := false, Drop(send, s), sendCount - 1;
      } else {
        Absent(send, s);
      }
    }

    method AddToAck(s: Stream)
      requires AckOk() && s in streams
      modifies s`onAck, `ack, `ackCount
      ensures AckOk() && s.onAck && ack == if old(s.onAck) then old(ack) else old(ack) + [s]
    {
      hide NoDup, Tidy;
      if !s.onAck {
        TidySnoc(ack, ackCount, streams, s);
        s.onAck, ack, ackCount := true, ack + [s], ackCount + 1;
      }
    }

    method RemoveFromAck(s: Stream)
      requires AckOk() && s in streams
      modifies s`onAck, `ack, `ackCount
      ensures AckOk() && !s.onAck && ack == Drop(old(ack), s)
    {
      hide NoDup, Tidy, Drop;
      if s.onAck {
        TidyDrop(ack, ackCount, streams, s);
        s.onAck, ack, ackCount := false, Drop(ack, s), ackCount - 1;
      } else {
        Absent(ack, s);
      }
    }

    // ---------------------------------------------------------------- the timer lists

    /** Exclusive membership survives exactly when the stream is not waiting in TIME_WAIT. */
    method AddToRto(s: Stream)
      requires RtoOk() && s in streams
      modifies s`onRto, `rto, `rtoCount, `nowIdx, `nowTs
      ensures RtoOk() && s.onRto >= 0 && (old(s.onRto) >= 0 ==> s.onRto == old(s.onRto))
      ensures old(Exclusive()) ==> (Exclusive() <==> !s.onTimewait)
      ensures rtoCount == old(rtoCount) + if old(s.onRto) >= 0 then 0 else 1
      ensures nowTs == (if old(rtoCount) == 0 then s.tsRto else old(nowTs)) && (old(rtoCount) == 0 ==> nowIdx == 0)
      ensures rto == if old(s.onRto) >= 0 then old(rto) else Joined(old(rto), SlotAt(nowTs, s.tsRto), s)
    {
      hide NoDup, Tidy, Sum;
      if rtoCount == 0 {
        nowIdx, nowTs := 0, s.tsRto;
      }
      if s.onRto < 0 {
        var offset := if Signed(Wrap(s.tsRto - nowTs)) < RTO_HASH then s.tsRto % RTO_HASH else RTO_HASH;
        TidySnoc(rto[offset], |rto[offset]|, streams, s);
        SumUpdate(rto, offset, rto[offset] + [s]);
        s.onRto := offset;
        rto := rto[offset := rto[offset] + [s]];
        rtoCount := rtoCount + 1;
      }
    }

    method RemoveFromRto(s: Stream)
      requires RtoOk() && s in streams
      modifies s`onRto, `rto, `rtoCount
      ensures RtoOk() && s.onRto == -1 && rtoCount == old(rtoCount) - if old(s.onRto) >= 0 then 1 else 0
      ensures rto == Off(old(rto), s)
      ensures old(Exclusive()) ==> Exclusive()
    {
      hide NoDup, Tidy, Sum, Drop;
      OffWheel(s);
      if s.onRto < 0 {
        return;
      }
      var idx := s.onRto;
      TidyDrop(rto[idx], |rto[idx]|, streams, s);
      SumUpdate(rto, idx, Drop(rto[idx], s));
      DropSize(rto[idx], |rto[idx]|, streams, s);
      rto := rto[idx := Drop(rto[idx], s)];
      s.onRto := -1;
      rtoCount := rtoCount - 1;
    }

    /** The stream is in one slot of the wheel at most. */
    lemma OffWheel(s: Stream)
      requires RtoOk() && s in streams
      ensures Off(rto, s) == if s.onRto < 0 then rto else rto[s.onRto := Drop(rto[s.onRto], s)]
    {
      hide NoDup, Tidy, Sum, Drop;
      forall i | 0 <= i < |rto| && i != s.onRto ensures Drop(rto[i], s) == rto[i] { Absent(rto[i], s); }
    }

    /** The order by deadline, leaving out `s`. */
    ghost predicate ByDeadline(q: seq<Stream>, s: Stream?)
      reads q`expiresAt
    {
      forall i, j :: 0 <= i < j < |q| && q[i] != s && q[j] != s ==> q[i].expiresAt <= q[j].expiresAt
    }

    ghost predicate ByActivity(q: seq<Stream>, s: Stream?)
      reads q`activeAt
    {
      forall i, j :: 0 <= i < j < |q| && q[i] != s && q[j] != s ==> q[i].activeAt <= q[j].activeAt
    }

    lemma DropDeadline(q: seq<Stream>, s: Stream)
      requires NoDup(q) && (ByDeadline(q, null) || ByDeadline(q, s))
      ensures ByDeadline(Drop(q, s), null)
    {
      hide Drop;
      var d := Drop(q, s);
      if s in q {
        var k := DropAt(q, s);
        forall i, j | 0 <= i < j < |d| ensures d[i].expiresAt <= d[j].expiresAt {
          var a, b := if i < k then i else i + 1, if j < k then j else j + 1;
          assert d[i] == q[a] && d[j] == q[b] && q[a] != q[k] && q[b] != q[k];
        }
      } else {
        Absent(q, s);
      }
    }

    lemma DropActivity(q: seq<Stream>, s: Stream)
      requires NoDup(q) && (ByActivity(q, null) || ByActivity(q, s))
      ensures ByActivity(Drop(q, s), null)
    {
      hide Drop;
      var d := Drop(q, s);
      if s in q {
        var k := DropAt(q, s);
        forall i, j | 0 <= i < j < |d| ensures d[i].activeAt <= d[j].activeAt {
          var a, b := if i < k then i else i + 1, if j < k then j else j + 1;
          assert d[i] == q[a] && d[j] == q[b] && q[a] != q[k] && q[b] != q[k];
        }
      } else {
        Absent(q, s);
      }
    }

    lemma SnocOrdered(q: seq<Stream>, s: Stream)
      ensures ByDeadline(q, null) && (forall t :: t in q ==> t.expiresAt <= s.expiresAt) ==> ByDeadline(q + [s], null)
      ensures ByActivity(q, null) && (forall t :: t in q ==> t.activeAt <= s.activeAt) ==> ByActivity(q + [s], null)
    {
    }

    method RemoveFromTimewait(s: Stream)
      requires TimewaitOk() && TimewaitSorted() && s in streams
      modifies s`onTimewait, `timewait, `timewaitCount
      ensures TimewaitOk() && TimewaitSorted() && !s.onTimewait && timewait == Drop(old(timewait), s)
    {
      hide NoDup, Tidy, Drop, Manager.ByDeadline;
      TidyNoDup(timewait, timewaitCount, streams);
      DropDeadline(timewait, s);
      if s.onTimewait {
        TidyDrop(timewait, timewaitCount, streams, s);
        s.onTimewait, timewait, timewaitCount := false, Drop(timewait, s), timewaitCount - 1;
      } else {
        Absent(timewait, s);
      }
    }

    method RemoveFromTimeout(s: Stream)
      requires TimeoutOk() && TimeoutSorted() && s in streams
      modifies s`onTimeout, `timeout, `timeoutCount
      ensures TimeoutOk() && TimeoutSorted() && !s.onTimeout && timeout == Drop(old(timeout), s)
    {
      hide NoDup, Tidy, Drop, Manager.ByActivity;
      TidyNoDup(timeout, timeoutCount, streams);
      DropActivity(timeout, s);
      if s.onTimeout {
        TidyDrop(timeout, timeoutCount, streams, s);
        s.onTimeout, timeout, timeoutCount := false, Drop(timeout, s), timeoutCount - 1;
      } else {
        Absent(timeout, s);
      }
    }

    /** Off the list and back on at its end. */
    lemma ToTail(q: seq<Stream>, count: int, s: Stream)
      requires Tidy(q, count, streams) && s in q
      ensures Tidy(Drop(q, s) + [s], count, streams) && (forall t :: t in Drop(q, s) + [s] <==> t in q)
      ensures forall t :: t in Drop(q, s) ==> t in q && t != s
    {
      TidyDrop(q, count, streams, s);
      TidySnoc(Drop(q, s), count - 1, streams, s);
    }

    /** `q` in order but for `s`, which is now the latest: moving `s` to the end puts it in order. */
    lemma TailDeadline(q: seq<Stream>, count: int, s: Stream)
      requires Tidy(q, count, streams) && ByDeadline(q, s) && forall t :: t in q ==> t.expiresAt <= s.expiresAt
      ensures ByDeadline(Drop(q, s) + [s], null) && forall t :: t in Drop(q, s) + [s] ==> t in q || t == s
    {
      hide Drop;
      DropDeadline(q, s);
      if s in q { ToTail(q, count, s); } else { Absent(q, s); }
      SnocOrdered(Drop(q, s), s);
    }

    /** `q` in order but for `s`, which is now the latest: moving `s` to the end puts it in order. */
    lemma TailActivity(q: seq<Stream>, count: int, s: Stream)
      requires Tidy(q, count, streams) && ByActivity(q, s) && forall t :: t in q ==> t.activeAt <= s.activeAt
      ensures ByActivity(Drop(q, s) + [s], null) && forall t :: t in Drop(q, s) + [s] ==> t in q || t == s
    {
      hide Drop;
      DropActivity(q, s);
      if s in q { ToTail(q, count, s); } else { Absent(q, s); }
      SnocOrdered(Drop(q, s), s);
    }

    /** Time passes. */
    method Advance(at: int)
      requires TimewaitSorted() && TimeoutSorted() && now <= at
      modifies `now
      ensures TimewaitSorted() && TimeoutSorted() && now == at
    {
      now := at;
    }

    /** A new deadline, which is the latest. */
    method SetDeadline(s: Stream, curTs: u32)
      requires TimewaitOk() && TimewaitSorted() && s in streams && curTs == Wrap(now)
      modifies s`expires, s`expiresAt
      ensures s.expires == Wrap(s.expiresAt) && s.expiresAt == now + TIMEWAIT && ByDeadline(timewait, s)
      ensures forall t :: t in timewait ==> t.expires == Wrap(t.expiresAt) && t.expiresAt <= s.expiresAt
    {
      hide NoDup, Tidy;
      s.expires, s.expiresAt := Wrap(curTs + TIMEWAIT), now + TIMEWAIT;
    }

    method MoveTimewait(s: Stream, curTs: u32)
      requires TimewaitOk() && TimewaitSorted() && s in streams && curTs == Wrap(now)
      modifies s`expires, s`expiresAt, s`onTimewait, `timewait, `timewaitCount
      ensures TimewaitOk() && TimewaitSorted() && s.onTimewait && s.expiresAt == now + TIMEWAIT
      ensures timewait == Drop(old(timewait), s) + [s]
    {
      hide NoDup, Tidy, Drop, Manager.ByDeadline;
      SetDeadline(s, curTs);
      TailDeadline(timewait, timewaitCount, s);
      if s.onTimewait {
        ToTail(timewait, timewaitCount, s);
        timewait := Drop(timewait, s) + [s];
      } else {
        Absent(timewait, s);
        TidySnoc(timewait, timewaitCount, streams, s);
        s.onTimewait, timewait, timewaitCount := true, timewait + [s], timewaitCount + 1;
      }
    }

    /** AddtoTimewaitList: a first or a fresh deadline, at the end of the list and off the retransmission lists. */
    method AddToTimewait(s: Stream, curTs: u32, at: int)
      requires Valid() && s in streams && now <= at && curTs == Wrap(at)
      modifies s`expires, s`expiresAt, s`onTimewait, s`onRto, `timewait, `timewaitCount, `rto, `rtoCount, `now
      ensures Valid() && now == at && s.onTimewait && s.expiresAt == at
      ensures old(Exclusive()) ==> Exclusive()
      ensures timewait == Drop(old(timewait), s) + [s] && rto == if old(s.onTimewait) then old(rto)
                else Off(old(rto), s)
    {
      hide Manager.ControlOk, Manager.SendOk, Manager.AckOk, Manager.RtoOk, Manager.TimewaitOk, Manager.TimeoutOk,
        Manager.TimewaitSorted, Manager.TimeoutSorted, Drop, Off;
      Advance(at);
      OffWheel(s);
      if !s.onTimewait && s.onRto >= 0 {
        RemoveFromRto(s);
      }
      MoveTimewait(s, curTs);
    }

    method SetActivity(s: Stream, curTs: u32)
      requires TimeoutOk() && TimeoutSorted() && s in streams && curTs == Wrap(now)
      modifies s`active, s`activeAt
      ensures s.active == curTs && s.activeAt == now && ByActivity(timeout, s)
      ensures forall t :: t in timeout ==> t.active == Wrap(t.activeAt) && t.activeAt <= now
    {
      hide NoDup, Tidy;
      s.active, s.activeAt := curTs, now;
    }

    method MoveTimeout(s: Stream, curTs: u32)
      requires TimeoutOk() && TimeoutSorted() && s in streams && curTs == Wrap(now)
      modifies s`active, s`activeAt, `timeout
      ensures TimeoutOk() && TimeoutSorted() && s.active == curTs && s.activeAt == now
      ensures timeout == if s.onTimeout then Drop(old(timeout), s) + [s] else old(timeout)
    {
      hide NoDup, Tidy, Drop, Manager.ByActivity;
      SetActivity(s, curTs);
      TailActivity(timeout, timeoutCount, s);
      TidyNoDup(timeout, timeoutCount, streams);
      if s.onTimeout {
        ToTail(timeout, timeoutCount, s);
        timeout := Drop(timeout, s) + [s];
      } else {
        Absent(timeout, s);
        DropActivity(timeout, s);
      }
    }

    /** Any packet sent or received: the stream is now the most recently active one (src/nty_tcp.c:563-566,
        1640-1641). */
    method Touch(s: Stream, curTs: u32, at: int)
      requires Valid() && s in streams && now <= at && curTs == Wrap(at)
      modifies s`active, s`activeAt, `timeout, `now
      ensures Valid() && now == at && s.active == curTs && s.activeAt == at
      ensures timeout == if s.onTimeout then Drop(old(timeout), s) + [s] else old(timeout)
    {
      hide Manager.ControlOk, Manager.SendOk, Manager.AckOk, Manager.RtoOk, Manager.TimewaitOk, Manager.TimeoutOk,
        Manager.TimewaitSorted, Manager.TimeoutSorted, Drop;
      Advance(at);
      MoveTimeout(s, curTs);
    }

    /** AddtoTimeoutList, for a stream that has just been active. */
    method AddToTimeout(s: Stream)
      requires Valid() && s in streams && !s.onTimeout && s.activeAt == now && s.active == Wrap(now)
      modifies s`onTimeout, `timeout, `timeoutCount
      ensures Valid() && s.onTimeout && timeout == old(timeout) + [s]
    {
      hide NoDup, Tidy, Manager.ControlOk, Manager.SendOk, Manager.AckOk, Manager.RtoOk, Manager.TimewaitOk,
        Manager.TimewaitSorted, Manager.ByActivity;
      TidySnoc(timeout, timeoutCount, streams, s);
      SnocOrdered(timeout, s);
      s.onTimeout, timeout, timeoutCount := true, timeout + [s], timeoutCount + 1;
    }

    // ---------------------------------------------------------------- streams come and go

    method CreateStream() returns (s: Stream)
      requires Valid()
      modifies `streams
      ensures Valid() && fresh(s) && streams == old(streams) + {s} && !Listed(s) && s !in old(streams)
      ensures old(Exclusive()) ==> Exclusive()
    {
      hide Manager.ControlOk, Manager.SendOk, Manager.AckOk, Manager.RtoOk, Manager.TimewaitOk, Manager.TimeoutOk,
        Manager.TimewaitSorted, Manager.TimeoutSorted;
      s := new Stream();
      Unknown(s);
      Enrol(s);
    }

    method Enrol(s: Stream)
      requires Valid() && s !in streams
      requires !s.onControl && !s.onSend && !s.onAck && s.onRto == -1 && !s.onTimewait && !s.onTimeout
      modifies `streams
      ensures Valid() && streams == old(streams) + {s}
      ensures old(Exclusive()) ==> Exclusive()
    {
      hide NoDup, Sum;
      streams := streams + {s};
    }

    /** The stream is on some list. */
    ghost predicate Listed(s: Stream)
      reads this
    {
      || s in control || s in send || s in ack || s in timewait || s in timeout
      || exists i :: 0 <= i < |rto| && s in rto[i]
    }

    lemma Unknown(s: Stream)
      requires Valid() && s !in streams
      ensures !Listed(s)
    {
    }

    /** The stream leaves the flow table. */
    method Forget(s: Stream)
      requires Valid() && s in streams
      requires !s.onControl && !s.onSend && !s.onAck && s.onRto < 0 && !s.onTimewait && !s.onTimeout
      modifies `streams
      ensures Valid() && streams == old(streams) - {s} && !Listed(s)
      ensures old(Exclusive()) ==> Exclusive()
    {
      hide NoDup, Sum;
      streams := streams - {s};
    }

    method LeaveSender(s: Stream)
      requires Valid() && s in streams
      modifies s`onControl, s`onSend, s`onAck, `control, `controlCount, `send, `sendCount, `ack, `ackCount
      ensures Valid() && !s.onControl && !s.onSend && !s.onAck
      ensures control == Drop(old(control), s) && send == Drop(old(send), s) && ack == Drop(old(ack), s)
    {
      hide Manager.ControlOk, Manager.SendOk, Manager.AckOk, Manager.RtoOk, Manager.TimewaitOk, Manager.TimeoutOk,
        Manager.TimewaitSorted, Manager.TimeoutSorted, Drop;
      RemoveFromControl(s);
      RemoveFromSend(s);
      RemoveFromAck(s);
    }

    method LeaveTimers(s: Stream)
      requires Valid() && s in streams
      modifies s`onRto, s`onTimewait, s`onTimeout, `rto, `rtoCount, `timewait, `timewaitCount, `timeout, `timeoutCount
      ensures Valid() && s.onRto < 0 && !s.onTimewait && !s.onTimeout
      ensures timewait == Drop(old(timewait), s) && timeout == Drop(old(timeout), s) && rto == Off(old(rto), s)
      ensures old(Exclusive()) ==> Exclusive()
    {
      hide Manager.ControlOk, Manager.SendOk, Manager.AckOk, Manager.RtoOk, Manager.TimewaitOk, Manager.TimeoutOk,
        Manager.TimewaitSorted, Manager.TimeoutSorted, Drop, Off;
      OffWheel(s);
      if s.onRto >= 0 {
        RemoveFromRto(s);
      }
      if s.onTimewait {
        RemoveFromTimewait(s);
      } else {
        NotWaiting(s);
      }
      RemoveFromTimeout(s);
    }

    lemma NotWaiting(s: Stream)
      requires TimewaitOk() && s in streams && !s.onTimewait
      ensures Drop(timewait, s) == timewait
    {
      Absent(timewait, s);
    }

    /** DestroyTcpStream: the stream is on no list afterwards. */
    method Destroy(s: Stream)
      requires Valid() && s in streams
      modifies this, s`onControl, s`onSend, s`onAck, s`onRto, s`onTimewait, s`onTimeout
      ensures Valid() && streams == old(streams) - {s} && !Listed(s) && !s.onTimewait && now == old(now)
      ensures control == Drop(old(control), s) && send == Drop(old(send), s) && ack == Drop(old(ack), s)
      ensures timewait == Drop(old(timewait), s) && timeout == Drop(old(timeout), s)
      ensures rto == Off(old(rto), s) && nowTs == old(nowTs)
      ensures old(Exclusive()) ==> Exclusive()
    {
      hide Manager.ControlOk, Manager.SendOk, Manager.AckOk, Manager.RtoOk, Manager.TimewaitOk, Manager.TimeoutOk,
        Manager.TimewaitSorted, Manager.TimeoutSorted, Drop, Manager.Listed, Manager.Valid, Off;
      LeaveSender(s);
      LeaveTimers(s);
      Forget(s);
    }

    // ---------------------------------------------------------------- the write loops

    /** What sending does to the lists: activity, the retransmission timer, and the end of the stream after a reset.  In
        TIME_WAIT only acknowledgments are sent. */
    method Emit(s: Stream, o: Sending, curTs: u32)
      requires Valid() && s in streams && curTs == Wrap(now) && !s.onControl && (o.Armed? ==> !s.onTimewait)
      modifies this, s`active, s`activeAt, s`tsRto, s`onControl, s`onSend, s`onAck, s`onRto, s`onTimewait, s`onTimeout
      ensures Valid() && now == old(now) && control == old(control)
      ensures streams == if o.Reset? then old(streams) - {s} else old(streams)
      ensures !o.Reset? ==> !s.onControl && send == old(send) && ack == old(ack) && timewait == old(timewait)
      ensures (o.Armed? ==> s.onRto >= 0) && Seen() == Emitted(old(Seen()), s, o)
      ensures o == Failed ==> Seen() == old(Seen())
      ensures s.onTimewait ==> old(s.onTimewait)
      ensures old(Exclusive()) ==> Exclusive()
    {
      hide Manager.ControlOk, Manager.SendOk, Manager.AckOk, Manager.RtoOk, Manager.TimewaitOk, Manager.TimeoutOk,
        Manager.TimewaitSorted, Manager.TimeoutSorted, Drop, Off, Manager.ArmedView;
      OffControl(s);
      WheelIs(s);
      match o
      case Failed =>
      case Acked => Touch(s, curTs, now);
      case Armed(ts) => Arm(s, ts, curTs);
      case Reset => Destroy(s);
    }

    /** The timer of a segment that has to be acknowledged (src/nty_tcp.c:594-610).  Nothing in the code looks whether
        the stream is in TIME_WAIT. */
    method Arm(s: Stream, ts: u32, curTs: u32)
      requires Valid() && s in streams && curTs == Wrap(now) && !s.onTimewait
      modifies s`active, s`activeAt, s`tsRto, s`onRto, `timeout, `now, `rto, `rtoCount, `nowIdx, `nowTs
      ensures Valid() && now == old(now) && s.tsRto == ts && s.onRto >= 0
      ensures Seen() == ArmedView(old(Seen()), s, ts)
      ensures old(Exclusive()) ==> Exclusive()
    {
      hide Manager.ControlOk, Manager.SendOk, Manager.AckOk, Manager.RtoOk, Manager.TimewaitOk, Manager.TimeoutOk,
        Manager.TimewaitSorted, Manager.TimeoutSorted, Drop, Joined, Sum, Manager.OnWheel;
      WheelIs(s);
      Touch(s, curTs, now);
      s.tsRto := ts;
      AddToRto(s);
    }

    lemma OffControl(s: Stream)
      requires ControlOk() && s in streams && !s.onControl
      ensures Drop(control, s) == control
    {
      Absent(control, s);
    }

    method TakeControl(cur: Stream)
      requires ControlOk() && control != [] && cur == control[0]
      modifies cur`onControl, `control, `controlCount
      ensures ControlOk() && control == old(control)[1..] && !cur.onControl && cur in streams
    {
      hide NoDup, Tidy;
      TidyHead(control, controlCount, streams);
      InStreams(control, controlCount, cur);
      control, controlCount := control[1..], controlCount - 1;
      cur.onControl := false;
    }

    lemma InStreams(q: seq<Stream>, count: int, s: Stream)
      requires Tidy(q, count, streams) && s in q
      ensures s in streams
    {
    }

    method PutBackControl(cur: Stream)
      requires ControlOk() && cur in streams && !cur.onControl
      modifies cur`onControl, `control, `controlCount
      ensures ControlOk() && control == [cur] + old(control) && cur.onControl
    {
      hide NoDup, Tidy;
      TidyCons(control, controlCount, streams, cur);
      control, controlCount := [cur] + control, controlCount + 1;
      cur.onControl := true;
    }

    /** No stream of the list that is in TIME_WAIT is to be armed: the lists of the two timers share a link. */
    predicate ArmsNoWaiting(q: seq<Stream>, outcome: nat -> Sending)
      reads q`onTimewait
    {
      forall i :: 0 <= i < |q| && outcome(i).Armed? ==> !q[i].onTimewait
    }

    /** nty_tcp_write_controllist: the first `k` streams get their packet and leave, in order; a stream whose packet
        does not go out keeps its place at the head. */
    method WriteControl(curTs: u32, thresh: int, outcome: nat -> Sending) returns (ghost k: nat)
      requires Valid() && curTs == Wrap(now) && ArmsNoWaiting(control, outcome)
      modifies this, streams`active, streams`activeAt, streams`tsRto, streams`onControl, streams`onSend,
        streams`onAck, streams`onRto, streams`onTimewait, streams`onTimeout
      ensures Valid() && k <= |old(control)| && control == old(control)[k..] && (k > 0 ==> k <= thresh)
      ensures k < |old(control)| && k < thresh ==> outcome(k) == Failed
      ensures forall i :: 0 <= i < k ==> outcome(i) != Failed
      ensures streams == old(streams) - Resets(old(control)[..k], outcome)
      ensures streams <= old(streams) && now == old(now) && Seen() == Round(old(Seen()), k, outcome)
      ensures forall i :: 0 <= i < k && outcome(i).Armed? ==> old(control)[i].onRto >= 0
      ensures (forall i :: 0 <= i < k ==> outcome(i) != Reset) ==>
                send == old(send) && ack == old(ack) && timewait == old(timewait)
      ensures old(Exclusive()) ==> Exclusive()
    {
      hide Manager.ControlOk, Manager.SendOk, Manager.AckOk, Manager.RtoOk, Manager.TimewaitOk, Manager.TimeoutOk,
        Manager.TimewaitSorted, Manager.TimeoutSorted, Manager.Valid, Manager.Exclusive, Wrap, Tidy, Drop,
        Manager.Seen, Manager.Round, Manager.HeadServed, Manager.Resets;
      k := 0;
      var cnt := 0;
      ghost var q := control;
      Controls();
      RoundOn(Seen(), 0, outcome);
      ResetsOn(q, 0, outcome);
      while control != []
        invariant Valid() && k == cnt <= |q| && control == q[k..] && (k > 0 ==> k <= thresh)
        invariant now == old(now) && streams <= old(streams) && (old(Exclusive()) ==> Exclusive())
        invariant forall i :: 0 <= i < k ==> outcome(i) != Failed
        invariant Seen() == Round(old(Seen()), k, outcome)
        invariant forall i :: 0 <= i < k && outcome(i).Armed? ==> q[i].onRto >= 0
        invariant (forall i :: 0 <= i < k ==> outcome(i) != Reset) ==>
                    send == old(send) && ack == old(ack) && timewait == old(timewait)
        invariant ArmsNoWaiting(q, outcome)
        invariant streams == old(streams) - Resets(q[..k], outcome)
        decreases |control|
      {
        if cnt + 1 > thresh {
          break;
        }
        HeadControl();
        RoundOn(old(Seen()), k, outcome);
        ResetsOn(q, k, outcome);
        var went := WriteControlHead(control[0], outcome(cnt), curTs);
        if !went {
          break;
        }
        cnt := cnt + 1;
        k := k + 1;
      }
    }

    lemma ResetsOn(q: seq<Stream>, k: nat, outcome: nat -> Sending)
      ensures Resets(q[..0], outcome) == {}
      ensures k < |q| ==>
                Resets(q[..k + 1], outcome) == Resets(q[..k], outcome) + if outcome(k) == Reset then {q[k]} else {}
    {
      if k < |q| {
        var a, b := q[..k], q[..k + 1];
        assert b == a + [q[k]];
        forall s ensures s in Resets(b, outcome) <==> s in Resets(a, outcome) || (outcome(k) == Reset && s == q[k]) {
          if s in Resets(a, outcome) {
            var i :| 0 <= i < |a| && outcome(i) == Reset && a[i] == s;
            assert b[i] == s;
          }
          if outcome(k) == Reset && s == q[k] { assert b[k] == s; }
        }
      }
    }

    lemma RoundOn(v: View, k: nat, outcome: nat -> Sending)
      ensures Round(v, 0, outcome) == v
      ensures var w := Round(v, k, outcome);
              w.control != [] ==> Round(v, k + 1, outcome) == HeadServed(w, outcome(k))
    {
      hide Manager.HeadServed;
    }

    lemma Controls()
      requires Valid()
      ensures NoDup(control)
    {
    }

    lemma HeadControl()
      requires Valid() && control != []
      ensures control[0] in streams && Seen().control == control
    {
    }

    method WriteControlHead(cur: Stream, o: Sending, curTs: u32) returns (went: bool)
      requires Valid() && control != [] && cur == control[0] && curTs == Wrap(now) && (o.Armed? ==> !cur.onTimewait)
      modifies this, cur`active, cur`activeAt, cur`tsRto, cur`onControl, cur`onSend, cur`onAck, cur`onRto,
        cur`onTimewait, cur`onTimeout
      ensures Valid() && now == old(now) && (old(Exclusive()) ==> Exclusive())
      ensures streams == if o.Reset? then old(streams) - {cur} else old(streams)
      ensures went == (o != Failed) && control == if went then old(control)[1..] else old(control)
      ensures !o.Reset? ==> send == old(send) && ack == old(ack) && timewait == old(timewait)
      ensures (o.Armed? ==> cur.onRto >= 0) && Seen() == HeadServed(old(Seen()), o)
      ensures o == Failed ==> Seen() == old(Seen())
      ensures cur.onTimewait ==> old(cur.onTimewait)
    {
      hide Manager.ControlOk, Manager.SendOk, Manager.AckOk, Manager.RtoOk, Manager.TimewaitOk, Manager.TimeoutOk,
        Manager.TimewaitSorted, Manager.TimeoutSorted, Manager.Emitted;
      TakeControl(cur);
      Emit(cur, o, curTs);
      went := o != Failed;
      if !went {
        PutBackControl(cur);
        assert control == old(control);
      }
    }

    /** nty_tcp_flush_sendbuffer as far as the lists are concerned. */
    method FlushStream(s: Stream, f: Flush, curTs: u32)
      requires Valid() && s in streams && curTs == Wrap(now) && (f.sent > 0 ==> !s.onTimewait)
      modifies s`active, s`activeAt, s`tsRto, s`onRto, `timeout, `now, `rto, `rtoCount, `nowIdx, `nowTs
      ensures Valid() && now == old(now) && (f.sent > 0 ==> s.onRto >= 0)
      ensures old(Exclusive()) ==> Exclusive()
    {
      hide Manager.Valid, Manager.Exclusive, Manager.Seen, Manager.ArmedView;
      if f.sent > 0 {
        Arm(s, f.tsRto, curTs);
      }
    }

    /** The stream's turn in the data loop: what its flush comes to, and whether it is done. */
    ghost function Flushed(s: Stream, f: Flush): Flush
      reads s`flushing, s`onControl
    {
      if s.flushing == Never then Flush(0, false, 0)
      else if s.flushing == ControlFirst && s.onControl then Flush(0, true, 0)
      else f
    }

    /** The head of the send list leaves it, or goes to the end if the flush failed. */
    method WriteDataHead(cur: Stream, f: Flush, curTs: u32) returns (failed: bool)
      requires Valid() && send != [] && cur == send[0] && cur in streams && curTs == Wrap(now)
      requires cur.flushing != Never && f.sent > 0 ==> !cur.onTimewait
      modifies this, cur`active, cur`activeAt, cur`tsRto, cur`waiting, cur`ackCount, cur`onControl, cur`onSend,
        cur`onRto
      ensures Valid() && now == old(now) && streams == old(streams) && (old(Exclusive()) ==> Exclusive())
      ensures failed == old(Flushed(cur, f)).failed && (failed ==> f.failed || cur.onControl)
      ensures send == if failed then old(send)[1..] + [cur] else old(send)[1..]
      ensures ack == old(ack) && timewait == old(timewait)
      ensures old(Flushed(cur, f)).sent > 0 ==> cur.onRto >= 0
      ensures cur.ackCount == if failed then old(cur.ackCount)
                else Max(old(cur.ackCount) - old(Flushed(cur, f)).sent, 0)
    {
      hide Manager.ControlOk, Manager.SendOk, Manager.AckOk, Manager.RtoOk, Manager.TimewaitOk, Manager.TimeoutOk,
        Manager.TimewaitSorted, Manager.TimeoutSorted;
      var flush := f;
      if cur.flushing == Never {
        flush := Flush(0, false, 0);
      } else if cur.flushing == ControlFirst && cur.onControl {
        flush := Flush(0, true, 0);
      }
      failed := flush.failed;
      FlushStream(cur, flush, curTs);
      if failed {
        Rotate(cur);
      } else {
        Release(cur, flush.sent);
      }
    }

    /** The control list, if the stream joins it. */
    ghost function Promoted(q: seq<Stream>, joins: bool, s: Stream): seq<Stream> { if joins then q + [s] else q }

    /** The flushed stream leaves the list, and a control packet that was waiting for this may go. */
    method Release(cur: Stream, ret: nat)
      requires Valid() && send != [] && cur == send[0] && cur in streams
      modifies cur`waiting, cur`ackCount, cur`onSend, cur`onControl, `send, `sendCount, `control, `controlCount
      ensures Valid() && send == old(send)[1..]
      ensures cur.ackCount == Max(old(cur.ackCount) - ret, 0)
      ensures cur.waiting == (old(cur.waiting) && cur.onAck)
      ensures control == Promoted(old(control), old(cur.waiting) && !cur.onAck && !old(cur.onControl), cur)
    {
      hide Manager.ControlOk, Manager.SendOk, Manager.AckOk, Manager.RtoOk, Manager.TimewaitOk, Manager.TimeoutOk,
        Manager.TimewaitSorted, Manager.TimeoutSorted;
      TakeSend(cur);
      cur.ackCount := if cur.ackCount > ret then cur.ackCount - ret else 0;
      if cur.waiting && !cur.onAck {
        cur.waiting := false;
        AddToControl(cur);
      }
    }

    method Rotate(cur: Stream)
      requires SendOk() && send != [] && cur == send[0]
      modifies `send
      ensures SendOk() && send == old(send)[1..] + [cur]
    {
      hide NoDup, Tidy;
      TidyHead(send, sendCount, streams);
      InStreams(send, sendCount, cur);
      TidySnoc(send[1..], sendCount - 1, streams, cur);
      send := send[1..] + [cur];
    }

    method TakeSend(cur: Stream)
      requires SendOk() && send != [] && cur == send[0]
      modifies cur`onSend, `send, `sendCount
      ensures SendOk() && send == old(send)[1..] && !cur.onSend
    {
      hide NoDup, Tidy;
      TidyHead(send, sendCount, streams);
      send, sendCount := send[1..], sendCount - 1;
      cur.onSend := false;
    }

    /** No stream of the list that is in TIME_WAIT has segments to flush. */
    predicate FlushesNoWaiting(q: seq<Stream>, flushes: nat -> Flush)
      reads q`onTimewait, q`flushing
    {
      forall i :: 0 <= i < |q| && q[i].flushing != Never && flushes(i).sent > 0 ==> !q[i].onTimewait
    }

    /** The stream's flush succeeded: its segments stand for acks, and the timer runs if there were any. */
    twostate predicate Sent(s: Stream, f: Flush)
      reads s`ackCount, s`onRto
    {
      var flush := old(Flushed(s, f));
      !flush.failed && s.ackCount == Max(old(s.ackCount) - flush.sent, 0) && (flush.sent > 0 ==> s.onRto >= 0)
    }

    /** nty_tcp_write_datalist: the first `k` streams are flushed and leave; one whose flush fails goes to the end, and
        the loop stops there. */
    method WriteData(curTs: u32, thresh: int, flushes: nat -> Flush) returns (ghost k: nat, failed: bool)
      requires Valid() && curTs == Wrap(now)
      requires FlushesNoWaiting(send, flushes)
      modifies this, streams`active, streams`activeAt, streams`tsRto, streams`waiting, streams`ackCount,
        streams`onControl, streams`onSend, streams`onRto
      ensures Valid() && k <= |old(send)| && (k > 0 ==> k <= thresh)
      ensures failed ==> k < |old(send)| && (flushes(k).failed || old(send)[k].onControl)
      ensures forall i :: 0 <= i < k ==> Sent(old(send)[i], flushes(i))
      ensures failed ==> old(Flushed(send[k], flushes(k))).failed
      ensures send == if failed then old(send)[k + 1..] + [old(send)[k]] else old(send)[k..]
      ensures !failed && k < |old(send)| ==> k >= thresh
      ensures streams == old(streams) && ack == old(ack) && timewait == old(timewait) && now == old(now)
      ensures old(Exclusive()) ==> Exclusive()
    {
      hide Manager.ControlOk, Manager.SendOk, Manager.AckOk, Manager.RtoOk, Manager.TimewaitOk, Manager.TimeoutOk,
        Manager.TimewaitSorted, Manager.TimeoutSorted, Manager.Valid, Manager.Exclusive, Wrap, Tidy, Drop,
        Manager.Promoted;
      k, failed := 0, false;
      var cnt := 0;
      ghost var q := send;
      Sending();
      while send != []
        invariant Valid() && k == cnt <= |q| && send == q[k..] && (k > 0 ==> k <= thresh) && !failed
        invariant now == old(now) && streams == old(streams) && (old(Exclusive()) ==> Exclusive())
        invariant ack == old(ack) && timewait == old(timewait)
        invariant forall i :: 0 <= i < k ==> Sent(q[i], flushes(i))
        invariant forall i :: k <= i < |q| ==> q[i].onControl == old(q[i].onControl)
        invariant forall i :: k <= i < |q| ==> q[i].ackCount == old(q[i].ackCount)
        decreases |send|
      {
        if cnt + 1 > thresh {
          break;
        }
        HeadSend();
        assert send[0] == q[k];
        failed := WriteDataHead(send[0], flushes(cnt), curTs);
        if failed {
          break;
        }
        cnt := cnt + 1;
        k := k + 1;
      }
    }

    lemma Sending()
      requires Valid()
      ensures NoDup(send)
    {
    }

    lemma HeadSend()
      requires Valid() && send != []
      ensures send[0] in streams
    {
    }

    /** One stream's turn in the ack loop: it stays on the list only while it still has something to acknowledge. */
    method WriteAckOne(cur: Stream, turn: AckTurn, curTs: u32, ghost k: nat)
      requires Valid() && k < |ack| && cur == ack[k] && cur in streams && curTs == Wrap(now)
      modifies cur`active, cur`activeAt, cur`waiting, cur`ackCount, cur`windowAck, cur`onAck, cur`onControl,
        `now, `timeout, `ack, `ackCount, `control, `controlCount
      ensures Valid() && now == old(now)
      ensures Served(cur, turn) && cur.waiting == (old(cur.waiting) && cur.onSend)
      ensures control == Promoted(old(control), old(cur.waiting) && !cur.onSend && !old(cur.onControl), cur)
      ensures timeout == if old(Acknowledges(cur, turn)) then Touched(old(Seen()), cur).timeout else old(timeout)
      ensures ack == if cur.onAck then old(ack) else old(ack)[..k] + old(ack)[k + 1..]
    {
      hide Manager.ControlOk, Manager.SendOk, Manager.AckOk, Manager.RtoOk, Manager.TimewaitOk, Manager.TimeoutOk,
        Manager.TimewaitSorted, Manager.TimeoutSorted;
      AckAt(k);
      SendAcks(cur, turn, curTs);
      if cur.ackCount == 0 && !cur.windowAck {
        RemoveFromAck(cur);
      }
      AfterAck(cur);
    }

    /** The same, as far as the loop is concerned. */
    method AckTurnOf(cur: Stream, turn: AckTurn, curTs: u32, ghost k: nat)
      requires Valid() && k < |ack| && cur == ack[k] && cur in streams && curTs == Wrap(now)
      modifies cur`active, cur`activeAt, cur`waiting, cur`ackCount, cur`windowAck, cur`onAck, cur`onControl,
        `now, `timeout, `ack, `ackCount, `control, `controlCount
      ensures Valid() && now == old(now) && Served(cur, turn)
      ensures ack == if cur.onAck then old(ack) else old(ack)[..k] + old(ack)[k + 1..]
    {
      hide Manager.Valid, Manager.Served, Manager.Promoted, Manager.Touched, Manager.Seen;
      WriteAckOne(cur, turn, curTs, k);
    }

    /** At least one acknowledgment goes out. */
    predicate Acknowledges(cur: Stream, turn: AckTurn)
      reads cur`ackCount, cur`windowAck
    {
      turn.due && ((0 < turn.acks && 0 < cur.ackCount) || (cur.windowAck && turn.window))
    }

    /** Acknowledgments go out until one fails, and the window advertisement; or all are dropped if none is due. */
    method SendAcks(cur: Stream, turn: AckTurn, curTs: u32)
      requires Valid() && cur in streams && curTs == Wrap(now)
      modifies cur`active, cur`activeAt, cur`ackCount, cur`windowAck, `now, `timeout
      ensures Valid() && now == old(now)
      ensures turn.due ==> cur.ackCount == old(cur.ackCount) - Min(turn.acks, old(cur.ackCount))
      ensures turn.due ==> cur.windowAck == (old(cur.windowAck) && !turn.window)
      ensures !turn.due ==> cur.ackCount == 0 && !cur.windowAck
      ensures timeout == if old(Acknowledges(cur, turn)) then Touched(old(Seen()), cur).timeout else old(timeout)
    {
      hide Manager.ControlOk, Manager.SendOk, Manager.AckOk, Manager.RtoOk, Manager.TimewaitOk, Manager.TimeoutOk,
        Manager.TimewaitSorted, Manager.TimeoutSorted, Drop;
      WheelIs(cur);
      if turn.due {
        var sent := Min(turn.acks, cur.ackCount);
        if sent > 0 || (cur.windowAck && turn.window) {
          Touch(cur, curTs, now);
        }
        cur.ackCount, cur.windowAck := cur.ackCount - sent, cur.windowAck && !turn.window;
      } else {
        cur.ackCount, cur.windowAck := 0, false;
      }
    }

    method AfterAck(cur: Stream)
      requires Valid() && cur in streams
      modifies cur`waiting, cur`onControl, `control, `controlCount
      ensures Valid() && cur.waiting == (old(cur.waiting) && cur.onSend)
      ensures control == Promoted(old(control), old(cur.waiting) && !cur.onSend && !old(cur.onControl), cur)
    {
      hide Manager.ControlOk, Manager.SendOk, Manager.AckOk, Manager.RtoOk, Manager.TimewaitOk, Manager.TimeoutOk,
        Manager.TimewaitSorted, Manager.TimeoutSorted;
      if cur.waiting && !cur.onSend {
        cur.waiting := false;
        AddToControl(cur);
      }
    }

    lemma AckAt(k: nat)
      requires AckOk() && k < |ack|
      ensures Drop(ack, ack[k]) == ack[..k] + ack[k + 1..] && ack[k] in streams && ack[k].onAck
    {
      var i := DropAt(ack, ack[k]);
    }

    /** The turn of a stream: the acks that go out are counted, or all are dropped if none is due, and the stream
        stays on the list exactly if something is left to acknowledge. */
    twostate predicate Served(s: Stream, turn: AckTurn)
      reads s`ackCount, s`windowAck, s`onAck
    {
      && s.ackCount == (if turn.due then Max(old(s.ackCount) - turn.acks, 0) else 0)
      && s.windowAck == (turn.due && !turn.window && old(s.windowAck))
      && (s.onAck <==> s.ackCount > 0 || s.windowAck)
    }

    twostate predicate Untouched(s: Stream)
      reads s`ackCount, s`windowAck, s`onControl
    {
      s.ackCount == old(s.ackCount) && s.windowAck == old(s.windowAck)
    }

    /** nty_tcp_write_acklist: of the first `n` streams exactly those with something left to acknowledge stay. */
    method WriteAck(curTs: u32, thresh: int, turns: nat -> AckTurn) returns (ghost n: nat)
      requires Valid() && curTs == Wrap(now)
      modifies this, streams`active, streams`activeAt, streams`waiting, streams`ackCount, streams`windowAck,
        streams`onAck, streams`onControl
      ensures Valid() && n <= |old(ack)| && (n > 0 ==> n <= thresh) && (n < |old(ack)| ==> n >= thresh)
      ensures forall i :: 0 <= i < n ==> Served(old(ack)[i], turns(i))
      ensures forall i :: n <= i < |old(ack)| ==> old(ack)[i].onAck
      ensures streams == old(streams) && send == old(send) && timewait == old(timewait) && now == old(now)
      ensures old(Exclusive()) ==> Exclusive()
    {
      hide Manager.ControlOk, Manager.SendOk, Manager.AckOk, Manager.RtoOk, Manager.TimewaitOk, Manager.TimeoutOk,
        Manager.TimewaitSorted, Manager.TimeoutSorted, Manager.Valid, Manager.Exclusive, Wrap, Tidy, Drop,
        Manager.Promoted, Manager.Touched, Manager.Acknowledges, Manager.Seen;
      n := 0;
      var k, cnt := 0, 0;
      ghost var q := ack;
      Acking();
      while k < |ack|
        invariant Valid() && n == cnt <= |q| && k <= |ack| && ack[k..] == q[n..] && (n > 0 ==> n <= thresh)
        invariant now == old(now) && streams == old(streams)
        invariant send == old(send) && timewait == old(timewait)
        invariant forall i :: 0 <= i < n ==> Served(q[i], turns(i))
        invariant forall i :: n <= i < |q| ==> q[i].onAck && Untouched(q[i])
        decreases |q| - n
      {
        if cnt + 1 > thresh {
          break;
        }
        var cur := ack[k];
        assert cur == ack[k..][0] == q[n];
        AckTurnOf(cur, turns(cnt), curTs, k);
        if cur.onAck {
          k := k + 1;
        }
        cnt := cnt + 1;
        n := n + 1;
      }
    }

    lemma Acking()
      requires Valid()
      ensures NoDup(ack) && forall i :: 0 <= i < |ack| ==> ack[i] in streams && ack[i].onAck
    {
    }

    // ---------------------------------------------------------------- the periodic checks

    predicate Fresh(at: int)
      reads `timeout, timeout`activeAt
    {
      forall s :: s in timeout ==> at - s.activeAt < 0x8000_0000
    }

    /** Whether the first stream of the list has been idle too long, as the code computes it. */
    lemma HeadIdle(curTs: u32, at: int)
      requires Valid() && timeout != [] && curTs == Wrap(at) && now <= at && Fresh(at)
      ensures timeout[0] in streams && timeout[0].onTimeout
      ensures Signed(Wrap(curTs - timeout[0].active)) == at - timeout[0].activeAt
      ensures at - timeout[0].activeAt < TIMEOUT ==> forall s :: s in timeout ==> at - s.activeAt < TIMEOUT
    {
      hide Manager.ControlOk, Manager.SendOk, Manager.AckOk, Manager.RtoOk, Manager.TimewaitOk,
        Manager.TimewaitSorted;
      var s := timeout[0];
      assert s in timeout;
      SignedDistance(at, s.activeAt);
    }

    /** One idle stream: closed, and destroyed unless the application still holds its socket. */
    method CloseHead(walk: Stream)
      requires Valid() && timeout != [] && walk == timeout[0]
      modifies this, walk`closed, walk`onControl, walk`onSend, walk`onAck, walk`onRto, walk`onTimewait, walk`onTimeout
      ensures Valid() && timeout == old(timeout)[1..] && now == old(now)
      ensures walk.closed && streams == old(streams) - (if walk.hasSocket then {} else {walk})
      ensures old(Exclusive()) ==> Exclusive()
    {
      hide Manager.ControlOk, Manager.SendOk, Manager.AckOk, Manager.RtoOk, Manager.TimewaitOk, Manager.TimeoutOk,
        Manager.TimewaitSorted, Manager.TimeoutSorted, Tidy, NoDup, Drop;
      Head();
      RemoveFromTimeout(walk);
      Absent(timeout, walk);
      walk.closed := true;
      if !walk.hasSocket {
        Destroy(walk);
      }
    }

    lemma Distinct()
      requires Valid()
      ensures NoDup(timeout)
    {
    }

    lemma Head()
      requires Valid() && timeout != []
      ensures timeout[0] in streams && timeout[1..] == Drop(timeout, timeout[0]) && timeout[0] !in timeout[1..]
    {
      TidyHead(timeout, timeoutCount, streams);
    }

    /** CheckConnectionTimeout closes exactly the streams idle for 30 s or more, the longest idle first, up to `thresh`
        of them: stopping at the first stream that is not idle misses none. */
    method CheckConnectionTimeout(curTs: u32, thresh: int, at: int) returns (ghost n: nat)
      requires Valid() && curTs == Wrap(at) && now <= at && Fresh(at)
      modifies this, streams`closed, streams`onControl, streams`onSend, streams`onAck, streams`onRto,
        streams`onTimewait,
        streams`onTimeout
      ensures Valid() && n <= |old(timeout)| && timeout == old(timeout)[n..] && (n > 0 ==> n <= thresh)
      ensures forall i :: 0 <= i < n ==> at - old(timeout)[i].activeAt >= 30000 && old(timeout)[i].closed
      ensures forall i :: 0 <= i < n ==> (old(timeout)[i] in streams <==> old(timeout)[i].hasSocket)
      ensures n < thresh ==> forall s :: s in timeout ==> at - s.activeAt < 30000
      ensures forall s :: s in old(streams) && s !in old(timeout)[..n] ==> s in streams && s.closed == old(s.closed)
      ensures streams <= old(streams) && now == old(now)
      ensures old(Exclusive()) ==> Exclusive()
    {
      hide Manager.ControlOk, Manager.SendOk, Manager.AckOk, Manager.RtoOk, Manager.TimewaitOk, Manager.TimeoutOk,
        Manager.TimewaitSorted, Manager.TimeoutSorted, Manager.Valid, Manager.Exclusive;
      n := 0;
      var cnt := 0;
      ghost var q := timeout;
      Distinct();
      while timeout != []
        invariant Valid() && n <= |q| && timeout == q[n..] && cnt == n && (n > 0 ==> n <= thresh)
        invariant now == old(now) && streams <= old(streams) && (old(Exclusive()) ==> Exclusive())
        invariant forall i :: 0 <= i < n ==> at - q[i].activeAt >= TIMEOUT && q[i].closed
        invariant forall i :: 0 <= i < n ==> (q[i] in streams <==> q[i].hasSocket)
        invariant forall s :: s in old(streams) && s !in q[..n] ==> s in streams && s.closed == old(s.closed)
        decreases |timeout|
      {
        cnt := cnt + 1;
        if cnt > thresh {
          break;
        }
        HeadIdle(curTs, at);
        if Signed(Wrap(curTs - timeout[0].active)) >= TIMEOUT {
          CloseHead(timeout[0]);
          assert q[..n + 1] == q[..n] + [q[n]];
          n := n + 1;
        } else {
          break;
        }
      }
    }

    lemma WaitingAt(k: nat)
      requires Valid() && k < |timewait|
      ensures timewait[k] in streams && timewait[k].onTimewait && NoDup(timewait)
      ensures Drop(timewait, timewait[k]) == timewait[..k] + timewait[k + 1..]
    {
      var i := DropAt(timewait, timewait[k]);
    }

    /** Whether the stream has expired, as the code computes it; and if not, no later one has. */
    lemma ExpiredAt(curTs: u32, at: int, k: nat)
      requires Valid() && k < |timewait| && curTs == Wrap(at) && now <= at
      requires forall s :: s in timewait ==> at - s.expiresAt < 0x8000_0000
      ensures at - timewait[k].expiresAt >= -0x8000_0000 ==>
        Signed(Wrap(curTs - timewait[k].expires)) == at - timewait[k].expiresAt
      ensures forall i :: k <= i < |timewait| ==> timewait[k].expiresAt <= timewait[i].expiresAt <= now + TIMEWAIT
    {
      hide Manager.ControlOk, Manager.SendOk, Manager.AckOk, Manager.RtoOk, Manager.TimeoutOk, Manager.TimeoutSorted;
      var s := timewait[k];
      assert s in timewait;
      if at - s.expiresAt >= -0x8000_0000 { SignedDistance(at, s.expiresAt); }
      forall i | k <= i < |timewait| ensures s.expiresAt <= timewait[i].expiresAt <= now + TIMEWAIT {
        assert timewait[i] in timewait;
      }
    }

    method ExpireOne(walk: Stream, ghost k: nat)
      requires Valid() && k < |timewait| && walk == timewait[k]
      modifies this, walk`closed, walk`onControl, walk`onSend, walk`onAck, walk`onRto, walk`onTimewait, walk`onTimeout
      ensures Valid() && timewait == old(timewait[..k] + timewait[k + 1..]) && streams == old(streams) - {walk}
      ensures walk.closed
      ensures old(Exclusive()) ==> Exclusive()
      ensures now == old(now)
    {
      hide Manager.ControlOk, Manager.SendOk, Manager.AckOk, Manager.RtoOk, Manager.TimewaitOk, Manager.TimeoutOk,
        Manager.TimewaitSorted, Manager.TimeoutSorted, Tidy, Drop;
      WaitingAt(k);
      RemoveFromTimewait(walk);
      Absent(timewait, walk);
      walk.closed := true;
      Destroy(walk);
    }

    /** CheckTimewaitExpire: of the first `n` streams, exactly those with nothing left to send are destroyed; the walk
        stops at `thresh` or at the first stream that has not expired, and then no later one has. */
    method CheckTimewaitExpire(curTs: u32, thresh: int, at: int) returns (ghost n: nat)
      requires Valid() && curTs == Wrap(at) && now <= at
      requires Spread(timewait, at)
      modifies this, streams`closed, streams`onControl, streams`onSend, streams`onAck, streams`onRto,
        streams`onTimewait,
        streams`onTimeout
      ensures Valid() && n <= |old(timewait)| && (n > 0 ==> n <= thresh)
      ensures forall i :: 0 <= i < n ==> at >= old(timewait)[i].expiresAt
      ensures forall i :: 0 <= i < n ==> (old(timewait)[i] in streams <==> old(timewait[i].onControl))
      ensures n < thresh ==> forall i :: n <= i < |old(timewait)| ==> at < old(timewait)[i].expiresAt
      ensures forall i :: n <= i < |old(timewait)| ==> old(timewait)[i] in streams && old(timewait)[i] in timewait
      ensures forall s :: s in old(streams) && s !in old(timewait)[..n] ==> s in streams
      ensures streams <= old(streams) && forall s :: s in streams ==> s.closed == old(s.closed)
      ensures now == old(now)
      ensures old(Exclusive()) ==> Exclusive()
    {
      hide Manager.ControlOk, Manager.SendOk, Manager.AckOk, Manager.RtoOk, Manager.TimewaitOk, Manager.TimeoutOk,
        Manager.TimewaitSorted, Manager.TimeoutSorted, Manager.Valid, Manager.Exclusive, Manager.Spread;
      ghost var q, busy := timewait, Busy(timewait);
      AllWaiting(q, busy);
      ghost var k;
      n, k := WalkTimewait(curTs, thresh, at, q, busy);
      Settled(q, busy, n, k);
    }

    ghost predicate Expired(q: seq<Stream>, lo: nat, hi: nat, at: int)
      reads q`expiresAt
    {
      forall i :: lo <= i < hi && i < |q| ==> at >= q[i].expiresAt
    }

    ghost predicate Running(q: seq<Stream>, n: nat, at: int)
      reads q`expiresAt
    {
      forall i :: n <= i < |q| ==> at < q[i].expiresAt
    }

    /** The loop. */
    method WalkTimewait(curTs: u32, thresh: int, at: int, ghost q: seq<Stream>, ghost busy: seq<bool>)
      returns (ghost n: nat, ghost place: nat)
      requires Valid() && curTs == Wrap(at) && now <= at && Spread(q, at) && Examined(q, busy, 0, 0)
      requires forall s :: s in q ==> s in streams
      modifies this, streams`closed, streams`onControl, streams`onSend, streams`onAck, streams`onRto,
        streams`onTimewait,
        streams`onTimeout
      ensures Valid() && Examined(q, busy, n, place) && (n > 0 ==> n <= thresh) && Expired(q, 0, n, at)
      ensures n < thresh ==> Running(q, n, at)
      ensures streams <= old(streams) && (old(Exclusive()) ==> Exclusive()) && now == old(now)
      ensures forall s :: s in old(streams) && s !in q[..n] ==> s in streams
      ensures forall s :: s in streams ==> s.closed == old(s.closed)
    {
      hide Manager.ControlOk, Manager.SendOk, Manager.AckOk, Manager.RtoOk, Manager.TimewaitOk, Manager.TimeoutOk,
        Manager.TimewaitSorted, Manager.TimeoutSorted, Manager.Valid, Manager.Exclusive, Manager.Examined,
        Manager.Spread, Manager.Expired, Manager.Running;
      n := 0;
      var k: nat, cnt := 0, 0;
      NoneExpired(q, at);
      while k < |timewait|
        invariant Valid() && Examined(q, busy, n, k) && cnt == n && (n > 0 ==> n <= thresh)
        invariant now == old(now) && streams <= old(streams) && (old(Exclusive()) ==> Exclusive())
        invariant Expired(q, 0, n, at) && n <= |q|
        invariant forall s :: s in old(streams) && s !in q[..n] ==> s in streams
        invariant forall s :: s in streams ==> s.closed == old(s.closed)
        decreases |q| - n
      {
        cnt := cnt + 1;
        if cnt > thresh {
          break;
        }
        Due(curTs, at, q, busy, n, k);
        if Signed(Wrap(curTs - timewait[k].expires)) < 0 {
          break;
        }
        assert q[..n + 1] == q[..n] + [q[n]];
        k := Expire(timewait[k], k, q, busy, n);
        n := n + 1;
      }
      AtEnd(q, busy, n, k, at);
      place := k;
    }

    lemma NoneExpired(q: seq<Stream>, at: int)
      ensures Expired(q, 0, 0, at)
    {
    }

    lemma AtEnd(q: seq<Stream>, busy: seq<bool>, n: nat, k: nat, at: int)
      requires Examined(q, busy, n, k)
      ensures k >= |timewait| ==> Running(q, n, at)
    {
    }

    ghost function Busy(q: seq<Stream>): (b: seq<bool>)
      reads q`onControl
      ensures |b| == |q| && forall i :: 0 <= i < |q| ==> b[i] == q[i].onControl
    {
      if q == [] then [] else [q[0].onControl] + Busy(q[1..])
    }

    /** `n` streams of `q` have been looked at: those that were busy stay, and the walk stands at the next. */
    ghost predicate Examined(q: seq<Stream>, busy: seq<bool>, n: nat, k: nat)
      reads `timewait, `streams, q`onControl
    {
      && n <= |q| == |busy| && k <= |timewait| && timewait[k..] == q[n..] && NoDup(q)
      && (forall s :: s in timewait ==> s in q)
      && (forall i :: 0 <= i < n ==> (q[i] in streams <==> busy[i]))
      && (forall i :: n <= i < |q| ==> q[i] in streams && q[i].onControl == busy[i])
    }

    lemma NextWaiting(q: seq<Stream>, busy: seq<bool>, n: nat, k: nat)
      requires Valid() && Examined(q, busy, n, k) && k < |timewait|
      ensures n < |q| && timewait[k] == q[n] && timewait[k] in streams && timewait[k] in timewait
    {
      assert timewait[k] == timewait[k..][0] == q[n..][0];
    }

    lemma Within(q: seq<Stream>, busy: seq<bool>, n: nat, k: nat)
      requires Examined(q, busy, n, k)
      ensures forall s :: s in timewait ==> s in q
    {
    }

    /** No deadline is half the clock's range away. */
    predicate Spread(q: seq<Stream>, at: int)
      reads q`expiresAt
    {
      forall s :: s in q ==> -0x8000_0000 <= at - s.expiresAt < 0x8000_0000
    }

    lemma Due(curTs: u32, at: int, q: seq<Stream>, busy: seq<bool>, n: nat, k: nat)
      requires Valid() && Examined(q, busy, n, k) && k < |timewait| && curTs == Wrap(at) && now <= at && Spread(q, at)
      ensures n < |q| && timewait[k] == q[n] && q[n] in streams
      ensures Signed(Wrap(curTs - q[n].expires)) == at - q[n].expiresAt
      ensures at < q[n].expiresAt ==> Running(q, n, at)
      ensures at >= q[n].expiresAt && Expired(q, 0, n, at) ==> Expired(q, 0, n + 1, at)
    {
      hide Manager.Valid, Manager.Examined;
      NextWaiting(q, busy, n, k);
      Within(q, busy, n, k);
      ExpiredAt(curTs, at, k);
      if at < q[n].expiresAt { Later(q, busy, n, k, at); }
    }

    lemma Settled(q: seq<Stream>, busy: seq<bool>, n: nat, k: nat)
      requires Examined(q, busy, n, k)
      ensures forall i :: 0 <= i < n ==> (q[i] in streams <==> busy[i])
      ensures forall i :: n <= i < |q| ==> q[i] in streams && q[i] in timewait
      ensures k >= |timewait| ==> n == |q|
    {
      assert forall i :: n <= i < |q| ==> q[i] == timewait[k..][i - n];
    }

    lemma Later(q: seq<Stream>, busy: seq<bool>, n: nat, k: nat, at: int)
      requires Examined(q, busy, n, k) && k < |timewait|
      requires forall i :: k <= i < |timewait| ==> at < timewait[i].expiresAt
      ensures forall i :: n <= i < |q| ==> at < q[i].expiresAt
    {
      assert forall i :: n <= i < |q| ==> q[i] == timewait[k..][i - n] == timewait[k + (i - n)];
    }

    /** One expired stream: destroyed, or passed over while it is on the control list. */
    method Expire(walk: Stream, k: nat, ghost q: seq<Stream>, ghost busy: seq<bool>, ghost n: nat) returns (next: nat)
      requires Valid() && Examined(q, busy, n, k) && n < |q| && k < |timewait| && walk == timewait[k] == q[n]
      modifies this, walk`closed, walk`onControl, walk`onSend, walk`onAck, walk`onRto, walk`onTimewait, walk`onTimeout
      ensures Valid() && Examined(q, busy, n + 1, next) && now == old(now)
      ensures streams == old(streams) - (if old(walk.onControl) then {} else {walk})
      ensures old(walk.onControl) ==> walk.closed == old(walk.closed)
      ensures old(Exclusive()) ==> Exclusive()
    {
      hide Manager.ControlOk, Manager.SendOk, Manager.AckOk, Manager.RtoOk, Manager.TimewaitOk, Manager.TimeoutOk,
        Manager.TimewaitSorted, Manager.TimeoutSorted, Manager.Valid, Manager.Exclusive;
      assert timewait[k + 1..] == timewait[k..][1..] == q[n + 1..];
      next := k;
      if !walk.onControl {
        ExpireOne(walk, k);
      } else {
        next := k + 1;
      }
    }

    lemma AllWaiting(q: seq<Stream>, busy: seq<bool>)
      requires Valid() && q == timewait && busy == Busy(q)
      ensures Examined(q, busy, 0, 0)
    {
    }

    // ---------------------------------------------------------------- the retransmission timer

    /** CheckRtmTimeout and HandleRTO on one stream: off the wheel, and then given up, or rolled back onto the list that
        will send again. */
    method RtoFires(s: Stream, e: RtoEffect)
      requires Valid() && s in streams
      modifies this, s`waiting, s`onControl, s`onSend, s`onAck, s`onRto, s`onTimewait, s`onTimeout
      ensures Valid() && now == old(now) && (old(Exclusive()) ==> Exclusive())
      ensures streams == if e == GiveUp then old(streams) - {s} else old(streams)
      ensures e != GiveUp ==> s.onRto == -1
      ensures e == Resend || e == FinishData ==> s.onSend
      ensures e == Control ==> s.onControl
      ensures e == FinishData ==> !s.onControl && s.waiting
      ensures Seen() == Fired(old(Seen()), s, e)
    {
      hide Manager.ControlOk, Manager.SendOk, Manager.AckOk, Manager.RtoOk, Manager.TimewaitOk, Manager.TimeoutOk,
        Manager.TimewaitSorted, Manager.TimeoutSorted, Drop, Off;
      WheelIs(s);
      RemoveFromRto(s);
      match e
      case GiveUp => Destroy(s);
      case Keep =>
      case Resend => AddToSend(s);
      case Control => AddToControl(s);
      case FinishData => SendFirst(s);
    }

    /** The data has to go again before the FIN: the control packet waits. */
    method SendFirst(s: Stream)
      requires Valid() && s in streams
      modifies s`waiting, s`onControl, s`onSend, `control, `controlCount, `send, `sendCount
      ensures Valid() && !s.onControl && s.onSend && s.waiting
      ensures control == Drop(old(control), s) && send == if old(s.onSend) then old(send) else old(send) + [s]
    {
      hide Manager.ControlOk, Manager.SendOk, Manager.AckOk, Manager.RtoOk, Manager.TimewaitOk, Manager.TimeoutOk,
        Manager.TimewaitSorted, Manager.TimeoutSorted, Drop;
      RemoveFromControl(s);
      s.waiting := true;
      AddToSend(s);
    }

    // ---------------------------------------------------------------- any run

    /** The event arms the retransmission timer of no stream in TIME_WAIT.  In a connection nothing does: see Run of
        module Connection, whose streams are on the time-wait list only in states that send nothing to be
        acknowledged. */
    predicate Timely(op: Op)
      reads this, send, control, if op.On? then {op.s} else {}
    {
      match op
      case ControlList(_, outcome) => ArmsNoWaiting(control, outcome)
      case DataList(_, flushes) => FlushesNoWaiting(send, flushes)
      case On(s, act) => act.ToRto? ==> !s.onTimewait
      case _ => true
    }

    /** What an operation makes of the lists.  Of a walk over a list the number of streams it came to, `n`, says which
        were affected. */
    ghost predicate Did(op: Op, v: View, w: View, n: nat) {
      match op
      case Create => v.streams < w.streams && |w.streams - v.streams| == 1 && w == v.(streams := w.streams)
      case Tick(d) => w == v.(now := v.now + d)
      case On(s, act) => w == if s in v.streams then Acted(v, s, act) else v
      case ControlList(thresh, outcome) =>
        && n <= |v.control| && w == Round(v, n, outcome) && w.control == v.control[n..] && (n > 0 ==> n <= thresh)
        && (n < |v.control| && n < thresh ==> outcome(n) == Failed)
        && (forall i :: 0 <= i < n ==> outcome(i) != Failed)
        && w.streams == v.streams - Resets(v.control[..n], outcome)
      case DataList(thresh, flushes) =>
        && n <= |v.send| && w.streams == v.streams && w.ack == v.ack && w.timewait == v.timewait && w.now == v.now
        && (n > 0 ==> n <= thresh)
        && (|| (w.send == v.send[n..] && (n < |v.send| ==> n >= thresh))
            || (n < |v.send| && w.send == v.send[n + 1..] + [v.send[n]]
                && (flushes(n).failed || v.send[n] in w.control)))
      case AckList(thresh, turns) =>
        && n <= |v.ack| && w.streams == v.streams && w.send == v.send && w.timewait == v.timewait && w.now == v.now
        && (n > 0 ==> n <= thresh) && (n < |v.ack| ==> n >= thresh)
        && (forall i :: n <= i < |v.ack| ==> v.ack[i] in w.ack)
        && (forall i :: 0 <= i < n && !turns(i).due ==> v.ack[i] !in w.ack)
      case TimewaitCheck(thresh) =>
        && n <= |v.timewait| && w.now == v.now && (n > 0 ==> n <= thresh)
        && w.streams == v.streams - Idle(v.timewait[..n], v.control)
        && (forall i :: n <= i < |v.timewait| ==> v.timewait[i] in w.timewait)
      case TimeoutCheck(thresh) =>
        n <= |v.timeout| && w.now == v.now && (n > 0 ==> n <= thresh) && w.timeout == v.timeout[n..]
    }

    /** The streams that sent a reset. */
    ghost function Resets(q: seq<Stream>, outcome: nat -> Sending): set<Stream> {
      set i | 0 <= i < |q| && outcome(i) == Reset :: q[i]
    }

    /** The streams with no control packet pending. */
    ghost function Idle(q: seq<Stream>, control: seq<Stream>): set<Stream> {
      set s | s in q && s !in control
    }

    /** How far the two checks go: to `thresh`, or to the first stream that is not due. */
    ghost predicate WalkedFar(op: Op, v: View, w: View, n: nat)
      reads v.timewait`expiresAt, v.timeout`activeAt, w.timeout`activeAt
    {
      match op
      case TimewaitCheck(thresh) =>
        && (forall i :: 0 <= i < n && i < |v.timewait| ==> v.timewait[i].expiresAt <= v.now)
        && (n < thresh ==> forall i :: n <= i < |v.timewait| ==> v.now < v.timewait[i].expiresAt)
      case TimeoutCheck(thresh) =>
        && (forall i :: 0 <= i < n && i < |v.timeout| ==> v.timeout[i].activeAt + 30000 <= v.now)
        && (n < thresh ==> forall s :: s in w.timeout ==> v.now - s.activeAt < 30000)
      case _ => true
    }

    /** The deadlines are near enough for the code's comparisons. */
    predicate Comparable(op: Op)
      reads this, timewait, timeout
    {
      (op.TimewaitCheck? ==> Spread(timewait, now)) && (op.TimeoutCheck? ==> Fresh(now))
    }

    method ControlRound(thresh: int, outcome: nat -> Sending) returns (ghost n: nat)
      requires Valid() && Exclusive() && ArmsNoWaiting(control, outcome)
      modifies this, streams`active, streams`activeAt, streams`tsRto, streams`onControl, streams`onSend,
        streams`onAck, streams`onRto, streams`onTimewait, streams`onTimeout
      ensures Valid() && Exclusive() && streams <= old(streams)
      ensures Did(ControlList(thresh, outcome), old(Seen()), Seen(), n)
    {
      hide Manager.Valid, Manager.Exclusive, Drop;
      Members();
      n := WriteControl(Wrap(now), thresh, outcome);
    }

    method DataRound(thresh: int, flushes: nat -> Flush) returns (ghost n: nat)
      requires Valid() && Exclusive() && FlushesNoWaiting(send, flushes)
      modifies this, streams`active, streams`activeAt, streams`tsRto, streams`waiting, streams`ackCount,
        streams`onControl, streams`onSend, streams`onRto
      ensures Valid() && Exclusive() && Did(DataList(thresh, flushes), old(Seen()), Seen(), n)
    {
      hide Manager.Valid, Manager.Exclusive, Drop;
      Members();
      ghost var was := send;
      var failed;
      n, failed := WriteData(Wrap(now), thresh, flushes);
      Members();
      assert failed ==> was[n] in streams;
    }

    method AckRound(thresh: int, turns: nat -> AckTurn) returns (ghost n: nat)
      requires Valid() && Exclusive()
      modifies this, streams`active, streams`activeAt, streams`waiting, streams`ackCount, streams`windowAck,
        streams`onAck, streams`onControl
      ensures Valid() && Exclusive() && Did(AckList(thresh, turns), old(Seen()), Seen(), n)
    {
      hide Manager.Valid, Manager.Exclusive, Drop;
      Members();
      ghost var was := ack;
      n := WriteAck(Wrap(now), thresh, turns);
      Members();
      assert forall i :: 0 <= i < |was| ==> was[i] in streams;
    }

    method TimewaitRound(thresh: int) returns (ghost n: nat)
      requires Valid() && Exclusive() && Spread(timewait, now)
      modifies this, streams`closed, streams`onControl, streams`onSend, streams`onAck, streams`onRto,
        streams`onTimewait, streams`onTimeout
      ensures Valid() && Exclusive() && streams <= old(streams)
      ensures Did(TimewaitCheck(thresh), old(Seen()), Seen(), n)
      ensures WalkedFar(TimewaitCheck(thresh), old(Seen()), Seen(), n)
    {
      hide Manager.Valid, Manager.Exclusive, Drop;
      Members();
      ghost var was, all, busy := timewait, streams, control;
      assert forall i :: 0 <= i < |was| ==> was[i] in streams;
      n := CheckTimewaitExpire(Wrap(now), thresh, now);
      assert forall s :: s in was[..n] ==> exists i :: 0 <= i < n && was[i] == s;
      assert streams == all - Idle(was[..n], busy);
    }

    method TimeoutRound(thresh: int) returns (ghost n: nat)
      requires Valid() && Exclusive() && Fresh(now)
      modifies this, streams`closed, streams`onControl, streams`onSend, streams`onAck, streams`onRto,
        streams`onTimewait, streams`onTimeout
      ensures Valid() && Exclusive() && streams <= old(streams)
      ensures Did(TimeoutCheck(thresh), old(Seen()), Seen(), n)
      ensures WalkedFar(TimeoutCheck(thresh), old(Seen()), Seen(), n)
    {
      hide Manager.Valid, Manager.Exclusive, Drop;
      n := CheckConnectionTimeout(Wrap(now), thresh, now);
    }

    /** Who is on which list. */
    lemma Members()
      requires Valid()
      ensures forall s :: s in control || s in send || s in ack || s in timewait ==> s in streams
      ensures forall s :: s in streams ==> (s.onControl <==> s in control) && (s.onAck <==> s in ack)
    {
    }

    /** An operation; a check whose comparisons would go wrong is left out. */
    method Do(op: Op) returns (ghost n: nat)
      requires Valid() && Exclusive() && Timely(op)
      modifies this, streams
      ensures Valid() && Exclusive() && fresh(streams - old(streams))
      ensures old(Comparable(op)) ==> Did(op, old(Seen()), Seen(), n) && WalkedFar(op, old(Seen()), Seen(), n)
      ensures !old(Comparable(op)) ==> (op.TimewaitCheck? || op.TimeoutCheck?) && Seen() == old(Seen())
    {
      hide Manager.ControlOk, Manager.SendOk, Manager.AckOk, Manager.RtoOk, Manager.TimewaitOk, Manager.TimeoutOk,
        Manager.TimewaitSorted, Manager.TimeoutSorted, Manager.Valid, Manager.Exclusive, Manager.Fresh,
        Manager.Spread, Drop, Manager.Listed, Manager.Acted;
      n := 0;
      match op
      case Create => var _ := CreateStream();
      case Tick(d) => Pass(d);
      case ControlList(thresh, outcome) => n := ControlRound(thresh, outcome);
      case DataList(thresh, flushes) => n := DataRound(thresh, flushes);
      case AckList(thresh, turns) => n := AckRound(thresh, turns);
      case TimewaitCheck(thresh) =>
        if Spread(timewait, now) { n := TimewaitRound(thresh); }
      case TimeoutCheck(thresh) =>
        if Fresh(now) { n := TimeoutRound(thresh); }
      case On(s, act) =>
        if s in streams { Act(s, act); }
    }

    method Pass(d: nat)
      requires Valid()
      modifies `now
      ensures Valid() && (old(Exclusive()) ==> Exclusive()) && now == old(now) + d
    {
      now := now + d;
    }

    method Act(s: Stream, act: Action)
      requires Valid() && Exclusive() && s in streams && (act.ToRto? ==> !s.onTimewait)
      modifies this, streams
      ensures Valid() && Exclusive() && streams <= old(streams)
      ensures Seen() == Acted(old(Seen()), s, act)
    {
      hide Manager.ControlOk, Manager.SendOk, Manager.AckOk, Manager.RtoOk, Manager.TimewaitOk, Manager.TimeoutOk,
        Manager.TimewaitSorted, Manager.TimeoutSorted, Manager.Exclusive, Drop, Manager.Listed, Off,
        Manager.ArmedView, Manager.Fired;
      WheelIs(s);
      match act
      case ToControl => AddToControl(s);
      case ToSend => AddToSend(s);
      case ToAck => AddToAck(s);
      case ToRto(ts) => Arm(s, ts, Wrap(now));
      case OffRto => RemoveFromRto(s);
      case ToTimewait => AddToTimewait(s, Wrap(now), now);
      case ToTimeout => FirstActive(s);
      case Seen => Touch(s, Wrap(now), now);
      case Fires(e) => RtoFires(s, e);
      case Die => Destroy(s);
    }

    lemma Absentee(q: seq<Stream>, s: Stream)
      ensures s !in q ==> Drop(q, s) == q
    {
      if s !in q { Absent(q, s); }
    }

    /** A stream is put on the timeout list as a segment for it is processed. */
    method FirstActive(s: Stream)
      requires Valid() && s in streams
      modifies s`active, s`activeAt, s`onTimeout, `timeout, `timeoutCount, `now
      ensures Valid() && (old(Exclusive()) ==> Exclusive()) && now == old(now)
      ensures timeout == Drop(old(timeout), s) + [s]
    {
      hide Manager.Valid, Manager.Exclusive, Drop;
      WheelIs(s);
      Absentee(timeout, s);
      Touch(s, Wrap(now), now);
      if !s.onTimeout {
        AddToTimeout(s);
      }
    }

    /** Over any run each operation has the effect that Did says, flags, lists and counters agree, the timer lists
        stay in order, and no stream is on both lists that share its timer link, until an event would arm a stream in
        TIME_WAIT. */
    method Run(ops: seq<Op>) returns (done: nat, ghost views: seq<View>)
      requires Valid() && Exclusive()
      modifies this, streams
      ensures Valid() && Exclusive() && done <= |ops|
      ensures done < |ops| ==> !Timely(ops[done])
      ensures |views| == done + 1 && views[0] == old(Seen()) && views[done] == Seen()
      ensures forall i :: 0 <= i < done ==> Stepped(ops[i], views[i], views[i + 1])
    {
      hide Manager.Valid, Manager.Exclusive, Manager.Timely, Manager.Did, Manager.Seen, Manager.WalkedFar,
        Manager.Stepped, Manager.Comparable;
      ghost var first := streams;
      done, views := 0, [Seen()];
      while done < |ops| && Timely(ops[done])
        invariant Valid() && Exclusive() && fresh(streams - first) && done <= |ops|
        invariant |views| == done + 1 && views[0] == old(Seen()) && views[done] == Seen()
        invariant forall i :: 0 <= i < done ==> Stepped(ops[i], views[i], views[i + 1])
        decreases |ops| - done
      {
        ghost var was, sound := Seen(), Comparable(ops[done]);
        ghost var n := Do(ops[done]);
        Steps(ops[done], was, Seen(), n, sound);
        views := views + [Seen()];
        done := done + 1;
      }
    }

    /** The operation had its effect, or is a check that was left out. */
    ghost predicate Stepped(op: Op, v: View, w: View) {
      (exists n :: Did(op, v, w, n)) || ((op.TimewaitCheck? || op.TimeoutCheck?) && w == v)
    }

    lemma Steps(op: Op, v: View, w: View, n: nat, sound: bool)
      requires if sound then Did(op, v, w, n) else (op.TimewaitCheck? || op.TimeoutCheck?) && w == v
      ensures Stepped(op, v, w)
    {
      hide Manager.Did;
    }
  }

  // ---------------------------------------------------------------- the retransmission wheel

  /** The stream leaves the wheel. */
  function Off(wheel: seq<seq<Stream>>, s: Stream): seq<seq<Stream>> {
    seq(|wheel|, i requires 0 <= i < |wheel| => Drop(wheel[i], s))
  }

  /** It joins a slot. */
  function Joined(wheel: seq<seq<Stream>>, slot: nat, s: Stream): seq<seq<Stream>> {
    if slot < |wheel| then wheel[slot := wheel[slot] + [s]] else wheel
  }

  function Sum(qs: seq<seq<Stream>>): nat { if qs == [] then 0 else |qs[0]| + Sum(qs[1..]) }

  lemma {:induction false} SumEmpty(qs: seq<seq<Stream>>)
    requires forall i :: 0 <= i < |qs| ==> qs[i] == []
    ensures Sum(qs) == 0
  {
    if qs != [] { SumEmpty(qs[1..]); }
  }

  lemma {:induction false} SumUpdate(qs: seq<seq<Stream>>, i: nat, q: seq<Stream>)
    requires i < |qs|
    ensures Sum(qs[i := q]) == Sum(qs) - |qs[i]| + |q|
  {
    if i == 0 {
      assert qs[i := q][1..] == qs[1..];
    } else {
      assert qs[i := q][1..] == qs[1..][i - 1 := q];
      SumUpdate(qs[1..], i - 1, q);
    }
  }

  /** What HandleRTO decides. */
  datatype RtoEffect = GiveUp | Keep | Resend | Control | FinishData

  datatype Action =
    | ToControl | ToSend | ToAck
    | ToRto(tsRto: u32) | OffRto
    | ToTimewait | ToTimeout | Seen
    | Fires(e: RtoEffect) | Die

  datatype Op =
    | Create
    | Tick(d: nat)
    | On(s: Stream, act: Action)
    | ControlList(thresh: int, outcome: nat -> Sending)
    | DataList(thresh: int, flushes: nat -> Flush)
    | AckList(thresh: int, turns: nat -> AckTurn)
    | TimewaitCheck(thresh: int)
    | TimeoutCheck(thresh: int)
}
