/** The event pipeline of src/nty_epoll.c: the TCP thread's queue, flushed into the user's queue, and the user's shadow
    queue, all drained by epoll_wait.

    A socket's `events` word remembers which events are waiting in some queue, so that each is queued once.  The word
    is a set of single-bit events here: every caller raises one event at a time. */
module EpollQueues {
  import opened RingIndex

  type Event = int

  const NONE := 0 // NTY_EPOLLNONE
  const ERR := 8  // NTY_EPOLLERR
  const HUP := 16 // NTY_EPOLLHUP

  datatype Entry = Entry(sockid: nat, event: Event, data: int)

  /** nty_socket_map, as far as events go. */
  datatype Socket = Socket(used: bool, interest: set<Event>, events: set<Event>, data: int)

  datatype QueueType = TcpQueue | UsrQueue | ShadowQueue

  /** nty_event_queue: a ring of `size` entries. */
  class EventQueue {
    const size: nat
    const slots: array<Entry>
    var begin: nat
    var end: nat
    var count: nat
    ghost var items: seq<Entry>

    ghost predicate Valid()
      reads this, slots
    {
      && slots.Length == size > 0 && begin < size && count == |items| <= size
      && end == Off(begin, count, size) && end < size
      && forall i :: 0 <= i < count ==> slots[Off(begin, i, size)] == items[i]
    }

    constructor (size: nat)
      requires size > 0
      ensures Valid() && items == [] && this.size == size && fresh(slots)
    {
      this.size := size;
      slots := new Entry[size](_ => Entry(0, NONE, 0));
      begin, end, count, items := 0, 0, 0, [];
    }

    method Push(e: Entry)
      requires Valid() && count < size
      modifies this, slots
      ensures Valid() && items == old(items) + [e]
    {
      var idx := end;
      end := end + 1;
      slots[idx] := e;
      if end >= size {
        end := 0;
      }
      count := count + 1;
      items := items + [e];
    }

    method Pop() returns (e: Entry)
      requires Valid() && count > 0
      modifies this
      ensures Valid() && |old(items)| > 0 && e == old(items)[0] && items == old(items)[1..]
    {
      e := slots[begin];
      begin := begin + 1;
      count := count - 1;
      if begin >= size {
        begin := 0;
      }
      items := items[1..];
    }
  }

  // ---------------------------------------------------------------- what is pending

  function Key(e: Entry): (nat, Event) { (e.sockid, e.event) }

  /** The socket and event of every entry of a queue. */
  ghost function Keys(q: seq<Entry>): multiset<(nat, Event)> {
    if q == [] then multiset{} else multiset{Key(q[0])} + Keys(q[1..])
  }

  lemma {:induction false} KeysJoin(a: seq<Entry>, b: seq<Entry>)
    ensures Keys(a + b) == Keys(a) + Keys(b)
  {
    if a == [] {
      assert a + b == b;
    } else {
      assert (a + b)[1..] == a[1..] + b;
      KeysJoin(a[1..], b);
    }
  }

  lemma KeysPush(a: seq<Entry>, e: Entry)
    ensures Keys(a + [e]) == Keys(a) + multiset{Key(e)}
  {
    KeysJoin(a, [e]);
    assert Keys([e]) == multiset{Key(e)} + Keys([]);
  }

  lemma KeysPop(q: seq<Entry>)
    requires q != []
    ensures Keys(q) == multiset{Key(q[0])} + Keys(q[1..])
  {
  }

  /** How often the event is pending for the socket. */
  function Times(pending: multiset<(nat, Event)>, s: nat, e: Event): nat { pending[(s, e)] }

  /** A set bit has an entry in some queue; and, unless the socket was freed with that event pending, an event is
      queued once if its bit is set and not at all otherwise. */
  ghost predicate Tracked(m: seq<Socket>, pending: multiset<(nat, Event)>, stale: set<(nat, Event)>) {
    forall s: nat, e: Event | s < |m| ::
      && (e in m[s].events ==> Times(pending, s, e) >= 1)
      && ((s, e) !in stale ==> Times(pending, s, e) == if e in m[s].events then 1 else 0)
  }

  function Raise(m: seq<Socket>, s: nat, e: Event): seq<Socket>
    requires s < |m|
  {
    m[s := m[s].(events := m[s].events + {e})]
  }

  function Clear(m: seq<Socket>, s: nat, e: Event): seq<Socket>
    requires s < |m|
  {
    m[s := m[s].(events := m[s].events - {e})]
  }

  lemma NothingTracked(m: seq<Socket>)
    requires forall i :: 0 <= i < |m| ==> m[i].events == {}
    ensures Tracked(m, multiset{}, {})
  {
  }

  lemma RaiseTracked(m: seq<Socket>, pending: multiset<(nat, Event)>, stale: set<(nat, Event)>, s: nat, e: Event)
    requires Tracked(m, pending, stale) && s < |m| && e !in m[s].events
    ensures Tracked(Raise(m, s, e), pending + multiset{(s, e)}, stale)
  {
    var p := pending + multiset{(s, e)};
    assert forall t: nat, f: Event :: Times(p, t, f) == Times(pending, t, f) + if t == s && f == e then 1 else 0;
  }

  lemma ClearTracked(m: seq<Socket>, pending: multiset<(nat, Event)>, stale: set<(nat, Event)>, s: nat, e: Event)
    requires Tracked(m, pending + multiset{(s, e)}, stale) && s < |m|
    ensures Tracked(Clear(m, s, e), pending, stale)
  {
    var p := pending + multiset{(s, e)};
    assert forall t: nat, f: Event :: Times(p, t, f) == Times(pending, t, f) + if t == s && f == e then 1 else 0;
  }

  /** The events a socket had when it was freed. */
  ghost function Dropped(s: nat, events: set<Event>): set<(nat, Event)> { set e | e in events :: (s, e) }

  lemma ForgetTracked(m: seq<Socket>, pending: multiset<(nat, Event)>, stale: set<(nat, Event)>, s: nat, now: Socket)
    requires Tracked(m, pending, stale) && s < |m| && now.events == {}
    ensures Tracked(m[s := now], pending, stale + Dropped(s, m[s].events))
  {
    assert forall e :: e in m[s].events ==> (s, e) in Dropped(s, m[s].events);
  }

  lemma InterestTracked(m: seq<Socket>, pending: multiset<(nat, Event)>, stale: set<(nat, Event)>, s: nat, now: Socket)
    requires Tracked(m, pending, stale) && s < |m| && now.events == m[s].events
    ensures Tracked(m[s := now], pending, stale)
  {
  }

  predicate InRange(q: seq<Entry>, n: nat) { forall i :: 0 <= i < |q| ==> q[i].sockid < n }

  // ---------------------------------------------------------------- what epoll_wait delivers

  /** The entry is still wanted: the socket is in use, interested, and the event was not cleared meanwhile. */
  predicate Wanted(m: seq<Socket>, x: Entry)
    requires x.sockid < |m|
  {
    m[x.sockid].used && x.event in m[x.sockid].interest && x.event in m[x.sockid].events
  }

  /** Sockets, delivered entries and what is left of the queue, after draining until `max` are delivered. */
  datatype Harvest = Harvest(m: seq<Socket>, out: seq<Entry>, rest: seq<Entry>)

  function Drain(q: seq<Entry>, m: seq<Socket>, out: seq<Entry>, max: int): Harvest
    requires InRange(q, |m|)
  {
    if q == [] || |out| >= max then Harvest(m, out, q) else
    Drain(q[1..], Clear(m, q[0].sockid, q[0].event), if Wanted(m, q[0]) then out + [q[0]] else out, max)
  }

  /** With room to spare nothing that is pending and wanted is lost. */
  lemma {:induction false} DrainLosesNothing(q: seq<Entry>, m: seq<Socket>, out: seq<Entry>, max: int)
    requires InRange(q, |m|) && |out| + |q| <= max
    ensures Drain(q, m, out, max).rest == [] && out <= Drain(q, m, out, max).out
    ensures forall i :: 0 <= i < |q| && Wanted(m, q[i]) ==>
      exists x :: x in Drain(q, m, out, max).out && Key(x) == Key(q[i])
  {
    if q != [] {
      var out1 := if Wanted(m, q[0]) then out + [q[0]] else out;
      var m1 := Clear(m, q[0].sockid, q[0].event);
      var d := Drain(q, m, out, max);
      DrainLosesNothing(q[1..], m1, out1, max);
      forall i | 0 <= i < |q| && Wanted(m, q[i]) ensures exists x :: x in d.out && Key(x) == Key(q[i]) {
        if Key(q[i]) == Key(q[0]) {
          assert q[0] in out1;
        } else {
          assert q[i] == q[1..][i - 1] && Wanted(m1, q[i]);
        }
      }
    }
  }

  /** At most `max` are delivered, in the order of the queue, and the rest stays queued. */
  lemma {:induction false} DrainBounds(q: seq<Entry>, m: seq<Socket>, out: seq<Entry>, max: int)
    requires InRange(q, |m|)
    ensures var d := Drain(q, m, out, max);
      out <= d.out && (|d.out| <= max || d.out == out) && |d.out| <= |out| + |q| && |d.m| == |m|
      && |d.rest| <= |q| && d.rest == q[|q| - |d.rest|..]
  {
    if q != [] && |out| < max {
      DrainBounds(q[1..], Clear(m, q[0].sockid, q[0].event), if Wanted(m, q[0]) then out + [q[0]] else out, max);
    }
  }

  /** Only entries of the queue that are wanted are delivered. */
  lemma {:induction false} DrainDeliversWanted(q: seq<Entry>, m: seq<Socket>, out: seq<Entry>, max: int, i: nat)
    requires InRange(q, |m|) && |out| <= i < |Drain(q, m, out, max).out|
    ensures Drain(q, m, out, max).out[i] in q && Wanted(m, Drain(q, m, out, max).out[i])
  {
    if q != [] && |out| < max {
      var m1 := Clear(m, q[0].sockid, q[0].event);
      var out1 := if Wanted(m, q[0]) then out + [q[0]] else out;
      DrainBounds(q[1..], m1, out1, max);
      if |out1| <= i { DrainDeliversWanted(q[1..], m1, out1, max, i); }
    }
  }

  /** No event of a socket is delivered twice. */
  lemma {:induction false} DrainOnce(q: seq<Entry>, m: seq<Socket>, out: seq<Entry>, max: int, i: nat, j: nat)
    requires InRange(q, |m|) && |out| <= i < j < |Drain(q, m, out, max).out|
    ensures Key(Drain(q, m, out, max).out[i]) != Key(Drain(q, m, out, max).out[j])
  {
    if q != [] && |out| < max {
      var m1 := Clear(m, q[0].sockid, q[0].event);
      var out1 := if Wanted(m, q[0]) then out + [q[0]] else out;
      DrainBounds(q[1..], m1, out1, max);
      if |out1| <= i {
        DrainOnce(q[1..], m1, out1, max, i, j);
      } else {
        DrainDeliversWanted(q[1..], m1, out1, max, j);
      }
    }
  }

  lemma {:induction false} KeysIn(q: seq<Entry>, k: (nat, Event)) returns (i: nat)
    requires k in Keys(q)
    ensures i < |q| && Key(q[i]) == k
  {
    if Key(q[0]) == k {
      i := 0;
    } else {
      i := KeysIn(q[1..], k);
      i := i + 1;
    }
  }

  /** Draining a queue leaves alone the events it does not hold. */
  lemma {:induction false} DrainKeeps(q: seq<Entry>, m: seq<Socket>, out: seq<Entry>, max: int, s: nat, e: Event)
    requires InRange(q, |m|) && s < |m|
    ensures var d := Drain(q, m, out, max);
      && |d.m| == |m| && d.m[s].used == m[s].used && d.m[s].interest == m[s].interest
      && ((forall i :: 0 <= i < |q| ==> Key(q[i]) != (s, e)) ==> (e in d.m[s].events <==> e in m[s].events))
  {
    if q != [] && |out| < max {
      var m1 := Clear(m, q[0].sockid, q[0].event);
      DrainKeeps(q[1..], m1, if Wanted(m, q[0]) then out + [q[0]] else out, max, s, e);
      assert forall i :: 1 <= i < |q| ==> q[i] == q[1..][i - 1];
    }
  }

  /** No lost event: once the TCP thread's queue is flushed, a wait with enough room delivers every event whose bit is
      set on a socket in use that asked for it, and empties both queues. */
  lemma {:induction false} NoLostEvent(u: seq<Entry>, v: seq<Entry>, m: seq<Socket>, stale: set<(nat, Event)>, max: int,
                                       s: nat, e: Event)
    requires InRange(u, |m|) && InRange(v, |m|) && Tracked(m, Keys(u) + Keys(v), stale) && |u| + |v| <= max
    requires s < |m| && m[s].used && e in m[s].interest && e in m[s].events
    ensures var d := Drain(u, m, [], max);
      && |d.m| == |m| && d.rest == [] && Drain(v, d.m, d.out, max).rest == []
      && exists x :: x in Drain(v, d.m, d.out, max).out && Key(x) == (s, e)
  {
    var d := Drain(u, m, [], max);
    DrainBounds(u, m, [], max);
    DrainLosesNothing(u, m, [], max);
    DrainLosesNothing(v, d.m, d.out, max);
    assert Times(Keys(u) + Keys(v), s, e) >= 1;
    if (s, e) in Keys(u) {
      var i := KeysIn(u, (s, e));
      var x :| x in d.out && Key(x) == Key(u[i]);
    } else {
      var j := KeysIn(v, (s, e));
      AbsentKey(u, (s, e));
      DrainKeeps(u, m, [], max, s, e);
      assert Wanted(d.m, v[j]);
    }
  }

  lemma {:induction false} AbsentKey(q: seq<Entry>, k: (nat, Event))
    requires k !in Keys(q)
    ensures forall i :: 0 <= i < |q| ==> Key(q[i]) != k
  {
    if q != [] {
      AbsentKey(q[1..], k);
      assert forall i :: 1 <= i < |q| ==> q[i] == q[1..][i - 1];
    }
  }

  // ---------------------------------------------------------------- the pipeline

  class Epoll {
    const tcpq: EventQueue
    const usrq: EventQueue
    const shadow: EventQueue
    const smap: array<Socket>
    var registered: nat
    var handled: nat
    var invalidated: nat
    ghost var stale: set<(nat, Event)> // freed with the event still pending

    ghost function Repr(): set<object> {
      {this, smap, tcpq, tcpq.slots, usrq, usrq.slots, shadow, shadow.slots}
    }

    /** The parts are separate and each is in order. */
    ghost predicate Parts()
      reads Repr()
    {
      && tcpq != usrq && tcpq != shadow && usrq != shadow
      && tcpq.slots != usrq.slots && tcpq.slots != shadow.slots && usrq.slots != shadow.slots
      && tcpq.Valid() && usrq.Valid() && shadow.Valid()
      && InRange(tcpq.items, smap.Length) && InRange(usrq.items, smap.Length) && InRange(shadow.items, smap.Length)
    }

    ghost function Pending(): multiset<(nat, Event)>
      reads tcpq, usrq, shadow
    {
      Keys(tcpq.items) + Keys(usrq.items) + Keys(shadow.items)
    }

    /** Every registered event was handled, was invalidated or is still in a queue. */
    ghost predicate Counted()
      reads this, tcpq, usrq, shadow
    {
      registered == handled + invalidated + |tcpq.items| + |usrq.items| + |shadow.items|
    }

    ghost predicate Valid()
      reads Repr()
    {
      Parts() && Counted() && Tracked(smap[..], Pending(), stale)
    }

    constructor (size: nat, sockets: nat)
      requires size > 0
      ensures Valid() && fresh(Repr()) && smap.Length == sockets
      ensures Pending() == multiset{} && stale == {} && registered == handled == invalidated == 0
      ensures forall i :: 0 <= i < sockets ==> smap[i] == Socket(false, {}, {}, 0)
    {
      hide EventQueue.Valid, Tracked;
      tcpq := new EventQueue(size);
      usrq := new EventQueue(size);
      shadow := new EventQueue(size);
      smap := new Socket[sockets](_ => Socket(false, {}, {}, 0));
      registered, handled, invalidated, stale := 0, 0, 0, {};
      new;
      NothingTracked(smap[..]);
      assert Pending() == multiset{};
      assert Parts();
    }

    function Queue(qt: QueueType): EventQueue {
      match qt
      case TcpQueue => tcpq
      case UsrQueue => usrq
      case ShadowQueue => shadow
    }

    /** The entry is queued and the bit set. */
    method Enqueue(qt: QueueType, s: nat, event: Event)
      requires Valid() && s < smap.Length && event !in smap[s].events && Queue(qt).count < Queue(qt).size
      modifies this`registered, smap, Queue(qt), Queue(qt).slots
      ensures Valid() && smap[..] == Raise(old(smap[..]), s, event)
      ensures Pending() == old(Pending()) + multiset{(s, event)} && registered == old(registered) + 1
      ensures Queue(qt).items == old(Queue(qt).items) + [Entry(s, event, old(smap[s]).data)]
    {
      hide EventQueue.Valid, Tracked, Keys;
      var eq := Queue(qt);
      var e := Entry(s, event, smap[s].data);
      RaiseTracked(smap[..], Pending(), stale, s, event);
      KeysPush(eq.items, e);
      smap[s] := smap[s].(events := smap[s].events + {event});
      eq.Push(e);
      registered := registered + 1;
      assert smap[..] == Raise(old(smap[..]), s, event);
      assert tcpq.Valid() && usrq.Valid() && shadow.Valid();
      assert InRange(tcpq.items, smap.Length);
      assert InRange(usrq.items, smap.Length);
      assert InRange(shadow.items, smap.Length);
      assert Counted();
      assert Pending() == old(Pending()) + multiset{(s, event)};
    }

    /** nty_epoll_add_event.  An event that is not queued is one already pending, or the queue is full. */
    method AddEvent(qt: QueueType, s: nat, event: Event) returns (ret: int)
      requires Valid() && s < smap.Length
      modifies this`registered, smap, Queue(qt), Queue(qt).slots
      ensures Valid()
      ensures (ret == 0 ==> event in smap[s].events && (s, event) in Pending()) && ret in {0, -1}
      ensures ret != 0 <==> event == NONE || (event !in old(smap[s].events) && |old(Queue(qt).items)| == Queue(qt).size)
      ensures if ret == 0 && event !in old(smap[s].events)
        then Pending() == old(Pending()) + multiset{(s, event)} && registered == old(registered) + 1
        else Pending() == old(Pending()) && registered == old(registered)
      ensures if ret == 0 && event !in old(smap[s].events)
        then smap[..] == Raise(old(smap[..]), s, event)
          && Queue(qt).items == old(Queue(qt).items) + [Entry(s, event, old(smap[s]).data)]
        else smap[..] == old(smap[..]) && Queue(qt).items == old(Queue(qt).items)
    {
      hide EventQueue.Valid, Keys;
      if event == NONE {
        return -1;
      }
      if event in smap[s].events {
        assert Times(Pending(), s, event) >= 1;
        return 0;
      }
      var eq := Queue(qt);
      QueueCount(eq);
      if eq.count >= eq.size {
        return -1;
      }
      Enqueue(qt, s, event);
      ret := 0;
      assert Times(Pending(), s, event) >= 1;
    }

    static lemma QueueCount(q: EventQueue)
      requires q.Valid()
      ensures q.count == |q.items| <= q.size
    {
    }

    // ---------------------------------------------------------------- nty_epoll_flush_events

    /** One entry moves from the TCP thread's queue to the user's. */
    method Move()
      requires Valid() && tcpq.count > 0 && usrq.count < usrq.size
      modifies tcpq, usrq, usrq.slots
      ensures Valid() && Pending() == old(Pending())
      ensures |old(tcpq.items)| > 0 && tcpq.items == old(tcpq.items)[1..]
                && usrq.items == old(usrq.items) + [old(tcpq.items)[0]]
    {
      hide EventQueue.Valid, Tracked, Keys;
      QueueCount(tcpq);
      var e := tcpq.Pop();
      KeysPop(old(tcpq.items));
      KeysPush(usrq.items, e);
      usrq.Push(e);
      assert InRange(tcpq.items, smap.Length);
      assert Pending() == old(Pending());
    }

    /** Entries move in order until the one queue is empty or the other full. */
    method Flush()
      requires Valid()
      modifies tcpq, usrq, usrq.slots
      ensures Valid() && Pending() == old(Pending())
      ensures usrq.items + tcpq.items == old(usrq.items + tcpq.items)
      ensures tcpq.items == [] || |usrq.items| == usrq.size
      ensures |usrq.items| >= |old(usrq.items)|
    {
      hide EventQueue.Valid, Tracked, Keys, Epoll.Valid;
      Counts();
      while tcpq.count > 0 && usrq.count < usrq.size
        invariant Valid() && Pending() == old(Pending())
        invariant usrq.items + tcpq.items == old(usrq.items + tcpq.items) && |usrq.items| >= |old(usrq.items)|
        invariant tcpq.count == |tcpq.items| && usrq.count == |usrq.items| <= usrq.size
        decreases tcpq.count
      {
        ghost var t, u := tcpq.items, usrq.items;
        Move();
        Counts();
        assert u + t == (u + [t[0]]) + t[1..];
      }
    }

    lemma Counts()
      requires Valid()
      ensures tcpq.count == |tcpq.items| && usrq.count == |usrq.items| <= usrq.size && shadow.count == |shadow.items|
    {
    }

    // ---------------------------------------------------------------- nty_epoll_wait

    /** Take one entry off a queue the user reads: deliver it if it is still wanted, and clear the bit. */
    method Take(q: EventQueue) returns (e: Entry, validity: bool)
      requires Valid() && (q == usrq || q == shadow) && q.count > 0
      modifies `handled, `invalidated, smap, q
      ensures Valid() && |old(q.items)| > 0 && e == old(q.items)[0] && q.items == old(q.items)[1..]
      ensures e.sockid < smap.Length && validity == Wanted(old(smap[..]), e)
      ensures smap[..] == Clear(old(smap[..]), e.sockid, e.event)
      ensures handled == old(handled) + (if validity then 1 else 0)
    {
      hide EventQueue.Valid, Tracked, Keys;
      QueueCount(q);
      e := q.Pop();
      KeysPop(old(q.items));
      var socket := smap[e.sockid];
      validity := socket.used && e.event in socket.interest && e.event in socket.events;
      if validity {
        handled := handled + 1;
      } else {
        invalidated := invalidated + 1;
      }
      smap[e.sockid] := socket.(events := socket.events - {e.event});
      assert smap[..] == Clear(old(smap[..]), e.sockid, e.event);
      assert InRange(q.items, smap.Length);
      assert old(Pending()) == Pending() + multiset{(e.sockid, e.event)};
      ClearTracked(old(smap[..]), Pending(), stale, e.sockid, e.event);
    }

    lemma Ranges(q: EventQueue)
      requires Valid() && (q == usrq || q == shadow)
      ensures InRange(q.items, smap.Length) && q.count == |q.items|
    {
    }

    /** One of the two loops of nty_epoll_wait. */
    method DrainQueue(q: EventQueue, out0: seq<Entry>, max: int) returns (out: seq<Entry>)
      requires Valid() && (q == usrq || q == shadow)
      modifies `handled, `invalidated, smap, q
      ensures Valid() && InRange(old(q.items), smap.Length)
      ensures Drain(old(q.items), old(smap[..]), out0, max) == Harvest(smap[..], out, q.items)
      ensures handled + |out0| == old(handled) + |out|
    {
      hide EventQueue.Valid, Epoll.Valid, InRange, Tracked, Keys, Clear;
      out := out0;
      Ranges(q);
      ghost var d := Drain(q.items, smap[..], out, max);
      while q.count != 0 && |out| < max
        invariant Valid() && q.count == |q.items| && InRange(q.items, smap.Length)
        invariant Drain(q.items, smap[..], out, max) == d
        invariant handled + |out0| == old(handled) + |out|
        decreases q.count
      {
        var e, validity := Take(q);
        if validity {
          out := out + [e];
        }
        Ranges(q);
      }
    }

    /** The locked part of nty_epoll_wait once there is something to look at: the user's queue, then the shadow queue,
        until `max` events are delivered. */
    method Wait(max: int) returns (out: seq<Entry>)
      requires Valid()
      modifies `handled, `invalidated, smap, usrq, shadow
      ensures Valid() && InRange(old(usrq.items), smap.Length) && InRange(old(shadow.items), smap.Length)
      ensures var d := Drain(old(usrq.items), old(smap[..]), [], max);
        && usrq.items == d.rest && |d.m| == smap.Length
        && Drain(old(shadow.items), d.m, d.out, max) == Harvest(smap[..], out, shadow.items)
      ensures handled == old(handled) + |out|
    {
      hide EventQueue.Valid, Epoll.Valid, InRange, Tracked, Keys, Drain;
      Apart();
      Ranges(shadow);
      out := DrainQueue(usrq, [], max);
      out := DrainQueue(shadow, out, max);
    }

    lemma Apart()
      requires Valid()
      ensures tcpq != usrq && tcpq != shadow && usrq != shadow
    {
    }

    // ---------------------------------------------------------------- sockets

    /** nty_free_socket: the events still pending for the socket become stale entries. */
    method FreeSocket(s: nat)
      requires Valid() && s < smap.Length
      modifies smap, `stale
      ensures Valid()
      ensures smap[..] == old(smap[..])[s := if old(smap[s]).used then old(smap[s]).(used := false, events := {})
                else old(smap[s])]
      ensures stale == old(stale) + if old(smap[s]).used then Dropped(s, old(smap[s]).events) else {}
    {
      hide EventQueue.Valid, Tracked, Keys, InRange;
      if !smap[s].used {
        return;
      }
      var now := smap[s].(used := false, events := {});
      ForgetTracked(smap[..], Pending(), stale, s, now);
      stale := stale + Dropped(s, smap[s].events);
      smap[s] := now;
      assert smap[..] == old(smap[..])[s := now];
    }

    /** nty_allocate_socket hands out a socket without events. */
    method AllocateSocket(s: nat)
      requires Valid() && s < smap.Length && smap[s].events == {}
      modifies smap
      ensures Valid() && smap[..] == old(smap[..])[s := Socket(true, {}, {}, 0)]
    {
      hide EventQueue.Valid, Tracked, Keys, InRange;
      var now := Socket(true, {}, {}, 0);
      InterestTracked(smap[..], Pending(), stale, s, now);
      smap[s] := now;
      assert smap[..] == old(smap[..])[s := now];
    }

    /** nty_epoll_ctl: ADD fails on a registered socket, MOD and DEL on an unregistered one. */
    method Ctl(op: CtlOp, s: nat, interest: set<Event>, data: int) returns (ret: int)
      requires Valid() && s < smap.Length
      modifies smap
      ensures Valid()
      ensures ret == if op == Add <==> old(smap[s]).interest == {} then 0 else -1
      ensures ret != 0 ==> smap[..] == old(smap[..])
      ensures ret == 0 ==>
                smap[..] == old(smap[..])[s := if op == Del then old(smap[s]).(interest := {})
                  else old(smap[s]).(interest := interest + {ERR, HUP}, data := data)]
    {
      hide EventQueue.Valid, Tracked, Keys, InRange;
      if (op == Add) != (smap[s].interest == {}) {
        return -1;
      }
      var now := if op == Del then smap[s].(interest := {})
          else smap[s].(interest := interest + {ERR, HUP}, data := data);
      InterestTracked(smap[..], Pending(), stale, s, now);
      smap[s] := now;
      assert smap[..] == old(smap[..])[s := now];
      ret := 0;
    }

    // ---------------------------------------------------------------- any run

    ghost function Seen(): View
      reads this, smap, tcpq, usrq, shadow
    {
      View(tcpq.items, usrq.items, shadow.items, smap[..], stale, registered, handled, invalidated)
    }

    /** What is queued after `e` was added to a queue. */
    ghost function Queued(v: View, qt: QueueType, e: Entry): View {
      match qt
      case TcpQueue => v.(tcp := v.tcp + [e])
      case UsrQueue => v.(usr := v.usr + [e])
      case ShadowQueue => v.(shadow := v.shadow + [e])
    }

    ghost function InQueue(v: View, qt: QueueType): seq<Entry> {
      match qt
      case TcpQueue => v.tcp
      case UsrQueue => v.usr
      case ShadowQueue => v.shadow
    }

    /** What the operation makes of the pipeline; `out` is what it delivers. */
    ghost predicate Did(op: Op, v: View, w: View, out: seq<Entry>) {
      && (op.WaitFor? || out == [])
      && match op
      case Issue(qt, s, event) =>
        if s >= |v.m| || event == 0 || event in v.m[s].events || |InQueue(v, qt)| == Queue(qt).size then w == v
        else
          w == Queued(v, qt, Entry(s, event, v.m[s].data)).(m := Raise(v.m, s, event), registered := v.registered + 1)
      case FlushAll =>
        var n := if |v.tcp| < usrq.size - |v.usr| then |v.tcp| else usrq.size - |v.usr|;
        0 <= n && w == v.(usr := v.usr + v.tcp[..n], tcp := v.tcp[n..])
      case WaitFor(max) =>
        && InRange(v.usr, |v.m|) && InRange(v.shadow, |v.m|)
        && var d := Drain(v.usr, v.m, [], max);
           && |d.m| == |v.m|
           && var e := Drain(v.shadow, d.m, d.out, max);
              var left := |v.usr| + |v.shadow| - |d.rest| - |e.rest| - |e.out|;
              out == e.out && w == v.(usr := d.rest, shadow := e.rest, m := e.m, handled := v.handled + |e.out|,
                invalidated := w.invalidated) && w.invalidated == v.invalidated + left
      case Free(s) =>
        if s >= |v.m| || !v.m[s].used then w == v
        else w == v.(m := v.m[s := v.m[s].(used := false, events := {})], stale := v.stale + Dropped(s, v.m[s].events))
      case Allocate(s) =>
        w == if s < |v.m| && v.m[s].events == {} then v.(m := v.m[s := Socket(true, {}, {}, 0)]) else v
      case Control(c, s, interest, data) =>
        if s >= |v.m| || (c == Add) != (v.m[s].interest == {}) then w == v
        else
          w == v.(m := v.m[s := if c == Del then v.m[s].(interest := {})
            else v.m[s].(interest := interest + {8, 16}, data := data)])
    }

    lemma Balance()
      requires Valid()
      ensures invalidated == registered - handled - |tcpq.items| - |usrq.items| - |shadow.items|
    {
      hide Tracked, EventQueue.Valid, Keys, InRange;
    }

    /** What a flush moves, told from what it keeps. */
    lemma Moved(was: View, now: View)
      requires now.usr + now.tcp == was.usr + was.tcp && |was.usr| <= |now.usr| <= usrq.size
      requires now.tcp == [] || |now.usr| == usrq.size
      ensures var n := |now.usr| - |was.usr|;
              && n == (if |was.tcp| < usrq.size - |was.usr| then |was.tcp| else usrq.size - |was.usr|)
              && now.usr == was.usr + was.tcp[..n] && now.tcp == was.tcp[n..]
    {
      var all, n := was.usr + was.tcp, |now.usr| - |was.usr|;
      assert |all| == |now.usr| + |now.tcp|;
      assert now.usr == all[..|now.usr|] && now.tcp == all[|now.usr|..];
      assert all[..|now.usr|] == was.usr + was.tcp[..n] && all[|now.usr|..] == was.tcp[n..];
    }

    method FlushQueue()
      requires Valid()
      modifies tcpq, usrq, usrq.slots
      ensures Valid() && Did(FlushAll, old(Seen()), Seen(), [])
    {
      hide Epoll.Valid, EventQueue.Valid, Tracked, Keys;
      ghost var was := Seen();
      Counts();
      Apart();
      Flush();
      Counts();
      Moved(was, Seen());
    }

    method WaitEvents(max: int) returns (out: seq<Entry>)
      requires Valid()
      modifies `handled, `invalidated, smap, usrq, shadow
      ensures Valid() && Did(WaitFor(max), old(Seen()), Seen(), out)
    {
      hide Epoll.Valid, EventQueue.Valid, Tracked, Keys, Drain, InRange;
      Apart();
      Balance();
      out := Wait(max);
      Balance();
    }

    method Do(op: Op) returns (out: seq<Entry>)
      requires Valid()
      modifies Repr()
      ensures Valid() && Did(op, old(Seen()), Seen(), out)
    {
      hide Epoll.Valid, EventQueue.Valid, Tracked, Keys, Drain, InRange, Raise;
      out := [];
      Counts();
      match op
      case Issue(qt, s, event) =>
        if s < smap.Length { var _ := AddEvent(qt, s, event); }
      case FlushAll => FlushQueue();
      case WaitFor(max) => out := WaitEvents(max);
      case Free(s) =>
        if s < smap.Length { FreeSocket(s); }
      case Allocate(s) =>
        if s < smap.Length && smap[s].events == {} { AllocateSocket(s); }
      case Control(c, s, interest, data) =>
        if s < smap.Length { var _ := Ctl(c, s, interest, data); }
    }

    /** Over any run of the two threads' operations each has the effect that Did says, and the bits, the queues and the
        counters agree. */
    method Run(ops: seq<Op>) returns (outs: seq<seq<Entry>>, ghost views: seq<View>)
      requires Valid()
      modifies Repr()
      ensures Valid() && |views| == |ops| + 1 && views[0] == old(Seen()) && views[|ops|] == Seen() && |outs| == |ops|
      ensures forall i :: 0 <= i < |ops| ==> Did(ops[i], views[i], views[i + 1], outs[i])
      ensures old(stale) <= stale && forall p :: p in stale && p !in old(stale) ==> Free(p.0) in ops
    {
      hide Epoll.Valid, EventQueue.Valid, Tracked, Keys, Epoll.Did, Epoll.Seen;
      outs, views := [], [Seen()];
      SeenStale();
      for i := 0 to |ops|
        invariant Valid() && |outs| == i && |views| == i + 1 && views[0] == old(Seen()) && views[i] == Seen()
        invariant forall k :: 0 <= k < i ==> Did(ops[k], views[k], views[k + 1], outs[k])
        invariant old(stale) <= stale && views[i].stale == stale
        invariant forall p :: p in stale && p !in old(stale) ==> Free(p.0) in ops
      {
        var out := Do(ops[i]);
        SeenStale();
        StaleGrows(ops[i], views[i], Seen(), out);
        outs, views := outs + [out], views + [Seen()];
        assert ops[i] in ops;
      }
    }

    lemma SeenStale()
      ensures Seen().stale == stale
    {
    }

    /** A freed socket's pending events are the only ones that may be queued again while they are queued. */
    lemma StaleGrows(op: Op, v: View, w: View, out: seq<Entry>)
      requires Did(op, v, w, out)
      ensures v.stale <= w.stale && forall p :: p in w.stale && p !in v.stale ==> op == Free(p.0)
    {
      hide Drain, InRange, Raise;
    }
  }

  /** The queues, the sockets and the counters. */
  datatype View = View(tcp: seq<Entry>, usr: seq<Entry>, shadow: seq<Entry>, m: seq<Socket>, stale: set<(nat, Event)>,
    registered: nat, handled: nat, invalidated: int)

  datatype Op =
    | Issue(qt: QueueType, s: nat, event: Event)
    | FlushAll
    | WaitFor(max: int)
    | Free(s: nat)
    | Allocate(s: nat)
    | Control(c: CtlOp, s: nat, interest: set<Event>, data: int)

  datatype CtlOp = Add | Mod | Del
}
