/** The lock-free queues of src/nty_buffer.c (StreamEnqueue/StreamDequeue, SBEnqueue/SBDequeue and
    RBFragEnqueue/RBFragDequeue are the same code over three element types): one producer and one consumer, whose
    reads and writes of the shared words interleave in any order. */
module SpscRing {
  import opened RingIndex
  import opened Wrappers

  /** The enqueuing thread between two accesses to shared memory, with the locals it carries. */
  datatype Producer<T> =
    | Outside
    | KnowsHead(x: T, h: nat)
    | KnowsBoth(x: T, h: nat, t: nat)
    | Stored(x: T, nt: nat)

  /** The dequeuing thread. */
  datatype Consumer<T> =
    | Away
    | SawHead(h: nat)
    | SawBoth(h: nat, t: nat)
    | Loaded(h: nat, buf: Option<T>)

  /** Which thread takes the next step; `x` is what the producer sends if it is about to begin. */
  datatype Turn<T> = Produce(x: T) | Consume

  /** What a step completes: an enqueue that succeeded or failed, a dequeue that returned an element or NULL. */
  datatype Outcome<T> = Pending | Accepted(x: T) | Refused | Taken(value: T) | Nothing

  /** What has gone through the ring, how far each thread is, and what it saw of the other's progress: `taken` elements
      when the producer last read the head, `published` when the consumer last read the tail. */
  datatype View<T> = View(sent: seq<T>, received: seq<T>, producer: Producer<T>, consumer: Consumer<T>, taken: nat,
    published: nat)

  /** What the step of a thread makes of the ring. */
  ghost predicate Did<T>(turn: Turn<T>, v: View<T>, w: View<T>, out: Outcome<T>, capacity: nat) {
    match turn
    case Produce(x) =>
      w == v.(producer := w.producer, taken := w.taken, sent := w.sent) && Produced(x, v, w, out, capacity)
    case Consume =>
      w == v.(consumer := w.consumer, published := w.published, received := w.received) && Consumed(v, w, out)
  }

  /** Read the head, read the tail, write the slot or give up, publish. */
  ghost predicate Produced<T>(x: T, v: View<T>, w: View<T>, out: Outcome<T>, capacity: nat) {
    match v.producer
    case Outside =>
      && w.producer.KnowsHead? && w.producer.x == x && w.taken == |v.received|
      && w.sent == v.sent && out == Pending
    case KnowsHead(y, _) =>
      w.producer.KnowsBoth? && w.producer.x == y && w.taken == v.taken && w.sent == v.sent && out == Pending
    case KnowsBoth(y, _, _) =>
      && w.taken == v.taken && w.sent == v.sent
      && (if |v.sent| == v.taken + capacity then out == Refused && w.producer == Outside
          else out == Pending && w.producer.Stored? && w.producer.x == y)
    case Stored(y, _) => w.producer == Outside && w.taken == v.taken && w.sent == v.sent + [y] && out == Accepted(y)
  }

  /** Read the head, read the tail, read the slot or give up, publish. */
  ghost predicate Consumed<T>(v: View<T>, w: View<T>, out: Outcome<T>) {
    match v.consumer
    case Away => w.consumer.SawHead? && w.published == v.published && w.received == v.received && out == Pending
    case SawHead(_) => w.consumer.SawBoth? && w.published == |v.sent| && w.received == v.received && out == Pending
    case SawBoth(_, _) =>
      && w.published == v.published && w.received == v.received
      && (if v.published == |v.received| then out == Nothing && w.consumer == Away
          else out == Pending && w.consumer.Loaded?)
    case Loaded(_, _) =>
      && |v.received| < |v.sent| && out == Taken(v.sent[|v.received|]) && w.consumer == Away
      && w.published == v.published && w.received == v.received + [v.sent[|v.received|]]
  }

  class Ring<T(0)> {
    const capacity: nat
    const slots: array<Option<T>>
    var head: nat
    var tail: nat
    var producer: Producer<T>
    var consumer: Consumer<T>
    ghost var sent: seq<T>      // everything the producer has published
    ghost var received: seq<T>  // everything the consumer has taken
    ghost var seenTaken: nat    // how much had been taken when the producer last read the head
    ghost var seenSent: nat     // how much had been published when the consumer last read the tail

    ghost predicate Valid()
      reads this, slots
    {
      && slots.Length == capacity + 1 && head <= capacity && tail <= capacity
      && |received| <= |sent| <= |received| + capacity && received == sent[..|received|]
      && tail == Off(head, |sent| - |received|, capacity + 1)
      && (forall k :: |received| <= k < |sent| ==> Slot(k - |received|) == Some(sent[k]))
      && ProducerOk() && ConsumerOk()
    }

    ghost function Slot(i: nat): Option<T>
      reads this, slots
      requires slots.Length == capacity + 1 && head <= capacity && i <= capacity
    {
      slots[Off(head, i, capacity + 1)]
    }

    /** A head the producer read earlier is behind the present one by what was taken since. */
    ghost predicate SeenHead(h: nat)
      reads this
    {
      && h <= capacity && seenTaken <= |received| <= |sent| <= seenTaken + capacity
      && head == Off(h, |received| - seenTaken, capacity + 1)
    }

    ghost predicate ProducerOk()
      reads this, slots
      requires slots.Length == capacity + 1 && head <= capacity && tail <= capacity
    {
      match producer
      case Outside => true
      case KnowsHead(_, h) => SeenHead(h)
      case KnowsBoth(_, h, t) => SeenHead(h) && t == tail
      case Stored(x, nt) => nt == NextIndex(tail) && |sent| < |received| + capacity && slots[tail] == Some(x)
    }

    ghost predicate ConsumerOk()
      reads this
    {
      match consumer
      case Away => true
      case SawHead(h) => h == head
      case SawBoth(h, t) =>
        h == head && |received| <= seenSent <= |sent| && t == Off(head, seenSent - |received|, capacity + 1)
      case Loaded(h, buf) => h == head && |received| < |sent| && buf == Some(sent[|received|])
    }

    constructor (capacity: nat)
      ensures Valid() && this.capacity == capacity && sent == [] && received == []
      ensures producer == Outside && consumer == Away && fresh(slots)
    {
      this.capacity := capacity;
      slots := new Option<T>[capacity + 1](_ => None);
      head, tail, producer, consumer := 0, 0, Outside, Away;
      sent, received, seenTaken, seenSent := [], [], 0, 0;
    }

    function NextIndex(i: nat): nat { if i != capacity then i + 1 else 0 }

    // ---------------------------------------------------------------- enqueue

    method ReadHead(x: T)
      requires Valid() && producer == Outside
      modifies `producer, `seenTaken
      ensures Valid() && producer.KnowsHead? && producer.x == x && seenTaken == |received|
    {
      producer, seenTaken := KnowsHead(x, head), |received|;
    }

    method ReadTail()
      requires Valid() && producer.KnowsHead?
      modifies `producer
      ensures Valid() && producer.KnowsBoth? && producer.x == old(producer).x
    {
      producer := KnowsBoth(producer.x, producer.h, tail);
    }

    /** Write the slot, or give up: exactly if the ring was full when the head was read. */
    method Store() returns (out: Outcome<T>)
      requires Valid() && producer.KnowsBoth?
      modifies `producer, slots
      ensures Valid()
      ensures if |sent| == seenTaken + capacity then out == Refused && producer == Outside
              else out == Pending && producer.Stored? && producer.x == old(producer).x
    {
      var x, h, t := producer.x, producer.h, producer.t;
      var nt := NextIndex(t);
      if nt != h {
        slots[t] := Some(x);
        producer, out := Stored(x, nt), Pending;
      } else {
        producer, out := Outside, Refused;
      }
    }

    method PublishTail() returns (out: Outcome<T>)
      requires Valid() && producer.Stored?
      modifies `producer, `tail, `sent
      ensures Valid() && producer == Outside
      ensures out == Accepted(old(producer).x) && sent == old(sent) + [old(producer).x]
    {
      var x := producer.x;
      tail := producer.nt;
      producer, sent, out := Outside, sent + [x], Accepted(x);
    }

    // ---------------------------------------------------------------- dequeue

    method SeeHead()
      requires Valid() && consumer == Away
      modifies `consumer
      ensures Valid() && consumer.SawHead?
    {
      consumer := SawHead(head);
    }

    method SeeTail()
      requires Valid() && consumer.SawHead?
      modifies `consumer, `seenSent
      ensures Valid() && consumer.SawBoth? && seenSent == |sent|
    {
      consumer, seenSent := SawBoth(consumer.h, tail), |sent|;
    }

    /** Read the slot, or return NULL: exactly if the ring was empty when the tail was read. */
    method Load() returns (out: Outcome<T>)
      requires Valid() && consumer.SawBoth?
      modifies `consumer
      ensures Valid()
      ensures if seenSent == |received| then out == Nothing && consumer == Away else out == Pending && consumer.Loaded?
    {
      var h := consumer.h;
      if h != consumer.t {
        assert Slot(0) == Some(sent[|received|]);
        consumer, out := Loaded(h, slots[h]), Pending;
      } else {
        consumer, out := Away, Nothing;
      }
    }

    /** The element is never NULL: the assertion after the write of the head holds. */
    method PublishHead() returns (out: Outcome<T>)
      requires Valid() && consumer.Loaded?
      modifies `consumer, `head, `received
      ensures Valid() && consumer == Away
      ensures |old(received)| < |sent| && out == Taken(sent[|old(received)|]) && received == old(received) + [out.value]
    {
      var buf := consumer.buf;
      head := NextIndex(consumer.h);
      assert buf.Some?;
      consumer, received, out := Away, received + [buf.value], Taken(buf.value);
    }

    // ---------------------------------------------------------------- every interleaving

    ghost function Seen(): View<T>
      reads this
    {
      View(sent, received, producer, consumer, seenTaken, seenSent)
    }

    method Step(turn: Turn<T>) returns (out: Outcome<T>)
      requires Valid()
      modifies this, slots
      ensures Valid()
      ensures Did(turn, old(Seen()), Seen(), out, capacity)
      ensures sent == old(sent) + Sent(out) && received == old(received) + Got(out)
      ensures out.Accepted? ==> !old(producer).Outside? && out.x == old(producer).x
      ensures !producer.Outside? && !old(producer).Outside? ==> producer.x == old(producer).x
      ensures !producer.Outside? && old(producer).Outside? ==> turn == Produce(producer.x)
      ensures out.Accepted? ==> producer.Outside?
    {
      hide Ring.Valid;
      out := Pending;
      match turn
      case Produce(x) =>
        match producer {
          case Outside => ReadHead(x);
          case KnowsHead(_, _) => ReadTail();
          case KnowsBoth(_, _, _) => out := Store();
          case Stored(_, _) => out := PublishTail();
        }
      case Consume =>
        match consumer {
          case Away => SeeHead();
          case SawHead(_) => SeeTail();
          case SawBoth(_, _) => out := Load();
          case Loaded(_, _) => out := PublishHead();
        }
    }

    /** Run any schedule of the two threads.  Each step has the effect that Did says; what dequeues return, in order, is
        what enqueues accepted, in order, up to the at most `capacity` elements still in the ring. */
    method Run(schedule: seq<Turn<T>>) returns (outs: seq<Outcome<T>>, ghost views: seq<View<T>>)
      requires Valid() && sent == [] && received == []
      modifies this, slots
      ensures Valid() && |outs| == |schedule|
      ensures |views| == |schedule| + 1 && views[0] == old(Seen()) && views[|schedule|] == Seen()
      ensures forall i :: 0 <= i < |schedule| ==> Did(schedule[i], views[i], views[i + 1], outs[i], capacity)
      ensures sent == AllSent(outs) && received == AllGot(outs)
      ensures AllGot(outs) <= AllSent(outs) && |AllSent(outs)| <= |AllGot(outs)| + capacity
      ensures forall i :: 0 <= i < |outs| && outs[i].Accepted? ==> Offered(old(producer), schedule, outs, outs[i].x, i)
    {
      hide Ring.Valid, Ring.Seen, Offered, Did, Sent, Got;
      outs, views := [], [Seen()];
      NotYet(producer, schedule, outs);
      for i := 0 to |schedule|
        invariant Valid() && |outs| == i && sent == AllSent(outs) && received == AllGot(outs)
        invariant |views| == i + 1 && views[0] == old(Seen()) && views[i] == Seen()
        invariant forall k :: 0 <= k < i ==> Did(schedule[k], views[k], views[k + 1], outs[k], capacity)
        invariant !producer.Outside? ==> Offered(old(producer), schedule, outs, producer.x, i)
        invariant forall k :: 0 <= k < i && outs[k].Accepted? ==> Offered(old(producer), schedule, outs, outs[k].x, k)
      {
        ghost var was := producer;
        var out := Step(schedule[i]);
        SentSnoc(outs, out);
        OfferedOn(old(producer), schedule, outs, out, was, producer);
        outs, views := outs + [out], views + [Seen()];
      }
      InOrder();
    }

    lemma InOrder()
      requires Valid()
      ensures received <= sent && |sent| <= |received| + capacity
    {
    }
  }

  function Sent<T>(out: Outcome<T>): seq<T> { if out.Accepted? then [out.x] else [] }

  function Got<T>(out: Outcome<T>): seq<T> { if out.Taken? then [out.value] else [] }

  /** `x` was offered by a turn before the `i`th, with which an enqueue began, and no enqueue has succeeded since; or
      by the enqueue that was under way at the start. */
  ghost predicate Offered<T>(first: Producer<T>, schedule: seq<Turn<T>>, outs: seq<Outcome<T>>, x: T, i: nat)
    requires i <= |schedule| && i <= |outs|
  {
    || (!first.Outside? && first.x == x && forall k :: 0 <= k < i ==> !outs[k].Accepted?)
    || exists j :: 0 <= j < i && schedule[j] == Produce(x) && forall k :: j <= k < i ==> !outs[k].Accepted?
  }

  lemma NotYet<T>(first: Producer<T>, schedule: seq<Turn<T>>, outs: seq<Outcome<T>>)
    requires outs == []
    ensures !first.Outside? ==> Offered(first, schedule, outs, first.x, 0)
  {
  }

  /** One more step keeps the enqueue that is under way, or begins one. */
  lemma OfferedOn<T>(first: Producer<T>, schedule: seq<Turn<T>>, outs: seq<Outcome<T>>, out: Outcome<T>,
                     was: Producer<T>, now: Producer<T>)
    requires |outs| < |schedule| && (!was.Outside? ==> Offered(first, schedule, outs, was.x, |outs|))
    requires !now.Outside? && !was.Outside? ==> !out.Accepted? && now.x == was.x
    requires !now.Outside? && was.Outside? ==> !out.Accepted? && schedule[|outs|] == Produce(now.x)
    ensures !now.Outside? ==> Offered(first, schedule, outs + [out], now.x, |outs| + 1)
    ensures !was.Outside? ==> Offered(first, schedule, outs + [out], was.x, |outs|)
    ensures forall k, x :: 0 <= k < |outs| && Offered(first, schedule, outs, x, k) ==>
              Offered(first, schedule, outs + [out], x, k)
  {
    var all := outs + [out];
    assert forall k :: 0 <= k < |outs| ==> all[k] == outs[k];
    if !now.Outside? {
      assert all[|outs|] == out;
      if was.Outside? {
        assert schedule[|outs|] == Produce(now.x);
      }
    }
  }

  /** What the enqueues of a run accepted. */
  function AllSent<T>(outs: seq<Outcome<T>>): seq<T> { if outs == [] then [] else Sent(outs[0]) + AllSent(outs[1..]) }

  /** What the dequeues of a run returned. */
  function AllGot<T>(outs: seq<Outcome<T>>): seq<T> { if outs == [] then [] else Got(outs[0]) + AllGot(outs[1..]) }

  lemma {:induction false} SentSnoc<T>(outs: seq<Outcome<T>>, out: Outcome<T>)
    ensures AllSent(outs + [out]) == AllSent(outs) + Sent(out)
    ensures AllGot(outs + [out]) == AllGot(outs) + Got(out)
  {
    if outs == [] {
      assert outs + [out] == [out];
    } else {
      assert (outs + [out])[1..] == outs[1..] + [out];
      SentSnoc(outs[1..], out);
    }
  }
}
