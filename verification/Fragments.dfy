/** The fragment list of src/nty_buffer.c: which sequence numbers of the receive window hold data.

    Offsets are distances from the buffer's head sequence number `h`.  The linked list is a sequence
    of values that the insertion rewrites in list order. */
module Fragments {
  import opened SeqArith

  // nty_fragment_ctx (include/nty_buffer.h:147-152): `len` is a 31-bit field.
  datatype Frag = Frag(start: u32, len: nat)

  // The buffer size is a C int; one below INT_MAX keeps every `end + 1` within half the sequence space.
  const MAX_SIZE: int := TWO31 - 2

  function Lo(f: Frag, h: u32): nat { Wrap(f.start - h) }

  function Hi(f: Frag, h: u32): nat { Lo(f, h) + f.len }

  predicate In(f: Frag, h: u32, k: int) { Lo(f, h) <= k < Hi(f, h) }

  ghost predicate Covered(frags: seq<Frag>, h: u32, k: int) {
    exists i :: 0 <= i < |frags| && In(frags[i], h, k)
  }

  predicate Fits(f: Frag, h: u32, size: nat) { 0 < f.len && Hi(f, h) <= size }

  /** Sorted, pairwise disjoint and not even touching, inside the window. */
  ghost predicate Canonical(frags: seq<Frag>, h: u32, size: nat) {
    && (forall i :: 0 <= i < |frags| ==> Fits(frags[i], h, size))
    && (forall i, j :: 0 <= i < j < |frags| ==> Hi(frags[i], h) < Lo(frags[j], h))
  }

  predicate CanMerge(a: Frag, b: Frag) {
    var aEnd := Wrap(a.start + a.len + 1);
    var bEnd := Wrap(b.start + b.len + 1);
    !(GetMinSeq(aEnd, b.start) == aEnd || GetMinSeq(bEnd, a.start) == bEnd)
  }

  /** Merges `a` into `b`; the result replaces `b`. */
  function MergeFragments(a: Frag, b: Frag): Frag {
    var minSeq := GetMinSeq(a.start, b.start);
    var maxSeq := GetMaxSeq(Wrap(a.start + a.len), Wrap(b.start + b.len));
    Frag(minSeq, Wrap(maxSeq - minSeq))
  }

  /** A fragment's start, its end and the number after it, as offsets from `h`. */
  lemma Ends(f: Frag, h: u32)
    ensures f.start == Wrap(h + Lo(f, h))
    ensures Wrap(f.start + f.len) == Wrap(h + Hi(f, h))
    ensures Wrap(f.start + f.len + 1) == Wrap(h + Hi(f, h) + 1)
  {
    WrapAdd(h, Lo(f, h));
    WrapSub(f.start, h);
    assert f.start == Wrap(h + Lo(f, h));
    hide Wrap;
    WrapAdd(h + Lo(f, h), f.len);
    WrapAdd(h + Lo(f, h), f.len + 1);
  }

  /** The modular test decides exactly whether two fragments overlap or touch. */
  lemma CanMergeIffTouching(a: Frag, b: Frag, h: u32, size: nat)
    requires size <= MAX_SIZE && Fits(a, h, size) && Fits(b, h, size)
    ensures CanMerge(a, b) <==> Lo(b, h) <= Hi(a, h) && Lo(a, h) <= Hi(b, h)
  {
    hide Wrap, GetMinSeq;
    Ends(a, h);
    Ends(b, h);
    MinMaxSeqDecide(h + Hi(a, h) + 1, h + Lo(b, h));
    MinMaxSeqDecide(h + Hi(b, h) + 1, h + Lo(a, h));
  }

  /** Merging two touching fragments spans both. */
  lemma MergeSpans(a: Frag, b: Frag, h: u32, size: nat)
    requires size <= MAX_SIZE && Fits(a, h, size) && Fits(b, h, size)
    ensures Lo(MergeFragments(a, b), h) == Min(Lo(a, h), Lo(b, h))
    ensures Hi(MergeFragments(a, b), h) == Max(Hi(a, h), Hi(b, h))
  {
    hide Wrap, GetMinSeq, GetMaxSeq;
    var lo, hi := Min(Lo(a, h), Lo(b, h)), Max(Hi(a, h), Hi(b, h));
    Ends(a, h);
    Ends(b, h);
    MinMaxSeqOrder(h + Lo(a, h), h + Lo(b, h));
    MinMaxSeqOrder(h + Hi(a, h), h + Hi(b, h));
    WrapSub(h + hi, h + lo);
    OffsetOf(MergeFragments(a, b), h, lo);
  }

  lemma OffsetOf(f: Frag, h: u32, lo: nat)
    requires f.start == Wrap(h + lo) && lo < TWO32
    ensures Lo(f, h) == lo
  {
  }

  /** ... and, as they touch, it covers nothing else. */
  lemma MergeIsUnion(a: Frag, b: Frag, h: u32, size: nat)
    requires size <= MAX_SIZE && Fits(a, h, size) && Fits(b, h, size) && CanMerge(a, b)
    ensures Fits(MergeFragments(a, b), h, size)
    ensures Lo(MergeFragments(a, b), h) == Min(Lo(a, h), Lo(b, h))
    ensures Hi(MergeFragments(a, b), h) == Max(Hi(a, h), Hi(b, h))
    ensures forall k :: In(MergeFragments(a, b), h, k) <==> In(a, h, k) || In(b, h, k)
  {
    MergeSpans(a, b, h, size);
    CanMergeIffTouching(a, b, h, size);
  }

  /** A canonical list is determined by the numbers it covers: the shape the code keeps is the only one. */
  lemma {:induction false} CanonicalIsUnique(a: seq<Frag>, b: seq<Frag>, h: u32, size: nat)
    requires Canonical(a, h, size) && Canonical(b, h, size)
    requires forall k :: Covered(a, h, k) <==> Covered(b, h, k)
    ensures a == b
  {
    if a == [] && b != [] {
      assert In(b[0], h, Lo(b[0], h));
      assert Covered(b, h, Lo(b[0], h));
    } else if a != [] && b == [] {
      assert In(a[0], h, Lo(a[0], h));
      assert Covered(a, h, Lo(a[0], h));
    } else if a != [] {
      FirstAgree(a, b, h, size);
      FirstAgree(b, a, h, size);
      assert a[0] == b[0] by { Ends(a[0], h); Ends(b[0], h); }
      forall k ensures Covered(a[1..], h, k) <==> Covered(b[1..], h, k) {
        CoveredRest(a, h, size, k);
        CoveredRest(b, h, size, k);
      }
      CanonicalIsUnique(a[1..], b[1..], h, size);
      assert a == [a[0]] + a[1..] && b == [b[0]] + b[1..];
    }
  }

  lemma CoveredRest(a: seq<Frag>, h: u32, size: nat, k: int)
    requires Canonical(a, h, size) && a != []
    ensures Covered(a[1..], h, k) <==> Covered(a, h, k) && !In(a[0], h, k)
  {
    if Covered(a, h, k) && !In(a[0], h, k) {
      var i :| 0 <= i < |a| && In(a[i], h, k);
      assert In(a[1..][i - 1], h, k);
    }
    if Covered(a[1..], h, k) {
      var i :| 0 <= i < |a[1..]| && In(a[1..][i], h, k);
      assert In(a[i + 1], h, k);
    }
  }

  lemma GapAfterFirst(b: seq<Frag>, h: u32, size: nat)
    requires Canonical(b, h, size) && b != []
    ensures !Covered(b, h, Hi(b[0], h))
  {
  }

  lemma FirstAgree(a: seq<Frag>, b: seq<Frag>, h: u32, size: nat)
    requires Canonical(a, h, size) && Canonical(b, h, size) && a != [] && b != []
    requires forall k :: Covered(a, h, k) <==> Covered(b, h, k)
    ensures Lo(b[0], h) <= Lo(a[0], h)
    ensures Lo(a[0], h) == Lo(b[0], h) ==> Hi(a[0], h) <= Hi(b[0], h)
  {
    assert In(a[0], h, Lo(a[0], h));
    assert Covered(b, h, Lo(a[0], h));
    if Lo(a[0], h) == Lo(b[0], h) && Hi(b[0], h) < Hi(a[0], h) {
      assert In(a[0], h, Hi(b[0], h));
      GapAfterFirst(b, h, size);
    }
  }

  /** What RBPut's walk over the list keeps: `frags` is the list it started from, `i` the place it has
      reached, `d` the number of nodes unlinked so far, and after the first merge the running fragment
      is the node before place `i` and spans the nodes it swallowed. */
  ghost predicate Walk(frags: seq<Frag>, list: seq<Frag>, cur: Frag, run: Frag, merged: bool, i: nat, d: nat, h: u32,
      size: nat) {
    && i <= |list| && d + |list| == |frags|
    && (forall j :: i <= j < |list| ==> list[j] == frags[j + d])
    && (if merged then Swallowed(frags, list, cur, run, i, d, h, size)
        else run == cur && list == frags && forall j :: 0 <= j < i ==> Hi(frags[j], h) < Lo(cur, h))
  }

  ghost predicate Swallowed(frags: seq<Frag>, list: seq<Frag>, cur: Frag, run: Frag, i: nat, d: nat, h: u32, size: nat)
    requires i <= |list| && d + |list| == |frags|
  {
    && 1 <= i && run == list[i - 1] && Fits(run, h, size)
    && (forall j :: 0 <= j < i - 1 ==> list[j] == frags[j] && Hi(frags[j], h) < Lo(run, h))
    && (forall j :: i - 1 <= j < i + d ==> Lo(run, h) <= Lo(frags[j], h) && Hi(frags[j], h) <= Hi(run, h))
    && (forall k :: In(cur, h, k) ==> In(run, h, k))
    && (forall k :: In(run, h, k) ==> In(cur, h, k) || Covered(frags, h, k))
  }

  /** The first merge. */
  lemma FirstMerge(frags: seq<Frag>, list: seq<Frag>, cur: Frag, run: Frag, i: nat, d: nat, h: u32, size: nat)
    requires size <= MAX_SIZE && Canonical(frags, h, size) && Fits(cur, h, size)
    requires i < |list| && Walk(frags, list, cur, run, false, i, d, h, size) && CanMerge(run, list[i])
    ensures var m := MergeFragments(run, list[i]);
            Walk(frags, list[i := m], cur, m, true, i + 1, d, h, size)
  {
    hide CanMerge, MergeFragments, Lo, Covered;
    var m := MergeFragments(cur, frags[i]);
    MergeIsUnion(cur, frags[i], h, size);
    assert forall k :: In(frags[i], h, k) ==> Covered(frags, h, k) by { CoveredBy(frags, i, h); }
    var after := list[i := m];
    assert after[i] == m && forall j :: 0 <= j < |after| && j != i ==> after[j] == list[j];
    assert Swallowed(frags, after, cur, m, i + 1, d, h, size);
  }

  /** Every further merge unlinks the node that held the running fragment. */
  lemma NextMerge(frags: seq<Frag>, list: seq<Frag>, cur: Frag, run: Frag, i: nat, d: nat, h: u32, size: nat)
    requires size <= MAX_SIZE && Canonical(frags, h, size) && Fits(cur, h, size)
    requires 1 <= i < |list| && Walk(frags, list, cur, run, true, i, d, h, size) && CanMerge(run, list[i])
    ensures var m := MergeFragments(run, list[i]);
            Walk(frags, list[..i - 1] + [m] + list[i + 1..], cur, m, true, i, d + 1, h, size)
  {
    hide CanMerge, MergeFragments, Lo, Covered;
    assert list[i] == frags[i + d];
    var m := MergeFragments(run, list[i]);
    MergeIsUnion(run, list[i], h, size);
    assert forall k :: In(list[i], h, k) ==> Covered(frags, h, k) by { CoveredBy(frags, i + d, h); }
    var after := list[..i - 1] + [m] + list[i + 1..];
    assert after[i - 1] == m;
    assert forall j :: 0 <= j < i - 1 ==> after[j] == list[j];
    assert forall j :: i <= j < |after| ==> after[j] == list[j + 1];
    assert Swallowed(frags, after, cur, m, i, d + 1, h, size);
  }

  /** A node before the new fragment is passed over. */
  lemma Skip(frags: seq<Frag>, list: seq<Frag>, cur: Frag, run: Frag, i: nat, d: nat, h: u32, size: nat)
    requires size <= MAX_SIZE && Canonical(frags, h, size) && Fits(cur, h, size)
    requires i < |list| && Walk(frags, list, cur, run, false, i, d, h, size) && !CanMerge(run, list[i])
    requires GetMaxSeq(Wrap(cur.start + cur.len), list[i].start) != list[i].start
    ensures Walk(frags, list, cur, run, false, i + 1, d, h, size)
  {
    hide CanMerge, Lo, GetMaxSeq, Wrap;
    CanMergeIffTouching(cur, list[i], h, size);
    EndBefore(cur, list[i], h, size);
  }

  lemma CoveredBy(frags: seq<Frag>, i: nat, h: u32)
    requires i < |frags|
    ensures forall k :: In(frags[i], h, k) ==> Covered(frags, h, k)
  {
  }

  /** Where the walk has stopped. */
  ghost predicate Stopped(list: seq<Frag>, cur: Frag, run: Frag, merged: bool, i: nat) {
    i < |list| ==>
      !CanMerge(run, list[i]) && (merged || GetMaxSeq(Wrap(cur.start + cur.len), list[i].start) == list[i].start)
  }

  /** The loop of RBPut (src/nty_buffer.c:581-625): puts the fragment `cur` into the list, merging it with
      every fragment it meets.  `merged` stands for the test `prev == new_ctx`: after a merge the running
      fragment is the list node just visited. */
  method InsertFragment(frags: seq<Frag>, cur: Frag, ghost h: u32, ghost size: nat) returns (list: seq<Frag>)
    requires size <= MAX_SIZE && Canonical(frags, h, size) && Fits(cur, h, size)
    ensures Canonical(list, h, size) && list != []
    ensures forall k :: Covered(list, h, k) <==> Covered(frags, h, k) || In(cur, h, k)
  {
    hide CanMerge, MergeFragments, Lo, GetMinSeq, GetMaxSeq, Wrap, Covered, Walk, Canonical, Fits, In;
    WalkStarts(frags, cur, h, size);
    list := frags;
    var newCtx, merged, i := cur, false, 0;
    ghost var d := 0;
    while i < |list|
      invariant i <= |list| && (merged ==> 1 <= i) && Walk(frags, list, cur, newCtx, merged, i, d, h, size)
      invariant i < |list| || Stopped(list, cur, newCtx, merged, i)
      decreases |list| - i
    {
      if CanMerge(newCtx, list[i]) {
        var iter := MergeFragments(newCtx, list[i]);
        if merged {
          NextMerge(frags, list, cur, newCtx, i, d, h, size);
          list, d := list[..i - 1] + [iter] + list[i + 1..], d + 1;
        } else {
          FirstMerge(frags, list, cur, newCtx, i, d, h, size);
          list, i := list[i := iter], i + 1;
        }
        newCtx, merged := iter, true;
      } else if merged || GetMaxSeq(Wrap(cur.start + cur.len), list[i].start) == list[i].start {
        break;
      } else {
        Skip(frags, list, cur, newCtx, i, d, h, size);
        i := i + 1;
      }
    }
    if merged {
      MergedShape(frags, list, cur, newCtx, i, d, h, size);
    } else {
      StoppedUnmerged(frags, list, cur, newCtx, i, d, h, size);
      list := InsertAlone(list, newCtx, i, h, size);
    }
  }

  lemma WalkStarts(frags: seq<Frag>, cur: Frag, h: u32, size: nat)
    ensures Walk(frags, frags, cur, cur, false, 0, 0, h, size)
  {
  }

  lemma StoppedUnmerged(frags: seq<Frag>, list: seq<Frag>, cur: Frag, run: Frag, i: nat, d: nat, h: u32, size: nat)
    requires size <= MAX_SIZE && Canonical(frags, h, size) && Fits(cur, h, size)
    requires Walk(frags, list, cur, run, false, i, d, h, size) && Stopped(list, cur, run, false, i)
    ensures run == cur && list == frags && i <= |list|
    ensures forall j :: 0 <= j < i ==> Hi(list[j], h) < Lo(cur, h)
    ensures i < |list| ==> Hi(cur, h) < Lo(list[i], h)
  {
    hide CanMerge, Lo, GetMaxSeq, Wrap, Walk;
    Unmerged(frags, list, cur, run, i, d, h, size);
    if i < |list| {
      Apart(cur, list[i], h, size);
    }
  }

  lemma Unmerged(frags: seq<Frag>, list: seq<Frag>, cur: Frag, run: Frag, i: nat, d: nat, h: u32, size: nat)
    requires Walk(frags, list, cur, run, false, i, d, h, size)
    ensures run == cur && list == frags && i <= |list|
    ensures forall j :: 0 <= j < i ==> Hi(list[j], h) < Lo(cur, h)
  {
    hide Lo;
  }

  lemma Apart(cur: Frag, f: Frag, h: u32, size: nat)
    requires size <= MAX_SIZE && Fits(cur, h, size) && Fits(f, h, size)
    ensures !CanMerge(cur, f) && GetMaxSeq(Wrap(cur.start + cur.len), f.start) == f.start ==> Hi(cur, h) < Lo(f, h)
  {
    hide CanMerge, Lo, GetMaxSeq, Wrap;
    CanMergeIffTouching(cur, f, h, size);
    EndBefore(cur, f, h, size);
  }

  /** Nothing merged (src/nty_buffer.c:610-625): the fragment goes before the whole list, or after the node
      before place `i`, where the walk stopped. */
  method InsertAlone(frags: seq<Frag>, cur: Frag, i: nat, ghost h: u32, ghost size: nat) returns (list: seq<Frag>)
    requires size <= MAX_SIZE && Canonical(frags, h, size) && Fits(cur, h, size) && i <= |frags|
    requires forall j :: 0 <= j < i ==> Hi(frags[j], h) < Lo(cur, h)
    requires i < |frags| ==> Hi(cur, h) < Lo(frags[i], h)
    ensures Canonical(list, h, size) && list != []
    ensures forall k :: Covered(list, h, k) <==> Covered(frags, h, k) || In(cur, h, k)
  {
    hide Lo, GetMinSeq, Covered;
    if frags == [] {
      list := [cur];
    } else {
      StartBefore(cur, frags[0], h, size);
      if GetMinSeq(cur.start, frags[0].start) == cur.start {
        list := [cur] + frags;
      } else {
        var prev := frags[i - 1];
        EndsBeforeStart(prev, cur, h, size);
        // the assertion of src/nty_buffer.c:620
        assert GetMinSeq(cur.start, Wrap(prev.start + prev.len)) == Wrap(prev.start + prev.len);
        list := frags[..i] + [cur] + frags[i..];
      }
    }
    InsertedShape(frags, list, cur, i, h, size);
  }

  lemma EndsBeforeStart(f: Frag, cur: Frag, h: u32, size: nat)
    requires size <= MAX_SIZE && Fits(cur, h, size) && Fits(f, h, size) && Hi(f, h) < Lo(cur, h)
    ensures GetMinSeq(cur.start, Wrap(f.start + f.len)) == Wrap(f.start + f.len)
  {
    Ends(cur, h);
    Ends(f, h);
    MinMaxSeqOrder(h + Lo(cur, h), h + Hi(f, h));
  }

  lemma EndBefore(cur: Frag, f: Frag, h: u32, size: nat)
    requires size <= MAX_SIZE && Fits(cur, h, size) && Fits(f, h, size)
    ensures GetMaxSeq(Wrap(cur.start + cur.len), f.start) == f.start <==> Hi(cur, h) <= Lo(f, h)
  {
    Ends(cur, h);
    Ends(f, h);
    MinMaxSeqOrder(h + Hi(cur, h), h + Lo(f, h));
    WrapInjective(h + Hi(cur, h), h + Lo(f, h));
  }

  lemma StartBefore(cur: Frag, f: Frag, h: u32, size: nat)
    requires size <= MAX_SIZE && Fits(cur, h, size) && Fits(f, h, size)
    ensures GetMinSeq(cur.start, f.start) == cur.start <==> Lo(cur, h) <= Lo(f, h)
  {
    Ends(cur, h);
    Ends(f, h);
    MinMaxSeqOrder(h + Lo(cur, h), h + Lo(f, h));
    WrapInjective(h + Lo(cur, h), h + Lo(f, h));
  }

  /** Nothing merged: the new fragment stands alone at place `at`. */
  lemma InsertedShape(frags: seq<Frag>, list: seq<Frag>, cur: Frag, at: nat, h: u32, size: nat)
    requires Canonical(frags, h, size) && Fits(cur, h, size) && at <= |frags|
    requires list == frags[..at] + [cur] + frags[at..]
    requires forall j :: 0 <= j < at ==> Hi(frags[j], h) < Lo(cur, h)
    requires at < |frags| ==> Hi(cur, h) < Lo(frags[at], h)
    ensures Canonical(list, h, size)
    ensures forall k :: Covered(list, h, k) <==> Covered(frags, h, k) || In(cur, h, k)
  {
    hide Lo;
    assert list[at] == cur;
    assert forall j :: 0 <= j < at ==> list[j] == frags[j];
    assert forall j :: at < j < |list| ==> list[j] == frags[j - 1];
    SpliceShape(frags, list, cur, at, at, h, size);
    assert forall k :: In(cur, h, k) ==> In(cur, h, k) || Covered(frags, h, k);
  }

  /** `run` replaces the nodes from place `lo` up to place `hi`, which it covers, and stays clear of the others. */
  lemma SpliceShape(frags: seq<Frag>, list: seq<Frag>, run: Frag, lo: nat, hi: nat, h: u32, size: nat)
    requires Canonical(frags, h, size) && Fits(run, h, size) && lo <= hi <= |frags|
    requires |list| == |frags| - (hi - lo) + 1 && list[lo] == run
    requires forall j :: 0 <= j < lo ==> list[j] == frags[j] && Hi(frags[j], h) < Lo(run, h)
    requires forall j :: lo < j < |list| ==> list[j] == frags[j - 1 + (hi - lo)]
    requires lo + 1 < |list| ==> Hi(run, h) < Lo(list[lo + 1], h)
    requires forall j :: lo <= j < hi ==> Lo(run, h) <= Lo(frags[j], h) && Hi(frags[j], h) <= Hi(run, h)
    ensures Canonical(list, h, size)
    ensures forall k :: Covered(list, h, k) <==> Covered(frags, h, k) || In(run, h, k)
  {
    hide Lo;
    SpliceCanonical(frags, list, run, lo, hi, h, size);
    hide Canonical;
    forall k | Covered(frags, h, k) ensures Covered(list, h, k) {
      var j :| 0 <= j < |frags| && In(frags[j], h, k);
      assert In(list[if j < lo then j else if j < hi then lo else j + 1 - (hi - lo)], h, k);
    }
    forall k | Covered(list, h, k) ensures Covered(frags, h, k) || In(run, h, k) {
      var j :| 0 <= j < |list| && In(list[j], h, k);
      if j != lo { assert In(frags[if j < lo then j else j - 1 + (hi - lo)], h, k); }
    }
  }

  lemma SpliceCanonical(frags: seq<Frag>, list: seq<Frag>, run: Frag, lo: nat, hi: nat, h: u32, size: nat)
    requires Canonical(frags, h, size) && Fits(run, h, size) && lo <= hi <= |frags|
    requires |list| == |frags| - (hi - lo) + 1 && list[lo] == run
    requires forall j :: 0 <= j < lo ==> list[j] == frags[j] && Hi(frags[j], h) < Lo(run, h)
    requires forall j :: lo < j < |list| ==> list[j] == frags[j - 1 + (hi - lo)]
    requires lo + 1 < |list| ==> Hi(run, h) < Lo(list[lo + 1], h)
    ensures Canonical(list, h, size)
  {
    hide Lo, In;
    forall i, j | 0 <= i < j < |list| ensures Hi(list[i], h) < Lo(list[j], h) {
      if i == lo && lo + 1 < j { assert Hi(list[lo + 1], h) < Lo(list[j], h); }
    }
  }

  /** The new fragment swallowed frags[i - 1 .. i + d]. */
  lemma MergedShape(frags: seq<Frag>, list: seq<Frag>, cur: Frag, run: Frag, i: nat, d: nat, h: u32, size: nat)
    requires size <= MAX_SIZE && Canonical(frags, h, size) && Walk(frags, list, cur, run, true, i, d, h, size)
    requires Stopped(list, cur, run, true, i)
    ensures Canonical(list, h, size) && list != []
    ensures forall k :: Covered(list, h, k) <==> Covered(frags, h, k) || In(cur, h, k)
  {
    hide Lo, CanMerge, Covered;
    if i < |list| {
      assert list[i] == frags[i + d];
      CanMergeIffTouching(run, list[i], h, size);
      assert Lo(run, h) <= Lo(frags[i + d - 1], h) && Hi(frags[i + d - 1], h) < Lo(frags[i + d], h);
    }
    SpliceShape(frags, list, run, i - 1, i + d, h, size);
  }
}
