/** Lists without repetition, as the intrusive queues of the stack are used: an element joins at one end and is taken
    out wherever it stands. */
module Lists {
  predicate NoDup<T(==)>(q: seq<T>) { forall i, j :: 0 <= i < j < |q| ==> q[i] != q[j] }

  /** TAILQ_REMOVE. */
  function Drop<T(==)>(q: seq<T>, s: T): seq<T> {
    if q == [] then [] else if q[0] == s then q[1..] else [q[0]] + Drop(q[1..], s)
  }

  lemma {:induction false} DropIn<T>(q: seq<T>, s: T)
    requires NoDup(q)
    ensures forall t :: t in Drop(q, s) <==> t in q && t != s
    ensures forall i :: 0 <= i < |Drop(q, s)| ==> Drop(q, s)[i] in q
    ensures NoDup(Drop(q, s))
    ensures |Drop(q, s)| == if s in q then |q| - 1 else |q|
  {
    if q != [] {
      var rest := q[1..];
      assert q == [q[0]] + rest;
      DropIn(rest, s);
      assert forall t :: t in q <==> t == q[0] || t in rest;
      assert q[0] !in rest;
      if q[0] != s {
        var d := Drop(q, s);
        assert d == [q[0]] + Drop(rest, s);
        assert forall t :: t in d <==> t == q[0] || t in Drop(rest, s);
      }
    }
  }

  lemma SnocIn<T>(q: seq<T>, s: T)
    requires NoDup(q) && s !in q
    ensures NoDup(q + [s]) && forall t :: t in q + [s] <==> t in q || t == s
  {
  }

  lemma ConsIn<T>(q: seq<T>, s: T)
    requires NoDup(q) && s !in q
    ensures NoDup([s] + q) && forall t :: t in [s] + q <==> t in q || t == s
  {
  }

  lemma HeadIn<T>(q: seq<T>)
    requires NoDup(q) && q != []
    ensures NoDup(q[1..]) && q[0] !in q[1..] && forall t :: t in q <==> t in q[1..] || t == q[0]
  {
    assert q == [q[0]] + q[1..];
  }

  /** A list of distinct streams of `all`, with its counter. */
  ghost predicate Tidy<T>(q: seq<T>, count: int, all: set<T>) {
    NoDup(q) && count == |q| && forall s :: s in q ==> s in all
  }

  lemma TidySnoc<T>(q: seq<T>, count: int, all: set<T>, s: T)
    requires Tidy(q, count, all) && s !in q && s in all
    ensures Tidy(q + [s], count + 1, all) && (forall t :: t in q + [s] <==> t in q || t == s)
  {
  }

  lemma TidyCons<T>(q: seq<T>, count: int, all: set<T>, s: T)
    requires Tidy(q, count, all) && s !in q && s in all
    ensures Tidy([s] + q, count + 1, all) && (forall t :: t in [s] + q <==> t in q || t == s)
  {
  }

  lemma TidyDrop<T>(q: seq<T>, count: int, all: set<T>, s: T)
    requires Tidy(q, count, all) && s in q
    ensures Tidy(Drop(q, s), count - 1, all) && (forall t :: t in Drop(q, s) <==> t in q && t != s)
  {
    DropIn(q, s);
    var d := Drop(q, s);
    forall i | 0 <= i < |d| ensures d[i] in all { assert d[i] in q; }
  }

  lemma TidyNoDup<T>(q: seq<T>, count: int, all: set<T>)
    requires Tidy(q, count, all)
    ensures NoDup(q)
  {
  }

  /** Drop takes out one position. */
  lemma {:induction false} DropAt<T>(q: seq<T>, s: T) returns (k: nat)
    requires s in q
    ensures k < |q| && q[k] == s && Drop(q, s) == q[..k] + q[k + 1..]
  {
    if q[0] == s {
      k := 0;
    } else {
      k := DropAt(q[1..], s);
      k := k + 1;
    }
  }

  lemma DropSize<T>(q: seq<T>, count: int, all: set<T>, s: T)
    requires Tidy(q, count, all) && s in q
    ensures |Drop(q, s)| == |q| - 1
  {
    DropIn(q, s);
  }

  lemma TidyHead<T>(q: seq<T>, count: int, all: set<T>)
    requires Tidy(q, count, all) && q != []
    ensures Tidy(q[1..], count - 1, all) && (forall t :: t in q[1..] <==> t in q && t != q[0])
    ensures q[1..] == Drop(q, q[0])
  {
    HeadIn(q);
  }

  lemma {:induction false} Absent<T>(q: seq<T>, s: T)
    requires s !in q
    ensures Drop(q, s) == q
  {
    if q != [] { Absent(q[1..], s); }
  }
}
