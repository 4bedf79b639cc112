/** The pools of local addresses and ports of src/nty_addr.c: which ones a core may use, and who has them.

    Addresses and ports are in host byte order. */
module AddressPool {
  import opened Lists
  import Rss
  import opened SeqArith
  import opened Wrappers

  const MIN_PORT := 1025
  const MAX_PORT := 65535

  datatype Endpoint = Endpoint(ip: u32, port: u16)

  /** GetRSSCPUCore with the endian check on, as both the pool and the fetch call it. */
  ghost function CoreOf(src: Endpoint, dst: Endpoint, queues: int): int
    requires queues > 0
  {
    Rss.Core(src.ip as bv32, dst.ip as bv32, src.port as bv16, dst.port as bv16, queues, true)
  }

  lemma CoreOfSymmetric(src: Endpoint, dst: Endpoint, queues: int)
    requires queues > 0
    ensures CoreOf(src, dst, queues) == CoreOf(dst, src, queues)
  {
    hide Rss.Core;
    Rss.CoreSymmetric(src.ip as bv32, dst.ip as bv32, src.port as bv16, dst.port as bv16, queues, true);
  }

  method ComputeCore(src: Endpoint, dst: Endpoint, queues: int) returns (core: int)
    requires queues > 0
    ensures core == CoreOf(src, dst, queues)
  {
    hide Rss.Core;
    core := Rss.GetRSSCPUCore(src.ip as bv32, dst.ip as bv32, src.port as bv16, dst.port as bv16, queues, true);
  }

  // ---------------------------------------------------------------- which endpoints a core may use

  /** `count` addresses from `base` on, at most `limit` endpoints, for connections to `dst` on this core. */
  datatype Query = Query(base: u32, count: nat, limit: int, core: int, queues: int, dst: Endpoint)

  ghost predicate Suits(q: Query, e: Endpoint) { q.queues > 0 && CoreOf(q.dst, e, q.queues) == q.core }

  function Nth(q: Query, i: nat, j: u16): Endpoint { Endpoint(Wrap(q.base + i), j) }

  /** The endpoints searched at all. */
  predicate InSpace(q: Query, e: Endpoint) { 1025 <= e.port < 65535 && Wrap(e.ip - q.base) < q.count }

  /** Whether an endpoint comes before port `j` of address `i` in the order of the search. */
  predicate Earlier(q: Query, e: Endpoint, i: nat, j: nat) {
    var k := Wrap(e.ip - q.base);
    MIN_PORT <= e.port < MAX_PORT && (k < i || (k == i && e.port < j))
  }

  /** The search from port `j` of address `i` on, having found `acc`. */
  ghost function Search(q: Query, i: nat, j: nat, acc: seq<Endpoint>): seq<Endpoint>
    requires i <= q.count && MIN_PORT <= j <= MAX_PORT
    decreases q.count - i, MAX_PORT - j
  {
    if i == q.count then acc
    else if j == MAX_PORT then Search(q, i + 1, MIN_PORT, acc)
    else Search(q, i, j + 1, if |acc| < q.limit && Suits(q, Nth(q, i, j)) then acc + [Nth(q, i, j)] else acc)
  }

  /** Whatever is found suits the core, is found once, and fits the limit. */
  lemma {:induction false} SearchSound(q: Query, i: nat, j: nat, acc: seq<Endpoint>)
    requires i <= q.count <= TWO32 && MIN_PORT <= j <= MAX_PORT && (i == q.count ==> j == MIN_PORT)
    requires NoDup(acc) && (acc == [] || |acc| <= q.limit)
    requires forall e :: e in acc ==> Suits(q, e) && Earlier(q, e, i, j)
    ensures var r := Search(q, i, j, acc);
      && acc <= r && NoDup(r) && (r == [] || |r| <= q.limit)
      && (forall e :: e in r ==> Suits(q, e) && Earlier(q, e, q.count, MIN_PORT))
    decreases q.count - i, MAX_PORT - j
  {
    hide CoreOf;
    if i == q.count {
    } else if j == MAX_PORT {
      SearchSound(q, i + 1, MIN_PORT, acc);
    } else {
      NthFresh(q, i, j);
      SearchSound(q, i, j + 1, if |acc| < q.limit && Suits(q, Nth(q, i, j)) then acc + [Nth(q, i, j)] else acc);
    }
  }

  lemma NthFresh(q: Query, i: nat, j: u16)
    requires i < TWO32 && MIN_PORT <= j < MAX_PORT
    ensures !Earlier(q, Nth(q, i, j), i, j) && Earlier(q, Nth(q, i, j), i, j + 1)
  {
    assert Wrap(Wrap(q.base + i) - q.base) == i;
  }

  /** If the limit is not reached, nothing that suits the core is missed. */
  lemma {:induction false} SearchComplete(q: Query, i: nat, j: nat, acc: seq<Endpoint>, e: Endpoint)
    requires i <= q.count <= TWO32 && MIN_PORT <= j <= MAX_PORT && (i == q.count ==> j == MIN_PORT)
    requires Suits(q, e) && InSpace(q, e)
    requires e in acc || !Earlier(q, e, i, j)
    requires |Search(q, i, j, acc)| < q.limit
    ensures e in Search(q, i, j, acc)
    decreases q.count - i, MAX_PORT - j
  {
    hide CoreOf;
    if i == q.count {
    } else if j == MAX_PORT {
      SearchComplete(q, i + 1, MIN_PORT, acc, e);
    } else {
      var acc1 := if |acc| < q.limit && Suits(q, Nth(q, i, j)) then acc + [Nth(q, i, j)] else acc;
      SearchGrows(q, i, j + 1, acc1);
      if Wrap(e.ip - q.base) == i && e.port == j {
        assert e == Nth(q, i, j);
      }
      SearchComplete(q, i, j + 1, acc1, e);
    }
  }

  lemma {:induction false} SearchGrows(q: Query, i: nat, j: nat, acc: seq<Endpoint>)
    requires i <= q.count && MIN_PORT <= j <= MAX_PORT
    ensures acc <= Search(q, i, j, acc)
    decreases q.count - i, MAX_PORT - j
  {
    hide CoreOf, Suits;
    if i < q.count {
      if j == MAX_PORT {
        SearchGrows(q, i + 1, MIN_PORT, acc);
      } else {
        SearchGrows(q, i, j + 1, if |acc| < q.limit && Suits(q, Nth(q, i, j)) then acc + [Nth(q, i, j)] else acc);
      }
    }
  }

  lemma {:induction false} SearchFull(q: Query, i: nat, j: nat, acc: seq<Endpoint>)
    requires i <= q.count && MIN_PORT <= j <= MAX_PORT && |acc| >= q.limit
    ensures Search(q, i, j, acc) == acc
    decreases q.count - i, MAX_PORT - j
  {
    hide CoreOf, Suits;
    if i < q.count {
      if j == MAX_PORT { SearchFull(q, i + 1, MIN_PORT, acc); } else { SearchFull(q, i, j + 1, acc); }
    }
  }

  /** The two loops of the search. */
  method Collect(q: Query) returns (found: seq<Endpoint>)
    requires q.queues > 0
    ensures found == Search(q, 0, MIN_PORT, [])
  {
    hide CoreOf;
    found := [];
    for i := 0 to q.count
      invariant Search(q, i, MIN_PORT, found) == Search(q, 0, MIN_PORT, [])
    {
      var j := MIN_PORT;
      while j < MAX_PORT && |found| < q.limit
        invariant MIN_PORT <= j <= MAX_PORT
        invariant Search(q, i, j, found) == Search(q, 0, MIN_PORT, [])
      {
        var e := Nth(q, i, j);
        var core := ComputeCore(q.dst, e, q.queues);
        if core == q.core {
          found := found + [e];
        }
        j := j + 1;
      }
      if j < MAX_PORT {
        SearchFull(q, i, j, found);
        SearchFull(q, i + 1, MIN_PORT, found);
      }
    }
  }

  // ---------------------------------------------------------------- the pool

  /** nty_addr_pool: the entries ever created are split between the free and the used list. */
  class Pool {
    const query: Query
    var entries: seq<Endpoint>
    var free: seq<Endpoint>
    var used: seq<Endpoint>
    var numFree: int
    var numUsed: int

    ghost predicate Valid()
      reads this
    {
      && NoDup(free) && NoDup(used) && numFree == |free| && numUsed == |used|
      && (forall e :: e in entries <==> e in free || e in used)
      && (forall e :: e in free ==> e !in used)
      && (forall e :: e in entries ==> Suits(query, e) && Earlier(query, e, query.count, MIN_PORT))
    }

    /** CreateAddressPoolPerCore: the first endpoints, up to its share, that the core's packets come back to. */
    constructor PerCore(core: int, queues: int, base: u32, count: nat, dst: Endpoint)
      requires queues > 0 && count <= TWO32
      ensures query == Query(base, count, count * 64510 / queues, core, queues, dst)
      ensures Valid() && used == [] && free == entries == Search(query, 0, MIN_PORT, [])
      ensures |free| < query.limit ==> forall e :: Suits(query, e) && InSpace(query, e) ==> e in free
    {
      hide CoreOf, Search;
      var q := Query(base, count, count * (MAX_PORT - MIN_PORT) / queues, core, queues, dst);
      query := q;
      var found := Collect(q);
      entries, free, used, numFree, numUsed := found, found, [], |found|, 0;
      SearchSound(q, 0, MIN_PORT, []);
      new;
      if |free| < query.limit {
        forall e | Suits(query, e) && InSpace(query, e) ensures e in free {
          SearchComplete(query, 0, MIN_PORT, [], e);
        }
      }
    }

    /** FetchAddressPerCore: the first free entry, whatever it is. */
    method FetchPerCore() returns (got: bool, e: Endpoint)
      requires Valid()
      modifies this
      ensures Valid() && entries == old(entries)
      ensures got == (old(free) != [])
      ensures got ==> e == old(free)[0] && free == old(free)[1..] && used == old(used) + [e]
      ensures got ==> query.queues > 0 && CoreOf(e, query.dst, query.queues) == query.core
      ensures !got ==> free == old(free) && used == old(used)
    {
      hide CoreOf, Suits, Earlier;
      e := query.dst;
      got := free != [];
      if got {
        e := free[0];
        HeadIn(free);
        Use(e);
        CoreOfEntry(e);
      }
    }

    /** An entry that suits the core passes the test FetchAddress makes, with the endpoints the other way round. */
    lemma CoreOfEntry(e: Endpoint)
      requires Valid() && e in entries
      ensures query.queues > 0 && CoreOf(e, query.dst, query.queues) == query.core
    {
      hide CoreOf;
      CoreOfSymmetric(e, query.dst, query.queues);
    }

    /** From the free list to the end of the used list. */
    method Use(e: Endpoint)
      requires Valid() && e in free
      modifies `free, `used, `numFree, `numUsed
      ensures Valid() && free == Drop(old(free), e) && used == old(used) + [e]
    {
      hide CoreOf, Suits, Earlier, NoDup, Drop;
      DropIn(free, e);
      SnocIn(used, e);
      free, used := Drop(free, e), used + [e];
      numFree, numUsed := numFree - 1, numUsed + 1;
    }

    /** FetchAddress: the first free entry with the wanted address and port, where given, whose connection to `dst`
        comes back to `core`. */
    method Fetch(core: int, queues: int, dst: Endpoint, ip: Option<u32>, port: Option<u16>)
        returns (got: bool, e: Endpoint)
      requires Valid() && queues > 0
      modifies `free, `used, `numFree, `numUsed
      ensures Valid()
      ensures got <==> exists k :: 0 <= k < |old(free)| && Passes(old(free)[k], core, queues, dst, ip, port)
      ensures got ==> First(old(free), e, core, queues, dst, ip, port)
      ensures got ==> free == Drop(old(free), e) && used == old(used) + [e]
      ensures !got ==> free == old(free) && used == old(used)
    {
      hide CoreOf, Suits, Earlier, NoDup, Drop;
      got, e := false, dst;
      for k := 0 to |free|
        invariant Valid() && free == old(free) && used == old(used) && numFree == |free|
        invariant forall i :: 0 <= i < k ==> !Passes(free[i], core, queues, dst, ip, port)
      {
        e := free[k];
        var rssCore := ComputeCore(e, dst, queues);
        if (ip == None || e.ip == ip.value) && (port == None || e.port == port.value) && rssCore == core {
          Use(e);
          return true, e;
        }
      }
    }

    /** FreeAddress.  It does not look whether the entry is in use: a free one moves to the end of the free list, and
        the counters no longer agree. */
    method Release(e: Endpoint) returns (ok: bool)
      requires Valid()
      modifies `free, `used, `numFree, `numUsed
      ensures ok == (e in entries) && (Valid() <==> e !in old(free))
      ensures ok ==> used == Drop(old(used), e) && free == Drop(old(free), e) + [e]
      ensures ok ==> numFree == old(numFree) + 1 && numUsed == old(numUsed) - 1
      ensures !ok ==> free == old(free) && used == old(used) && numFree == old(numFree) && numUsed == old(numUsed)
    {
      hide CoreOf, Suits, Earlier, NoDup, Drop;
      ok := e in entries;
      if ok {
        DropIn(used, e);
        DropIn(free, e);
        SnocIn(Drop(free, e), e);
        if e !in free { Absent(free, e); }
        if e !in used { Absent(used, e); }
        used, free := Drop(used, e), Drop(free, e) + [e];
        numFree, numUsed := numFree + 1, numUsed - 1;
      }
    }

    /** In a pool made for this core and destination the test of FetchAddress never fails, so without a wanted address
        or port it returns what FetchAddressPerCore would. */
    lemma FetchAgrees(e: Endpoint)
      requires Valid() && First(free, e, query.core, query.queues, query.dst, None, None)
      ensures e == free[0]
    {
      hide CoreOf, Suits, Earlier, NoDup;
      CoreOfEntry(free[0]);
    }
  }

  /** `e` is the first entry of `q` that passes. */
  ghost predicate First(q: seq<Endpoint>, e: Endpoint, core: int, queues: int, dst: Endpoint, ip: Option<u32>,
                        port: Option<u16>)
  {
    && queues > 0
    && exists k :: (
      && 0 <= k < |q| && q[k] == e && Passes(e, core, queues, dst, ip, port)
      && forall i :: 0 <= i < k ==> !Passes(q[i], core, queues, dst, ip, port))
  }

  /** The tests FetchAddress makes of an entry. */
  ghost predicate Passes(e: Endpoint, core: int, queues: int, dst: Endpoint, ip: Option<u32>, port: Option<u16>)
    requires queues > 0
  {
    (ip.Some? ==> e.ip == ip.value) && (port.Some? ==> e.port == port.value) && CoreOf(e, dst, queues) == core
  }
}
