/** The epoll of src/nty_epoll_rb.c: registered sockets in a red-black tree, ready ones on a list. */
module EventPoll {
  import opened Lists
  import opened RbShape
  import RbTree

  const ERR := 8   // EPOLLERR
  const HUP := 16  // EPOLLHUP

  /** The fields of an epitem beside its tree entry; `events` is the mask as a set of bits. */
  datatype Item = Item(ready: bool, events: set<int>)

  /** What an application and the stack do to an epoll. */
  datatype Op =
    | Register(sockid: int, events: set<int>)
    | Modify(sockid: int, events: set<int>)
    | Unregister(sockid: int)
    | Raise(sockid: int, event: int)
    | Await(max: int)

  /** What an epoll holds: the registered items and the ready list. */
  datatype View = View(info: map<Node, Item>, ready: seq<Node>)

  ghost predicate HasItem(v: View, sockid: int) { exists n :: n in v.info && n.key == sockid }

  /** The socket has an item, and that item is ready. */
  ghost predicate HasReady(v: View, sockid: int) { exists n :: n in v.info && n.key == sockid && v.info[n].ready }

  /** What each operation does. */
  ghost predicate Did(op: Op, was: View, now: View) {
    match op
    case Register(sockid, events) =>
      && now.ready == was.ready
      && (if HasItem(was, sockid) then now.info == was.info
          else exists n ::
            n in now.info && n !in was.info && n.key == sockid && now.info == was.info[n := Item(false, events)])
    case Modify(sockid, events) =>
      && now.ready == was.ready && now.info.Keys == was.info.Keys
      && forall n :: n in now.info ==>
           now.info[n] == if n.key == sockid then was.info[n].(events := events + {8, 16}) else was.info[n]
    case Unregister(sockid) =>
      && now.ready == was.ready
      && (if HasItem(was, sockid) then exists n :: n in was.info && n.key == sockid && now.info == was.info - {n}
          else now.info == was.info)
    case Raise(sockid, event) => exists n :: n in was.info && n.key == sockid && Raised(n, event, was, now)
    case Await(max) =>
      var share := if max <= 0 then 0 else if |was.ready| > max then max else |was.ready|;
      && now.ready == was.ready[share..] && now.info.Keys == was.info.Keys
      && forall n :: n in now.info ==> now.info[n] == Item(n in now.ready, was.info[n].events)
  }

  ghost predicate Raised(n: Node, event: int, was: View, now: View)
    requires n in was.info
  {
    && now.info.Keys == was.info.Keys && (forall m :: m in now.info && m != n ==> now.info[m] == was.info[m])
    && now.info[n] == Item(true, was.info[n].events + if was.info[n].ready then {event} else {})
    && now.ready == if was.info[n].ready then was.ready else [n] + was.ready
  }

  class Poll {
    const tree: RbTree.Head
    var rbcnt: int
    var rdlist: seq<Node>
    var rdnum: int
    var info: map<Node, Item>

    /** Counters and flags agree with the tree and the list, whatever the list holds. */
    ghost predicate Consistent()
      reads this, tree`root, tree`nodes, tree`shape, tree.nodes
    {
      && tree.Valid() && rbcnt == |tree.Order()| && info.Keys == tree.nodes
      && NoDup(rdlist) && rdnum == |rdlist|
      && forall n :: n in info ==> (info[n].ready <==> n in rdlist)
    }

    /** And every ready item is still registered. */
    ghost predicate Valid()
      reads this, tree`root, tree`nodes, tree`shape, tree.nodes
    {
      Consistent() && forall n :: n in rdlist ==> n in info
    }

    ghost predicate Registered(sockid: int)
      reads this
    {
      exists n :: n in info && n.key == sockid
    }

    ghost predicate Ready(sockid: int)
      reads this
    {
      exists n :: n in info && n.key == sockid && info[n].ready
    }

    ghost function Seen(): View
      reads `info, `rdlist
    {
      View(info, rdlist)
    }

    constructor ()
      ensures Valid() && fresh(tree) && tree.nodes == {} && rdlist == []
    {
      tree := new RbTree.Head();
      rbcnt, rdlist, rdnum, info := 0, [], 0, map[];
    }

    method Find(sockid: int) returns (epi: Node?)
      requires Consistent()
      ensures epi != null ==> epi in info && epi.key == sockid
      ensures epi == null <==> !Registered(sockid)
    {
      hide RbTree.Head.Valid, RbTree.Head.Order;
      epi := tree.Find(sockid);
      if epi != null {
        tree.Members(epi);
      } else {
        forall n | n in info ensures n.key != sockid { tree.Members(n); }
      }
    }

    /** EPOLL_CTL_ADD. */
    method Add(sockid: int, events: set<int>) returns (ret: int)
      requires Consistent()
      modifies this, tree, tree.nodes
      ensures Consistent() && (Valid() <==> old(Valid())) && fresh(tree.nodes - old(tree.nodes))
                && rdlist == old(rdlist)
      ensures ret == if old(Registered(sockid)) then -1 else 0
      ensures ret == -1 ==> info == old(info)
      ensures ret != -1 ==>
                exists n: Node :: n !in old(info) && n.key == sockid && info == old(info)[n := Item(false, events)]
    {
      hide RbTree.Head.Valid, RbTree.Head.Order, NoDup;
      var epi := Find(sockid);
      if epi != null {
        return -1;
      }
      epi := new Node(sockid);
      ghost var size := |tree.Order()|;
      var found, at := tree.Insert(epi);
      assert found == null by {
        if found != null { tree.Members(found); }
      }
      rbcnt := rbcnt + 1;
      info := info[epi := Item(false, events)];
      ret := 0;
    }

    /** EPOLL_CTL_DEL frees the item without taking it off the ready list: that list still refers to registered items
        exactly if this one was not ready. */
    method Del(sockid: int) returns (ret: int)
      requires Consistent()
      modifies this, tree, tree.nodes
      ensures Consistent() && tree.nodes <= old(tree.nodes) && rdlist == old(rdlist)
      ensures ret == if old(Registered(sockid)) then 0 else -1
      ensures ret == -1 ==> info == old(info)
      ensures ret != -1 ==> exists n: Node :: n in old(info) && n.key == sockid && info == old(info) - {n}
      ensures Valid() <==> old(Valid()) && !old(Ready(sockid))
    {
      hide RbTree.Head.Valid, RbTree.Head.Order, NoDup, Without;
      var epi := Find(sockid);
      if epi == null {
        return -1;
      }
      OnlyOne(epi);
      ghost var at;
      epi, at := tree.Remove(epi);
      Shorter(old(tree.Order()), at);
      rbcnt := rbcnt - 1;
      info := info - {epi};
      ret := 0;
    }

    static lemma Shorter(s: seq<Node>, at: nat)
      requires at < |s|
      ensures |Without(s, at)| == |s| - 1
    {
    }

    /** EPOLL_CTL_MOD. */
    method Mod(sockid: int, events: set<int>) returns (ret: int)
      requires Consistent()
      modifies `info
      ensures Consistent() && (Valid() <==> old(Valid())) && info.Keys == old(info).Keys
      ensures ret == if old(Registered(sockid)) then 0 else -1
      ensures forall n :: n in info ==>
        info[n] == if n.key == sockid then old(info)[n].(events := events + {ERR, HUP}) else old(info)[n]
    {
      hide RbTree.Head.Valid, RbTree.Head.Order, NoDup;
      var epi := Find(sockid);
      if epi == null {
        return -1;
      }
      OnlyOne(epi);
      info := info[epi := info[epi].(events := events + {ERR, HUP})];
      ret := 0;
    }

    /** No two items have the same socket. */
    lemma OnlyOne(epi: Node)
      requires Consistent() && epi in info
      ensures forall n :: n in info && n.key == epi.key ==> n == epi
    {
      hide NoDup;
      forall n | n in info && n.key == epi.key ensures n == epi {
        tree.Members(n);
        tree.Members(epi);
        SameKey(tree.Order(), n, epi);
      }
    }

    static lemma SameKey(s: seq<Node>, a: Node, b: Node)
      requires Sorted(s) && a in s && b in s && a.key == b.key
      ensures a == b
    {
      var i :| 0 <= i < |s| && s[i] == a;
      var j :| 0 <= j < |s| && s[j] == b;
    }

    /** epoll_event_callback for a registered socket: the item becomes ready, or gathers the event if it is already. */
    method Callback(sockid: int, event: int) returns (ret: int)
      requires Valid() && Registered(sockid)
      modifies `info, `rdlist, `rdnum
      ensures Valid() && info.Keys == old(info).Keys
      ensures exists n: Node :: (
        && n in old(info) && n.key == sockid && info[n].ready && ret == (if old(info)[n].ready then 1 else 0)
        && rdlist == (if old(info)[n].ready then old(rdlist) else [n] + old(rdlist))
        && info[n].events == old(info)[n].events + (if old(info)[n].ready then {event} else {})
        && forall m :: m in info && m != n ==> info[m] == old(info)[m])
    {
      hide RbTree.Head.Valid, RbTree.Head.Order, NoDup;
      var found := Find(sockid);
      var epi: Node := found;
      if info[epi].ready {
        info := info[epi := info[epi].(events := info[epi].events + {event})];
        return 1;
      }
      ConsIn(rdlist, epi);
      info := info[epi := info[epi].(ready := true)];
      rdlist := [epi] + rdlist;
      rdnum := rdnum + 1;
      ret := 0;
    }

    /** The first ready item leaves the list. */
    method TakeFirst() returns (mask: set<int>)
      requires Valid() && rdlist != []
      modifies `info, `rdlist, `rdnum
      ensures Valid() && info.Keys == old(info).Keys && rdnum == old(rdnum) - 1
      ensures rdlist == old(rdlist)[1..] && old(rdlist)[0] in info && mask == info[old(rdlist)[0]].events
      ensures forall n :: n in info ==> info[n].events == old(info)[n].events
    {
      hide RbTree.Head.Valid, RbTree.Head.Order, NoDup;
      var epi := rdlist[0];
      HeadIn(rdlist);
      rdlist := rdlist[1..];
      info := info[epi := info[epi].(ready := false)];
      mask := info[epi].events;
      rdnum := rdnum - 1;
    }

    /** How many items epoll_wait delivers. */
    function Share(max: int): nat
      reads `rdlist
    {
      if max <= 0 then 0 else if |rdlist| > max then max else |rdlist|
    }

    /** The locked part of epoll_wait: as many ready items as there are, up to `max`, leave the list and are delivered
        with their masks, each once. */
    method Wait(max: int) returns (ret: int, out: seq<set<int>>)
      requires Valid()
      modifies `info, `rdlist, `rdnum
      ensures Valid() && info.Keys == old(info).Keys
      ensures ret == (if max <= 0 then -1 else |out|)
      ensures |out| == old(Share(max)) && rdlist == old(rdlist)[|out|..]
      ensures forall i :: 0 <= i < |out| ==> old(rdlist)[i] in info && out[i] == info[old(rdlist)[i]].events
      ensures forall n :: n in info ==> info[n].events == old(info)[n].events && (info[n].ready <==> n in rdlist)
      ensures NoDup(old(rdlist))
    {
      hide RbTree.Head.Valid, RbTree.Head.Order, NoDup;
      out := [];
      if max <= 0 {
        return -1, [];
      }
      var num := if rdnum > max then max else rdnum;
      while num != 0
        invariant Valid() && info.Keys == old(info).Keys
        invariant 0 <= num <= rdnum && |out| + num == old(Share(max))
        invariant |out| <= |old(rdlist)| && rdlist == old(rdlist)[|out|..]
        invariant forall i :: 0 <= i < |out| ==> old(rdlist)[i] in info && out[i] == info[old(rdlist)[i]].events
        invariant forall n :: n in info ==> info[n].events == old(info)[n].events
        decreases num
      {
        var mask := TakeFirst();
        out := out + [mask];
        num := num - 1;
      }
      ret := |out|;
    }

    /** One operation.  It does not run if it fails the assertion of epoll_event_callback, on a socket that is not
        registered, or if it would work on a list that refers to a freed item (`dangling`). */
    method Do(op: Op, dangling: bool) returns (ran: bool, now: bool)
      requires Consistent() && (Valid() <==> !dangling)
      modifies this, tree, tree.nodes
      ensures Consistent() && (Valid() <==> !now) && fresh(tree.nodes - old(tree.nodes))
      ensures now <==> dangling || (op.Unregister? && HasReady(old(Seen()), op.sockid))
      ensures ran ==> Did(op, old(Seen()), Seen())
      ensures ran <==> (op.Raise? ==> !dangling && old(Registered(op.sockid))) && (op.Await? ==> !dangling)
      ensures !ran ==> info == old(info) && rdlist == old(rdlist)
      ensures !ran && !dangling ==> op.Raise? && !Registered(op.sockid)
    {
      hide RbTree.Head.Valid, RbTree.Head.Order, NoDup, Poll.Consistent;
      ran, now := true, dangling;
      match op
      case Register(sockid, events) => var ret := Add(sockid, events);
      case Modify(sockid, events) => var ret := Mod(sockid, events);
      case Unregister(sockid) =>
        now := IsReady(sockid, dangling);
        var ret := Del(sockid);
      case Raise(sockid, event) =>
        var epi := Find(sockid);
        ran := !dangling && epi != null;
        if ran { var ret := Callback(sockid, event); }
      case Await(max) =>
        ran := !dangling;
        if ran { var ret, out := Wait(max); }
    }

    method IsReady(sockid: int, dangling: bool) returns (now: bool)
      requires Consistent()
      ensures now <==> dangling || Ready(sockid)
    {
      hide RbTree.Head.Valid, RbTree.Head.Order, NoDup;
      var epi := Find(sockid);
      if epi != null {
        OnlyOne(epi);
        now := dangling || info[epi].ready;
      } else {
        now := dangling;
      }
    }

    /** Over any run the counters agree with the tree and the list, and no item is listed twice; every listed item is
        registered exactly as long as no ready one has been unregistered.  `views` are the states passed through. */
    method Run(ops: seq<Op>) returns (done: nat, dangling: bool, ghost views: seq<View>)
      requires Valid()
      modifies this, tree, tree.nodes
      ensures Consistent() && (Valid() <==> !dangling) && done <= |ops|
      ensures |views| == done + 1 && views[0] == old(Seen()) && views[done] == Seen()
      ensures forall i :: 0 <= i < done ==> Did(ops[i], views[i], views[i + 1])
      ensures dangling <==> exists i :: 0 <= i < done && ops[i].Unregister? && HasReady(views[i], ops[i].sockid)
      ensures !dangling && done < |ops| ==> ops[done].Raise? && !Registered(ops[done].sockid)
      ensures dangling && done < |ops| ==> ops[done].Raise? || ops[done].Await?
    {
      hide Poll.Valid, Poll.Consistent, Poll.Registered, Poll.Ready, Did, HasReady;
      AlsoConsistent();
      done, dangling, views := 0, false, [Seen()];
      var ran := true;
      while done < |ops|
        invariant Consistent() && (Valid() <==> !dangling) && done <= |ops|
        invariant fresh(tree.nodes - old(tree.nodes))
        invariant |views| == done + 1 && views[0] == old(Seen()) && views[done] == Seen()
        invariant forall i :: 0 <= i < done ==> Did(ops[i], views[i], views[i + 1])
        invariant dangling <==> exists i :: 0 <= i < done && ops[i].Unregister? && HasReady(views[i], ops[i].sockid)
        decreases |ops| - done
      {
        var now;
        ran, now := Do(ops[done], dangling);
        if !ran {
          break;
        }
        views := views + [Seen()];
        dangling := now;
        done := done + 1;
      }
    }

    lemma AlsoConsistent()
      requires Valid()
      ensures Consistent()
    {
    }

    /** epoll_destroy empties the list and the tree. */
    method Destroy()
      requires Valid()
      modifies this, tree, tree.nodes
      ensures rdlist == [] && tree.Order() == [] && tree.nodes == {}
    {
      hide RbTree.Head.Valid, RbTree.Head.Order, NoDup, Without;
      while rdlist != []
        modifies `rdlist
        decreases |rdlist|
      {
        rdlist := rdlist[1..];
      }
      ghost var was := tree.nodes;
      var epi := tree.MinMax(-1);
      Least(epi);
      while epi != null
        invariant tree.Valid() && tree.nodes <= was && rdlist == []
        invariant if epi != null then epi in tree.nodes else tree.Order() == [] && tree.nodes == {}
        decreases |tree.Order()|
      {
        ghost var at, order;
        order := tree.Order();
        epi, at := tree.Remove(epi);
        Shorter(order, at);
        epi := tree.MinMax(-1);
        Least(epi);
      }
    }

    lemma Least(epi: Node?)
      requires tree.Valid() && (epi == null <==> tree.Order() == []) && (epi != null ==> epi == tree.Order()[0])
      ensures if epi != null then epi in tree.nodes else tree.nodes == {}
    {
      hide RbTree.Head.Valid, RbTree.Head.Order;
      if epi != null {
        tree.Members(epi);
      } else {
        forall n | n in tree.nodes ensures false { tree.Members(n); }
      }
    }
  }

  /** A run after which the ready list refers to a freed item: register, become ready, unregister. */
  method DeleteWhileReady() returns (p: Poll)
    ensures p.Consistent() && !p.Valid() && |p.rdlist| == 1 && p.tree.nodes == {}
  {
    hide RbTree.Head.Valid, RbTree.Head.Order, NoDup;
    p := new Poll();
    var r := p.Add(3, {1});
    r := p.Callback(3, 1);
    r := p.Del(3);
    assert p.tree.nodes == {};
  }
}
