/** Red-black trees as values: what the pointer code of include/nty_tree.h means.

    A position in a tree is a subtree together with its context, the frames from the subtree up to the root.  The
    rotations and recolourings of the fixup loops rewrite the subtree and its nearest frames.  Frames carry the side
    of the hole, so that a statement about one branch of a loop is also the statement about its mirror image. */
module RbShape {
  /** An element of the tree: its key, and the fields of RB_ENTRY (include/nty_tree.h:306-312). */
  class Node {
    const key: int
    var left: Node?
    var right: Node?
    var parent: Node?
    var red: bool

    constructor (key: int)
      ensures this.key == key
    {
      this.key, left, right, parent, red := key, null, null, null, false;
    }
  }

  datatype Tree = Leaf | Bin(l: Tree, n: Node, red: bool, r: Tree)

  /** `In(left, up, n, red, sib)`: the hole is the left (or else right) child of `n`, and `sib` the other child. */
  datatype Ctx = Top | In(left: bool, up: Ctx, n: Node, red: bool, sib: Tree)

  function Root(t: Tree): Node? { if t.Leaf? then null else t.n }

  function Parent(c: Ctx): Node? { if c.Top? then null else c.n }

  function Join(left: bool, t: Tree, n: Node, red: bool, sib: Tree): Tree {
    if left then Bin(t, n, red, sib) else Bin(sib, n, red, t)
  }

  function Fill(c: Ctx, t: Tree): Tree
    requires c.In?
  {
    Join(c.left, t, c.n, c.red, c.sib)
  }

  function Plug(c: Ctx, t: Tree): Tree { if c.Top? then t else Plug(c.up, Fill(c, t)) }

  function Nodes(t: Tree): set<Node> { if t.Leaf? then {} else Nodes(t.l) + {t.n} + Nodes(t.r) }

  function CtxNodes(c: Ctx): set<Node> { if c.Top? then {} else CtxNodes(c.up) + {c.n} + Nodes(c.sib) }

  function Depth(c: Ctx): nat { if c.Top? then 0 else 1 + Depth(c.up) }

  function Paint(t: Tree, red: bool): Tree { if t.Leaf? then t else t.(red := red) }

  function Black(t: Tree): Tree { Paint(t, false) }

  // ---------------------------------------------------------------- order

  function Inorder(t: Tree): seq<Node> { if t.Leaf? then [] else Inorder(t.l) + [t.n] + Inorder(t.r) }

  function Before(c: Ctx): seq<Node> {
    if c.Top? then [] else if c.left then Before(c.up) else Before(c.up) + Inorder(c.sib) + [c.n]
  }

  function After(c: Ctx): seq<Node> {
    if c.Top? then [] else if c.left then [c.n] + Inorder(c.sib) + After(c.up) else After(c.up)
  }

  lemma {:induction false} InorderPlug(c: Ctx, t: Tree)
    ensures Inorder(Plug(c, t)) == Before(c) + Inorder(t) + After(c)
    decreases c
  {
    if c.In? {
      InorderPlug(c.up, Fill(c, t));
      var a, b, i, s := Before(c.up), After(c.up), Inorder(t), Inorder(c.sib);
      if c.left {
        assert a + (i + [c.n] + s) + b == a + i + ([c.n] + s + b);
      } else {
        assert a + (s + [c.n] + i) + b == (a + s + [c.n]) + i + b;
      }
    }
  }

  lemma {:induction false} InorderNodes(t: Tree, n: Node)
    ensures n in Inorder(t) <==> n in Nodes(t)
  {
    if t.Bin? {
      InorderNodes(t.l, n);
      InorderNodes(t.r, n);
    }
  }

  /** Rewriting a subtree without changing its order leaves the order of the whole tree. */
  lemma PlugSameOrder(c: Ctx, t: Tree, u: Tree)
    requires Inorder(t) == Inorder(u)
    ensures Inorder(Plug(c, t)) == Inorder(Plug(c, u))
  {
    InorderPlug(c, t);
    InorderPlug(c, u);
  }

  lemma RotateSameOrder(left: bool, a: Tree, x: Node, xRed: bool, b: Tree, y: Node, yRed: bool, d: Tree, p: bool,
      q: bool)
    ensures Inorder(Join(left, a, x, xRed, Join(left, b, y, yRed, d)))
         == Inorder(Join(left, Join(left, a, x, p, b), y, q, d))
  {
    var i, j, k := Inorder(a), Inorder(b), Inorder(d);
    if left {
      assert i + [x] + (j + [y] + k) == (i + [x] + j) + [y] + k;
    } else {
      assert (k + [y] + j) + [x] + i == k + [y] + (j + [x] + i);
    }
  }

  ghost predicate Sorted(s: seq<Node>) {
    forall i, j :: 0 <= i < j < |s| ==> s[i].key < s[j].key
  }

  /** The search for `key` has come down to the hole of `c`: it lies between what is before and after. */
  ghost predicate Heading(c: Ctx, key: int) {
    (forall n :: n in Before(c) ==> n.key < key) && (forall n :: n in After(c) ==> key < n.key)
  }

  lemma Middle(a: seq<Node>, n: Node, b: seq<Node>)
    requires Sorted(a + [n] + b)
    ensures forall m :: m in a ==> m.key < n.key
    ensures forall m :: m in b ==> n.key < m.key
  {
    var s := a + [n] + b;
    assert s[|a|] == n;
    forall m | m in a ensures m.key < n.key {
      var k :| 0 <= k < |a| && a[k] == m;
      assert s[k] == m;
    }
    forall m | m in b ensures n.key < m.key {
      var k :| 0 <= k < |b| && b[k] == m;
      assert s[|a| + 1 + k] == m;
    }
  }

  lemma Parts(c: Ctx, t: Tree)
    requires t.Bin? && Sorted(Inorder(Plug(c, t)))
    ensures forall n :: n in Inorder(t.l) ==> n.key < t.n.key
    ensures forall n :: n in Inorder(t.r) ==> t.n.key < n.key
  {
    hide Sorted;
    InorderPlug(c, t);
    var a, l, r, b := Before(c), Inorder(t.l), Inorder(t.r), After(c);
    assert a + (l + [t.n] + r) + b == (a + l) + [t.n] + (r + b);
    Middle(a + l, t.n, r + b);
    assert forall n :: n in l ==> n in a + l;
    assert forall n :: n in r ==> n in r + b;
  }

  lemma GoLeft(c: Ctx, t: Tree, key: int)
    requires t.Bin? && Heading(c, key) && key < t.n.key && Sorted(Inorder(Plug(c, t)))
    ensures Heading(In(true, c, t.n, t.red, t.r), key)
  {
    Parts(c, t);
  }

  lemma GoRight(c: Ctx, t: Tree, key: int)
    requires t.Bin? && Heading(c, key) && t.n.key < key && Sorted(Inorder(Plug(c, t)))
    ensures Heading(In(false, c, t.n, t.red, t.l), key)
  {
    Parts(c, t);
  }

  lemma Found(c: Ctx, t: Tree)
    requires t.Bin?
    ensures t.n in Inorder(Plug(c, t))
  {
    InorderPlug(c, t);
  }

  lemma NotFound(c: Ctx, key: int)
    requires Heading(c, key)
    ensures forall n :: n in Inorder(Plug(c, Leaf)) ==> n.key != key
  {
    InorderPlug(c, Leaf);
  }

  /** Filling the hole the search has reached inserts in order. */
  lemma InorderAdd(c: Ctx, elm: Node)
    requires Sorted(Inorder(Plug(c, Leaf))) && Heading(c, elm.key)
    ensures Inorder(Plug(c, Leaf)) == Before(c) + After(c)
    ensures Inorder(Plug(c, Bin(Leaf, elm, true, Leaf))) == Before(c) + [elm] + After(c)
    ensures Sorted(Before(c) + [elm] + After(c))
  {
    InorderPlug(c, Leaf);
    InorderPlug(c, Bin(Leaf, elm, true, Leaf));
    SortedAdd(Before(c), elm, After(c));
  }

  lemma SortedAdd(a: seq<Node>, n: Node, b: seq<Node>)
    requires Sorted(a + b) && (forall m :: m in a ==> m.key < n.key) && (forall m :: m in b ==> n.key < m.key)
    ensures Sorted(a + [n] + b)
  {
    var s, u := a + b, a + [n] + b;
    forall i, j | 0 <= i < j < |u| ensures u[i].key < u[j].key {
      if i != |a| && j != |a| {
        var k, l := if i < |a| then i else i - 1, if j < |a| then j else j - 1;
        assert s[k].key < s[l].key;
      }
    }
  }

  // ---------------------------------------------------------------- balance

  predicate BlackRoot(t: Tree) { t.Leaf? || !t.red }

  predicate RedParent(c: Ctx) { c.In? && c.red }

  /** No red node has a red child. */
  predicate NoRedRed(t: Tree) {
    t.Bin? ==> NoRedRed(t.l) && NoRedRed(t.r) && (t.red ==> BlackRoot(t.l) && BlackRoot(t.r))
  }

  /** Every path down from the root meets `h` black nodes. */
  predicate Height(t: Tree, h: nat) {
    if t.Leaf? then h == 0
    else if t.red then Height(t.l, h) && Height(t.r, h)
    else 0 < h && Height(t.l, h - 1) && Height(t.r, h - 1)
  }

  ghost predicate Balanced(t: Tree) {
    BlackRoot(t) && NoRedRed(t) && exists h: nat :: Height(t, h)
  }

  /** The context of a hole for a subtree of black height `h`: apart from the edge into the hole everything is as it
      should be, and a red frame is not the root and hangs under a black one. */
  predicate Fits(c: Ctx, h: nat) {
    c.In? ==>
      && NoRedRed(c.sib) && Height(c.sib, h)
      && (c.red ==> BlackRoot(c.sib) && c.up.In? && !c.up.red)
      && Fits(c.up, if c.red then h else h + 1)
  }

  /** A fitting subtree, red at the root only under a black parent, completes a balanced tree. */
  lemma {:induction false} PlugBalanced(c: Ctx, t: Tree, h: nat)
    requires Fits(c, h) && Height(t, h) && NoRedRed(t)
    requires BlackRoot(t) || (c.In? && !c.red)
    ensures Balanced(Plug(c, t))
    decreases c
  {
    if c.In? { PlugBalanced(c.up, Fill(c, t), if c.red then h else h + 1); }
  }

  /** Conversely, at every position of a balanced tree the subtree fits its context. */
  lemma {:induction false} FocusBalanced(c: Ctx, t: Tree) returns (h: nat)
    requires Balanced(Plug(c, t))
    ensures Fits(c, h) && Height(t, h) && NoRedRed(t) && (BlackRoot(t) || (c.In? && !c.red))
    decreases c
  {
    if c.Top? {
      h :| Height(t, h);
    } else {
      h := FocusBalanced(c.up, Fill(c, t));
      if !c.red { h := h - 1; }
    }
  }

  /** The longest path from the root is at most twice the shortest: this is what the colours are for. */
  lemma BalancedDepth(t: Tree)
    requires Balanced(t)
    ensures MaxDepth(t) <= 2 * MinDepth(t)
  {
    var h: nat :| Height(t, h);
    HeightBounds(t, h);
  }

  lemma {:induction false} HeightBounds(t: Tree, h: nat)
    requires NoRedRed(t) && Height(t, h)
    ensures MinDepth(t) >= h
    ensures MaxDepth(t) <= 2 * h + (if BlackRoot(t) then 0 else 1)
  {
    if t.Bin? {
      HeightBounds(t.l, if t.red then h else h - 1);
      HeightBounds(t.r, if t.red then h else h - 1);
    }
  }

  function MinDepth(t: Tree): nat {
    if t.Leaf? then 0 else 1 + if MinDepth(t.l) < MinDepth(t.r) then MinDepth(t.l) else MinDepth(t.r)
  }

  function MaxDepth(t: Tree): nat {
    if t.Leaf? then 0 else 1 + if MaxDepth(t.l) > MaxDepth(t.r) then MaxDepth(t.l) else MaxDepth(t.r)
  }

  // ---------------------------------------------------------------- the insertion fixup

  /** What the loop of RB_INSERT_COLOR keeps: only the edge from `t` up to its parent may join two red nodes. */
  ghost predicate Inserting(c: Ctx, t: Tree, h: nat) {
    Fits(c, h) && t.Bin? && t.red && Height(t, h) && NoRedRed(t)
  }

  /** The uncle is red: parent and uncle black, grandparent red. */
  function Recoloured(c: Ctx, t: Tree): Tree
    requires c.In? && c.up.In?
  {
    Join(c.up.left, Black(Fill(c, t)), c.up.n, true, Black(c.up.sib))
  }

  lemma Recolour(c: Ctx, t: Tree, h: nat)
    requires Inserting(c, t, h) && RedParent(c) && !BlackRoot(c.up.sib)
    ensures Inserting(c.up.up, Recoloured(c, t), h + 1)
    ensures Inorder(Plug(c.up.up, Recoloured(c, t))) == Inorder(Plug(c, t))
  {
    assert Fits(c.up, h) && Fits(c.up.up, h + 1);
    assert Plug(c, t) == Plug(c.up.up, Fill(c.up, Fill(c, t)));
    PlugSameOrder(c.up.up, Recoloured(c, t), Fill(c.up, Fill(c, t)));
  }

  /** The uncle is black and `t` is the inner grandchild: turn it into the outer one. */
  function Straight(c: Ctx, t: Tree): (Ctx, Tree)
    requires c.In? && c.up.In? && t.Bin?
  {
    var s := c.up.left;
    (In(s, c.up, t.n, true, if s then t.r else t.l), Join(s, c.sib, c.n, true, if s then t.l else t.r))
  }

  lemma Straighten(c: Ctx, t: Tree, h: nat)
    requires Inserting(c, t, h) && RedParent(c) && c.left != c.up.left
    ensures Inserting(Straight(c, t).0, Straight(c, t).1, h)
    ensures Inorder(Plug(Straight(c, t).0, Straight(c, t).1)) == Inorder(Plug(c, t))
  {
    var (d, u) := Straight(c, t);
    var s := c.up.left;
    RotateSameOrder(s, c.sib, c.n, true, if s then t.l else t.r, t.n, true, d.sib, true, true);
    PlugSameOrder(c.up, Fill(d, u), Fill(c, t));
  }

  /** The uncle is black and `t` the outer grandchild: the parent takes the grandparent's place. */
  function Lifted(c: Ctx): Ctx
    requires c.In? && c.up.In?
  {
    In(c.left, c.up.up, c.n, false, Join(c.left, c.sib, c.up.n, true, c.up.sib))
  }

  lemma Lift(c: Ctx, t: Tree, h: nat)
    requires Inserting(c, t, h) && RedParent(c) && c.left == c.up.left && BlackRoot(c.up.sib)
    ensures Inserting(Lifted(c), t, h)
    ensures Inorder(Plug(Lifted(c), t)) == Inorder(Plug(c, t))
  {
    var s := c.left;
    assert Fits(c.up, h) && Fits(c.up.up, h + 1);
    RotateSameOrder(!s, c.up.sib, c.up.n, false, c.sib, c.n, true, t, true, false);
    assert Fill(c.up, Fill(c, t)) == Join(!s, c.up.sib, c.up.n, false, Join(!s, c.sib, c.n, true, t));
    assert Plug(c, t) == Plug(c.up.up, Fill(c.up, Fill(c, t)));
    PlugSameOrder(c.up.up, Fill(Lifted(c), t), Fill(c.up, Fill(c, t)));
  }

  lemma NewLeaf(c: Ctx, elm: Node, h: nat)
    requires Fits(c, h) && Height(Leaf, h)
    ensures Inserting(c, Bin(Leaf, elm, true, Leaf), h)
  {
  }

  /** Once the parent is black, painting the root black completes the insertion. */
  lemma InsertDone(c: Ctx, t: Tree, h: nat)
    requires Inserting(c, t, h) && !RedParent(c)
    ensures Plug(c, t).Bin? && Balanced(Black(Plug(c, t))) && Inorder(Black(Plug(c, t))) == Inorder(Plug(c, t))
  {
    if c.Top? {
      PlugBalanced(Top, Black(t), h + 1);
    } else {
      PlugBalanced(c, t, h);
      PlugBin(c, t);
    }
  }

  lemma {:induction false} PlugBin(c: Ctx, t: Tree)
    requires c.In? || t.Bin?
    ensures Plug(c, t).Bin?
    decreases c
  {
    if c.In? { PlugBin(c.up, Fill(c, t)); }
  }

  // ---------------------------------------------------------------- the removal fixup

  /** What the loop of RB_REMOVE_COLOR keeps: the paths through `t` miss one black node, and nothing else is wrong
      except perhaps that `t` is red under a red parent. */
  ghost predicate Short(c: Ctx, t: Tree, h: nat) {
    Fits(c, h + 1) && Height(t, h) && NoRedRed(Black(t))
  }

  /** The child of `t` on the side `left`, and the other one. */
  function Near(left: bool, t: Tree): Tree
    requires t.Bin?
  {
    if left then t.l else t.r
  }

  function Far(left: bool, t: Tree): Tree
    requires t.Bin?
  {
    Near(!left, t)
  }

  /** A red root makes up for the missing black node; at the root of the whole tree none is missing. */
  lemma RemoveDone(c: Ctx, t: Tree, h: nat)
    requires Short(c, t, h) && (c.Top? || !BlackRoot(t))
    ensures Balanced(Plug(c, Black(t))) && Inorder(Plug(c, Black(t))) == Inorder(Plug(c, t))
  {
    PlugBalanced(c, Black(t), if BlackRoot(t) then h else h + 1);
    PlugSameOrder(c, t, Black(t));
  }

  /** The sibling is red: it takes the parent's place, and one of its (black) children becomes the sibling. */
  function Demoted(c: Ctx): Ctx
    requires c.In? && c.sib.Bin?
  {
    In(c.left, In(c.left, c.up, c.sib.n, false, Far(c.left, c.sib)), c.n, true, Near(c.left, c.sib))
  }

  lemma Demote(c: Ctx, t: Tree, h: nat)
    requires Short(c, t, h) && c.In? && !BlackRoot(c.sib)
    ensures !c.red && Short(Demoted(c), t, h) && BlackRoot(Demoted(c).sib)
    ensures Inorder(Plug(Demoted(c), t)) == Inorder(Plug(c, t))
  {
    var s, T := c.left, c.sib;
    RotateSameOrder(s, t, c.n, false, Near(s, T), T.n, true, Far(s, T), true, false);
    assert Fill(c, t) == Join(s, t, c.n, false, Join(s, Near(s, T), T.n, true, Far(s, T)));
    PlugSameOrder(c.up, Fill(Demoted(c).up, Fill(Demoted(c), t)), Fill(c, t));
  }

  /** The sibling and both nephews are black: redden the sibling, and the parent's paths all miss one black node. */
  lemma Redden(c: Ctx, t: Tree, h: nat)
    requires Short(c, t, h) && c.In? && BlackRoot(t) && BlackRoot(c.sib)
    requires c.sib.Bin? ==> BlackRoot(c.sib.l) && BlackRoot(c.sib.r)
    ensures c.sib.Bin? && Short(c.up, Fill(c.(sib := Paint(c.sib, true)), t), if c.red then h else h + 1)
    ensures Inorder(Plug(c.up, Fill(c.(sib := Paint(c.sib, true)), t))) == Inorder(Plug(c, t))
  {
    assert Black(t) == t;
    assert Height(Paint(c.sib, true), h) && NoRedRed(Paint(c.sib, true));
    PlugSameOrder(c.up, Fill(c.(sib := Paint(c.sib, true)), t), Fill(c, t));
  }

  /** Only the near nephew is red: it takes the sibling's place. */
  function Turned(c: Ctx): Ctx
    requires c.In? && c.sib.Bin? && Near(c.left, c.sib).Bin?
  {
    var s, m := c.left, Near(c.left, c.sib);
    c.(sib := Join(s, Near(s, m), m.n, false, Join(s, Far(s, m), c.sib.n, true, Far(s, c.sib))))
  }

  lemma Turn(c: Ctx, t: Tree, h: nat)
    requires Short(c, t, h) && c.In? && c.sib.Bin? && BlackRoot(c.sib)
    requires !BlackRoot(Near(c.left, c.sib)) && BlackRoot(Far(c.left, c.sib))
    ensures Short(Turned(c), t, h) && BlackRoot(Turned(c).sib) && !BlackRoot(Far(c.left, Turned(c).sib))
    ensures Inorder(Plug(Turned(c), t)) == Inorder(Plug(c, t))
  {
    var s, T, m := c.left, c.sib, Near(c.left, c.sib);
    var v := Join(s, Far(s, m), T.n, true, Far(s, T));
    assert Height(m, h) && NoRedRed(m) && Height(Far(s, T), h) && NoRedRed(Far(s, T));
    assert Height(v, h) && NoRedRed(v);
    RotateSameOrder(!s, Far(s, T), T.n, false, Far(s, m), m.n, true, Near(s, m), true, false);
    assert T == Join(!s, Far(s, T), T.n, false, Join(!s, Far(s, m), m.n, true, Near(s, m)));
    assert Inorder(Turned(c).sib) == Inorder(T);
    PlugSameOrder(c.up, Fill(Turned(c), t), Fill(c, t));
  }

  /** The far nephew is red: it replaces the missing black node. */
  function Settled(c: Ctx, t: Tree): Tree
    requires c.In? && c.sib.Bin?
  {
    var s := c.left;
    Join(s, Join(s, t, c.n, false, Near(s, c.sib)), c.sib.n, c.red, Black(Far(s, c.sib)))
  }

  lemma Settle(c: Ctx, t: Tree, h: nat)
    requires Short(c, t, h) && c.In? && BlackRoot(t)
    requires c.sib.Bin? && BlackRoot(c.sib) && !BlackRoot(Far(c.left, c.sib))
    ensures Balanced(Plug(c.up, Settled(c, t)))
    ensures Inorder(Plug(c.up, Settled(c, t))) == Inorder(Plug(c, t))
  {
    var s, T := c.left, c.sib;
    assert Black(t) == t && Height(Far(s, T), h) && NoRedRed(Far(s, T)) && Height(Near(s, T), h)
        && NoRedRed(Near(s, T));
    var v, w := Black(Far(s, T)), Join(s, t, c.n, false, Near(s, T));
    assert Height(v, h + 1) && NoRedRed(v) && Height(w, h + 1) && NoRedRed(w);
    PlugBalanced(c.up, Settled(c, t), if c.red then h + 1 else h + 2);
    RotateSameOrder(s, t, c.n, c.red, Near(s, T), T.n, false, Black(Far(s, T)), false, c.red);
    assert Inorder(Join(s, Near(s, T), T.n, false, Black(Far(s, T)))) == Inorder(T);
    PlugSameOrder(c.up, Settled(c, t), Fill(c, t));
  }

  // ---------------------------------------------------------------- removal of a node

  /** The tree is `d` and `u` with one node gone, which was red or black. */
  ghost predicate Gone(red: bool, d: Ctx, u: Tree, k: nat) {
    if red then Fits(d, k) && Height(u, k) && NoRedRed(u) && BlackRoot(u) else Short(d, u, k)
  }

  /** `u` is `t` without its root, which has at most one child. */
  predicate OnlyChild(t: Tree, u: Tree) {
    t.Bin? && ((t.l.Leaf? && u == t.r) || (t.r.Leaf? && u == t.l))
  }

  lemma GoneLone(c: Ctx, t: Tree, u: Tree, h: nat) returns (k: nat)
    requires Fits(c, h) && Height(t, h) && NoRedRed(t) && OnlyChild(t, u)
    ensures Gone(t.red, c, u, k)
  {
    k := if t.red then h else h - 1;
    assert NoRedRed(u) && Height(u, k);
    assert u.Bin? ==> NoRedRed(u.l) && NoRedRed(u.r);
  }

  lemma GoneRed(d: Ctx, u: Tree, k: nat)
    requires Gone(true, d, u, k)
    ensures Balanced(Plug(d, u))
  {
    PlugBalanced(d, u, k);
  }

  /** `s` without its element at `at`. */
  function Without(s: seq<Node>, at: nat): seq<Node>
    requires at < |s|
  {
    s[..at] + s[at + 1..]
  }

  lemma SortedWithout(s: seq<Node>, at: nat)
    requires Sorted(s) && at < |s|
    ensures Sorted(Without(s, at))
  {
    var u := Without(s, at);
    forall i, j | 0 <= i < j < |u| ensures u[i].key < u[j].key {
      assert u[i] == s[if i < at then i else i + 1] && u[j] == s[if j < at then j else j + 1];
    }
  }

  lemma WithoutMiddle(a: seq<Node>, n: Node, b: seq<Node>)
    ensures Without(a + [n] + b, |a|) == a + b && (a + [n] + b)[|a|] == n
  {
  }

  lemma OrderLone(c: Ctx, t: Tree, u: Tree) returns (at: nat)
    requires OnlyChild(t, u)
    ensures at < |Inorder(Plug(c, t))| && Inorder(Plug(c, t))[at] == t.n
    ensures Inorder(Plug(c, u)) == Without(Inorder(Plug(c, t)), at)
  {
    InorderPlug(c, t);
    InorderPlug(c, u);
    assert Inorder(u) == Inorder(t.l) + Inorder(t.r);
    at := Shorten(Before(c), Inorder(t.l), t.n, Inorder(t.r), After(c));
  }

  lemma Shorten(a: seq<Node>, l: seq<Node>, n: Node, r: seq<Node>, b: seq<Node>) returns (at: nat)
    ensures var s := a + (l + [n] + r) + b; at < |s| && s[at] == n && Without(s, at) == a + (l + r) + b
  {
    var s := a + (l + [n] + r) + b;
    at := |a + l|;
    assert s == (a + l) + [n] + (r + b);
    WithoutMiddle(a + l, n, r + b);
    assert a + (l + r) + b == (a + l) + (r + b);
  }

  /** `d` goes down from `base` along left children only. */
  predicate LeftPath(d: Ctx, base: Ctx)
    decreases d
  {
    d == base || (d.In? && d.left && LeftPath(d.up, base))
  }

  /** The subtree at `base`, when `t` is at `d`. */
  function FillTo(d: Ctx, base: Ctx, t: Tree): Tree
    requires LeftPath(d, base)
    decreases d
  {
    if d == base then t else FillTo(d.up, base, Fill(d, t))
  }

  /** `d` with the node `m` in the frame `base`. */
  function Rebase(d: Ctx, base: Ctx, m: Node): Ctx
    requires LeftPath(d, base) && base.In?
    decreases d
  {
    if d == base then base.(n := m) else d.(up := Rebase(d.up, base, m))
  }

  lemma {:induction false} RebaseSame(d: Ctx, base: Ctx)
    requires LeftPath(d, base) && base.In?
    ensures Rebase(d, base, base.n) == d
    decreases d
  {
    if d != base { RebaseSame(d.up, base); }
  }

  lemma {:induction false} RebasePlug(d: Ctx, base: Ctx, m: Node, t: Tree)
    requires LeftPath(d, base) && base.In?
    ensures Plug(Rebase(d, base, m), t) == Plug(base.up, Fill(base.(n := m), FillTo(d, base, t)))
    decreases d
  {
    if d != base { RebasePlug(d.up, base, m, Fill(d, t)); }
  }

  lemma {:induction false} RebaseFits(d: Ctx, base: Ctx, m: Node, h: nat)
    requires LeftPath(d, base) && base.In? && Fits(d, h)
    ensures Fits(Rebase(d, base, m), h)
    ensures Rebase(d, base, m).In? && Rebase(d, base, m).red == d.red
    decreases d
  {
    if d != base { RebaseFits(d.up, base, m, if d.red then h else h + 1); }
  }

  lemma {:induction false} InorderFillTo(d: Ctx, base: Ctx, t: Tree)
    requires LeftPath(d, base)
    ensures Inorder(FillTo(d, base, t)) == Inorder(t) + Inorder(FillTo(d, base, Leaf))
    decreases d
  {
    if d != base {
      InorderFillTo(d.up, base, Fill(d, t));
      InorderFillTo(d.up, base, Fill(d, Leaf));
      var i, s, x := Inorder(t), Inorder(d.sib), Inorder(FillTo(d.up, base, Leaf));
      assert (i + [d.n] + s) + x == i + (([] + [d.n] + s) + x);
    }
  }

  /** Taking the successor out of its place and into that of the node to remove: the order loses that node. */
  lemma OrderBoth(d: Ctx, base: Ctx, t: Tree) returns (at: nat)
    requires LeftPath(d, base) && base.In? && !base.left && t.Bin? && t.l.Leaf?
    ensures at < |Inorder(Plug(d, t))| && Inorder(Plug(d, t))[at] == base.n
    ensures Inorder(Plug(Rebase(d, base, t.n), t.r)) == Without(Inorder(Plug(d, t)), at)
  {
    RebaseSame(d, base);
    RebasePlug(d, base, base.n, t);
    RebasePlug(d, base, t.n, t.r);
    InorderFillTo(d, base, t);
    InorderFillTo(d, base, t.r);
    InorderPlug(base.up, Fill(base, FillTo(d, base, t)));
    InorderPlug(base.up, Fill(base.(n := t.n), FillTo(d, base, t.r)));
    at := Shift(Before(base.up), Inorder(base.sib), base.n, t.n, Inorder(t.r), Inorder(FillTo(d, base, Leaf)),
        After(base.up));
  }

  lemma Shift(a: seq<Node>, l: seq<Node>, n: Node, m: Node, r: seq<Node>, x: seq<Node>, b: seq<Node>) returns (at: nat)
    ensures var s := a + (l + [n] + (([] + [m] + r) + x)) + b;
      at < |s| && s[at] == n && Without(s, at) == a + (l + [m] + (r + x)) + b
  {
    var s := a + (l + [n] + (([] + [m] + r) + x)) + b;
    at := |a + l|;
    assert s == (a + l) + [n] + ([m] + r + x + b);
    WithoutMiddle(a + l, n, [m] + r + x + b);
    assert a + (l + [m] + (r + x)) + b == (a + l) + ([m] + r + x + b);
  }

  /** Where in the tree `n` is. */
  lemma {:induction false} Locate(c: Ctx, t: Tree, n: Node) returns (d: Ctx, u: Tree)
    requires n in Nodes(t)
    ensures Plug(d, u) == Plug(c, t) && u.Bin? && u.n == n
    decreases t
  {
    if t.n == n {
      d, u := c, t;
    } else if n in Nodes(t.l) {
      d, u := Locate(In(true, c, t.n, t.red, t.r), t.l, n);
    } else {
      d, u := Locate(In(false, c, t.n, t.red, t.l), t.r, n);
    }
  }

  /** The path to the leftmost (or rightmost) hole. */
  predicate Edge(left: bool, c: Ctx) { c.In? ==> c.left == left && Edge(left, c.up) }

  lemma {:induction false} AtEdge(left: bool, c: Ctx)
    requires Edge(left, c)
    ensures var s := Inorder(Plug(c, Leaf));
      if c.Top? then s == [] else s != [] && c.n == if left then s[0] else s[|s| - 1]
  {
    InorderPlug(c, Leaf);
    EdgeClear(left, c);
  }

  lemma {:induction false} EdgeClear(left: bool, c: Ctx)
    requires Edge(left, c)
    ensures left ==> Before(c) == []
    ensures !left ==> After(c) == []
  {
    if c.In? { EdgeClear(left, c.up); }
  }
}
