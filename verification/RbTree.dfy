/** Red-black trees in the heap: the macros of include/nty_tree.h:338-636 over nodes with left, right and parent
    pointers. */
module RbTree {
  import opened RbShape

  /** The subtree `t` is stored in the fields of its nodes, under the parent `p`. */
  ghost predicate Linked(t: Tree, p: Node?)
    reads Nodes(t)
  {
    t.Bin? ==>
      && t.n.left == Root(t.l) && t.n.right == Root(t.r) && t.n.parent == p && t.n.red == t.red
      && Linked(t.l, t.n) && Linked(t.r, t.n)
  }

  predicate Distinct(t: Tree) {
    t.Bin? ==>
      && t.n !in Nodes(t.l) && t.n !in Nodes(t.r) && Nodes(t.l) !! Nodes(t.r)
      && Distinct(t.l) && Distinct(t.r)
  }

  predicate DistinctCtx(c: Ctx) {
    c.In? ==>
      && c.n !in CtxNodes(c.up) && c.n !in Nodes(c.sib) && CtxNodes(c.up) !! Nodes(c.sib)
      && Distinct(c.sib) && DistinctCtx(c.up)
  }

  ghost predicate Apart(c: Ctx, t: Tree, nodes: set<Node>) {
    && Nodes(t) + CtxNodes(c) == nodes && Nodes(t) !! CtxNodes(c)
    && Distinct(t) && DistinctCtx(c)
  }

  ghost function Child(left: bool, n: Node): Node?
    reads n
  {
    if left then n.left else n.right
  }

  class Head {
    var root: Node?
    ghost var nodes: set<Node>
    ghost var shape: Tree

    /** A search tree, balanced, with consistent links. */
    ghost predicate Valid()
      reads `root, `nodes, `shape, nodes
    {
      At(Top, shape) && Balanced(shape) && Sorted(Inorder(shape))
    }

    ghost function Order(): seq<Node>
      reads `shape
    {
      Inorder(shape)
    }

    constructor ()
      ensures Valid() && Order() == [] && nodes == {}
    {
      root, nodes, shape := null, {}, Leaf;
      new;
      assert Height(Leaf, 0);
    }

    /** The frames of `c` are stored in their nodes, with `hole` where the subtree hangs. */
    ghost predicate Hangs(c: Ctx, hole: Node?)
      reads `root, CtxNodes(c)
    {
      if c.Top? then root == hole else
      && Child(c.left, c.n) == hole && Child(!c.left, c.n) == Root(c.sib)
      && c.n.parent == Parent(c.up) && c.n.red == c.red
      && Linked(c.sib, c.n) && Hangs(c.up, c.n)
    }

    /** The heap holds the tree `Plug(c, t)`, seen from the position of `t`. */
    ghost predicate At(c: Ctx, t: Tree)
      reads `root, `nodes, nodes
    {
      && Apart(c, t, nodes)
      && Linked(t, Parent(c)) && Hangs(c, Root(t))
    }

    lemma Up(c: Ctx, t: Tree)
      requires c.In?
      ensures At(c, t) <==> At(c.up, Fill(c, t))
    {
    }

    /** What the pointers around the position of `t` say. */
    lemma Fields(c: Ctx, t: Tree)
      requires At(c, t)
      ensures t.Bin? ==> t.n in nodes && t.n.left == Root(t.l) && t.n.right == Root(t.r)
      ensures t.Bin? ==> t.n.parent == Parent(c) && t.n.red == t.red
      ensures c.In? ==> c.n in nodes && Child(c.left, c.n) == Root(t) && Child(!c.left, c.n) == Root(c.sib)
      ensures c.In? ==> c.n.parent == Parent(c.up) && c.n.red == c.red
      ensures c.In? ==> Root(t) != Root(c.sib) || Root(t) == null
      ensures c.Top? ==> root == Root(t)
    {
    }

    // ---------------------------------------------------------------- pointer writes

    method SetColor(n: Node, red: bool, ghost c: Ctx, ghost t: Tree)
      requires t.Bin? && n == t.n && At(c, t)
      modifies nodes
      ensures At(c, Paint(t, red))
    {
      n.red := red;
    }

    /** Make `p` the parent of the subtree `t`, if there is one. */
    static method Reparent(ghost t: Tree, ghost was: Node?, child: Node?, p: Node?)
      requires child == Root(t) && Linked(t, was) && Distinct(t)
      modifies if child == null then {} else {child}
      ensures Linked(t, p)
    {
      if child != null {
        child.parent := p;
      }
    }

    /** The parent of `elm`, or the head, points at `tmp` instead of `elm`. */
    method Replace(ghost c: Ctx, p: Node?, elm: Node, tmp: Node?)
      requires p == Parent(c) && Hangs(c, elm) && DistinctCtx(c) && elm !in CtxNodes(c)
      modifies `root, if p == null then {} else {p}
      ensures Hangs(c, tmp)
    {
      if p != null {
        if p.left == elm {
          p.left := tmp;
        } else {
          p.right := tmp;
        }
      } else {
        root := tmp;
      }
    }

    // ---------------------------------------------------------------- rotations

    /** Two neighbouring nodes `x` and `y`, their three subtrees and their context: all apart. */
    ghost predicate Loose(c: Ctx, a: Tree, x: Node, b: Tree, y: Node, d: Tree)
      reads `nodes
    {
      && x != y && {x, y} <= nodes && DistinctCtx(c) && Distinct(b)
      && Nodes(a) <= nodes && Nodes(b) <= nodes && Nodes(d) <= nodes && CtxNodes(c) <= nodes
      && {x, y} !! Nodes(a) && {x, y} !! Nodes(b) && {x, y} !! Nodes(d) && {x, y} !! CtxNodes(c)
      && Clear(Root(b), x, y, Nodes(a), Nodes(d), CtxNodes(c))
      && Clear(Parent(c), x, y, Nodes(a), Nodes(b), Nodes(d))
    }

    ghost predicate Clear(n: Node?, x: Node, y: Node, p: set<Node>, q: set<Node>, r: set<Node>)
      reads `nodes
    {
      n != null ==> n in nodes && n != x && n != y && n !in p && n !in q && n !in r
    }

    lemma Loosen(left: bool, c: Ctx, a: Tree, x: Node, xRed: bool, b: Tree, y: Node, yRed: bool, d: Tree)
      requires Apart(c, Join(left, a, x, xRed, Join(left, b, y, yRed, d)), nodes)
      ensures Loose(c, a, x, b, y, d)
    {
      var s := Join(left, b, y, yRed, d);
      assert Nodes(s) == Nodes(b) + {y} + Nodes(d) && Distinct(s);
      assert Root(b) != null ==> Root(b) in Nodes(b);
      assert Parent(c) != null ==> Parent(c) in CtxNodes(c);
    }

    static lemma SameApart(left: bool, c: Ctx, a: Tree, x: Node, xRed: bool, b: Tree, y: Node, yRed: bool, d: Tree,
                           nodes: set<Node>)
      requires Apart(c, Join(left, a, x, xRed, Join(left, b, y, yRed, d)), nodes)
      ensures Apart(c, Join(left, Join(left, a, x, xRed, b), y, yRed, d), nodes)
    {
      hide DistinctCtx, CtxNodes;
      var r, l := Join(left, b, y, yRed, d), Join(left, a, x, xRed, b);
      var p, q := Join(left, a, x, xRed, r), Join(left, l, y, yRed, d);
      assert Nodes(r) == Nodes(b) + {y} + Nodes(d) && Nodes(l) == Nodes(a) + {x} + Nodes(b);
      assert Nodes(p) == Nodes(a) + {x} + Nodes(r) && Nodes(q) == Nodes(l) + {y} + Nodes(d);
      assert Nodes(p) == Nodes(q);
      assert Distinct(r) && Distinct(l) && Distinct(q);
    }

    /** The pointers before a rotation. */
    lemma Lean(left: bool, c: Ctx, a: Tree, x: Node, xRed: bool, b: Tree, y: Node, yRed: bool, d: Tree)
      requires At(c, Join(left, a, x, xRed, Join(left, b, y, yRed, d)))
      ensures Child(left, x) == Root(a) && Child(!left, x) == y && x.parent == Parent(c) && x.red == xRed
      ensures Child(left, y) == Root(b) && Child(!left, y) == Root(d) && y.parent == x && y.red == yRed
      ensures Linked(a, x) && Linked(b, y) && Linked(d, y) && Hangs(c, x)
      ensures Apart(c, Join(left, a, x, xRed, Join(left, b, y, yRed, d)), nodes)
    {
      hide Head.Hangs, Apart;
      assert Linked(Join(left, b, y, yRed, d), x);
    }

    /** The pointers after it. */
    lemma Leant(left: bool, c: Ctx, a: Tree, x: Node, xRed: bool, b: Tree, y: Node, yRed: bool, d: Tree)
      requires Apart(c, Join(left, Join(left, a, x, xRed, b), y, yRed, d), nodes)
      requires Child(left, x) == Root(a) && Child(!left, x) == Root(b) && x.parent == y && x.red == xRed
      requires Child(left, y) == x && Child(!left, y) == Root(d) && y.parent == Parent(c) && y.red == yRed
      requires Linked(a, x) && Linked(b, x) && Linked(d, y) && Hangs(c, y)
      ensures At(c, Join(left, Join(left, a, x, xRed, b), y, yRed, d))
    {
      hide Head.Hangs, Apart;
      assert Linked(Join(left, a, x, xRed, b), y);
    }

    method RotateLeft(elm: Node, ghost c: Ctx, ghost a: Tree, ghost eRed: bool, ghost b: Tree, ghost t: Node,
                      ghost tRed: bool, ghost d: Tree)
      requires At(c, Bin(a, elm, eRed, Bin(b, t, tRed, d)))
      modifies `root, nodes
      ensures At(c, Bin(Bin(a, elm, eRed, b), t, tRed, d))
    {
      hide Linked, Distinct, DistinctCtx, Apart, Nodes, CtxNodes, Root, Parent, Head.At, Head.Hangs;
      Lean(true, c, a, elm, eRed, b, t, tRed, d);
      Loosen(true, c, a, elm, eRed, b, t, tRed, d);
      SameApart(true, c, a, elm, eRed, b, t, tRed, d, nodes);
      var tmp := elm.right;
      elm.right := tmp.left;
      Reparent(b, tmp, tmp.left, elm);
      tmp.parent := elm.parent;
      Replace(c, elm.parent, elm, tmp);
      tmp.left := elm;
      elm.parent := tmp;
      Leant(true, c, a, elm, eRed, b, t, tRed, d);
    }

    method RotateRight(elm: Node, ghost c: Ctx, ghost a: Tree, ghost eRed: bool, ghost b: Tree, ghost t: Node,
                       ghost tRed: bool, ghost d: Tree)
      requires At(c, Bin(Bin(d, t, tRed, b), elm, eRed, a))
      modifies `root, nodes
      ensures At(c, Bin(d, t, tRed, Bin(b, elm, eRed, a)))
    {
      hide Linked, Distinct, DistinctCtx, Apart, Nodes, CtxNodes, Root, Parent, Head.At, Head.Hangs;
      Lean(false, c, a, elm, eRed, b, t, tRed, d);
      Loosen(false, c, a, elm, eRed, b, t, tRed, d);
      SameApart(false, c, a, elm, eRed, b, t, tRed, d, nodes);
      var tmp := elm.left;
      elm.left := tmp.right;
      Reparent(b, tmp, tmp.right, elm);
      tmp.parent := elm.parent;
      Replace(c, elm.parent, elm, tmp);
      tmp.right := elm;
      elm.parent := tmp;
      Leant(false, c, a, elm, eRed, b, t, tRed, d);
    }

    // ---------------------------------------------------------------- RB_INSERT_COLOR

    /** RB_SET_BLACKRED on the parent and grandparent of the focus. */
    method SetBlackRed(parent: Node, gparent: Node, ghost c: Ctx, ghost t: Tree)
      requires c.In? && c.up.In? && parent == c.n && gparent == c.up.n && At(c, t)
      modifies nodes
      ensures At(c.(red := false, up := c.up.(red := true)), t)
    {
      hide Head.At;
      ghost var p := Fill(c, t);
      ghost var g := Fill(c.up, Black(p));
      Up(c, t);
      SetColor(parent, false, c.up, p);
      Up(c.up, Black(p));
      SetColor(gparent, true, c.up.up, g);
      ghost var d := c.up.(red := true);
      Up(d, Black(p));
      Up(c.(red := false, up := d), t);
    }

    method Recolor(uncle: Node, parent: Node, gparent: Node, ghost c: Ctx, ghost t: Tree)
      requires c.In? && c.up.In? && At(c, t) && c.up.sib.Bin?
      requires uncle == c.up.sib.n && parent == c.n && gparent == c.up.n
      modifies nodes
      ensures At(c.up.up, Recoloured(c, t))
    {
      hide Head.At;
      ghost var p, u := Fill(c, t), c.up.sib;
      ghost var d := In(!c.up.left, c.up.up, gparent, c.up.red, p);
      Up(c, t);
      Up(c.up, p);
      assert Fill(d, u) == Fill(c.up, p);
      Up(d, u);
      SetColor(uncle, false, d, u);
      Up(d, Black(u));
      ghost var e := c.(up := c.up.(sib := Black(u)));
      assert Fill(d, Black(u)) == Fill(e.up, p);
      Up(e.up, p);
      Up(e, t);
      SetBlackRed(parent, gparent, e, t);
      ghost var f := e.(red := false, up := e.up.(red := true));
      Up(f, t);
      Up(f.up, Black(p));
    }

    method StraightenLeft(parent: Node, ghost c: Ctx, ghost t: Tree)
      requires c.In? && c.up.In? && !c.left && c.up.left && parent == c.n && t.Bin? && t.red && c.red && At(c, t)
      modifies `root, nodes
      ensures At(Straight(c, t).0, Straight(c, t).1)
    {
      hide Head.At;
      Up(c, t);
      RotateLeft(parent, c.up, c.sib, true, t.l, t.n, true, t.r);
      Up(Straight(c, t).0, Straight(c, t).1);
    }

    method StraightenRight(parent: Node, ghost c: Ctx, ghost t: Tree)
      requires c.In? && c.up.In? && c.left && !c.up.left && parent == c.n && t.Bin? && t.red && c.red && At(c, t)
      modifies `root, nodes
      ensures At(Straight(c, t).0, Straight(c, t).1)
    {
      hide Head.At;
      Up(c, t);
      RotateRight(parent, c.up, c.sib, true, t.r, t.n, true, t.l);
      Up(Straight(c, t).0, Straight(c, t).1);
    }

    method LiftLeft(parent: Node, gparent: Node, ghost c: Ctx, ghost t: Tree)
      requires c.In? && c.up.In? && c.left && c.up.left && parent == c.n && gparent == c.up.n && At(c, t)
      modifies `root, nodes
      ensures At(Lifted(c), t)
    {
      hide Head.At;
      SetBlackRed(parent, gparent, c, t);
      ghost var d := c.(red := false, up := c.up.(red := true));
      Up(d, t);
      Up(d.up, Fill(d, t));
      RotateRight(gparent, c.up.up, c.up.sib, true, c.sib, parent, false, t);
      Up(Lifted(c), t);
    }

    method LiftRight(parent: Node, gparent: Node, ghost c: Ctx, ghost t: Tree)
      requires c.In? && c.up.In? && !c.left && !c.up.left && parent == c.n && gparent == c.up.n && At(c, t)
      modifies `root, nodes
      ensures At(Lifted(c), t)
    {
      hide Head.At;
      SetBlackRed(parent, gparent, c, t);
      ghost var d := c.(red := false, up := c.up.(red := true));
      Up(d, t);
      Up(d.up, Fill(d, t));
      RotateLeft(gparent, c.up.up, c.up.sib, true, c.sib, parent, false, t);
      Up(Lifted(c), t);
    }

    /** One turn of the loop: the same order, still one bad edge at most, and either higher up or done. */
    ghost predicate Climbs(c: Ctx, t: Tree, d: Ctx, u: Tree, k: nat)
      reads `root, `nodes, nodes
    {
      && At(d, u) && Inserting(d, u, k) && Inorder(Plug(d, u)) == Inorder(Plug(c, t))
      && (RedParent(d) ==> Depth(d) < Depth(c))
    }

    lemma Uncle(c: Ctx, t: Tree)
      requires c.In? && c.up.In? && At(c, t)
      ensures c.up.n in nodes && Child(!c.up.left, c.up.n) == Root(c.up.sib) && Child(c.up.left, c.up.n) == c.n
      ensures c.up.sib.Bin? ==> c.up.sib.n in nodes && c.up.sib.n.red == c.up.sib.red && c.up.sib.n != c.n
    {
      hide Head.At;
      Up(c, t);
      Fields(c.up, Fill(c, t));
      var d := In(!c.up.left, c.up.up, c.up.n, c.up.red, Fill(c, t));
      Up(c.up, Fill(c, t));
      assert Fill(d, c.up.sib) == Fill(c.up, Fill(c, t));
      Up(d, c.up.sib);
      Fields(d, c.up.sib);
    }

    /** The uncle is black: one or two rotations, and the loop is done. */
    method HoistLeft(elm: Node, parent: Node, gparent: Node, ghost c: Ctx, ghost t: Tree, ghost h: nat)
      returns (next: Node, ghost d: Ctx, ghost u: Tree, ghost k: nat)
      requires At(c, t) && Inserting(c, t, h) && RedParent(c) && c.up.left && BlackRoot(c.up.sib)
      requires elm == t.n && parent == c.n && gparent == c.up.n
      modifies `root, nodes
      ensures Climbs(c, t, d, u, k) && next == u.n
    {
      hide Head.At, Inorder, Plug, Height, NoRedRed, Nodes, CtxNodes;
      Fields(c, t);
      next, d, u, k := elm, c, t, h;
      var top := parent;
      if parent.right == elm {
        Straighten(c, t, h);
        StraightenLeft(parent, c, t);
        next, top := parent, elm;
        d, u := Straight(c, t).0, Straight(c, t).1;
      }
      Lift(d, u, k);
      LiftLeft(top, gparent, d, u);
      d := Lifted(d);
    }

    /** The branch for a parent that is a left child. */
    method InsertStepLeft(elm: Node, parent: Node, gparent: Node, ghost c: Ctx, ghost t: Tree, ghost h: nat)
      returns (next: Node, ghost d: Ctx, ghost u: Tree, ghost k: nat)
      requires At(c, t) && Inserting(c, t, h) && RedParent(c) && c.up.left
      requires elm == t.n && parent == c.n && gparent == c.up.n
      modifies `root, nodes
      ensures Climbs(c, t, d, u, k) && next == u.n
    {
      hide Head.At, Inorder, Plug, Height, NoRedRed, Nodes, CtxNodes;
      Fields(c, t);
      Uncle(c, t);
      var tmp := gparent.right;
      if tmp != null && tmp.red {
        assert Depth(c) == 1 + Depth(c.up) && Depth(c.up) == 1 + Depth(c.up.up);
        Recolour(c, t, h);
        Recolor(tmp, parent, gparent, c, t);
        next, d, u, k := gparent, c.up.up, Recoloured(c, t), h + 1;
      } else {
        next, d, u, k := HoistLeft(elm, parent, gparent, c, t, h);
      }
    }

    /** The uncle is black: one or two rotations, and the loop is done. */
    method HoistRight(elm: Node, parent: Node, gparent: Node, ghost c: Ctx, ghost t: Tree, ghost h: nat)
      returns (next: Node, ghost d: Ctx, ghost u: Tree, ghost k: nat)
      requires At(c, t) && Inserting(c, t, h) && RedParent(c) && !c.up.left && BlackRoot(c.up.sib)
      requires elm == t.n && parent == c.n && gparent == c.up.n
      modifies `root, nodes
      ensures Climbs(c, t, d, u, k) && next == u.n
    {
      hide Head.At, Inorder, Plug, Height, NoRedRed, Nodes, CtxNodes;
      Fields(c, t);
      next, d, u, k := elm, c, t, h;
      var top := parent;
      if parent.left == elm {
        Straighten(c, t, h);
        StraightenRight(parent, c, t);
        next, top := parent, elm;
        d, u := Straight(c, t).0, Straight(c, t).1;
      }
      Lift(d, u, k);
      LiftRight(top, gparent, d, u);
      d := Lifted(d);
    }

    /** The branch for a parent that is a right child. */
    method InsertStepRight(elm: Node, parent: Node, gparent: Node, ghost c: Ctx, ghost t: Tree, ghost h: nat)
      returns (next: Node, ghost d: Ctx, ghost u: Tree, ghost k: nat)
      requires At(c, t) && Inserting(c, t, h) && RedParent(c) && !c.up.left
      requires elm == t.n && parent == c.n && gparent == c.up.n
      modifies `root, nodes
      ensures Climbs(c, t, d, u, k) && next == u.n
    {
      hide Head.At, Inorder, Plug, Height, NoRedRed, Nodes, CtxNodes;
      Fields(c, t);
      Uncle(c, t);
      var tmp := gparent.left;
      if tmp != null && tmp.red {
        assert Depth(c) == 1 + Depth(c.up) && Depth(c.up) == 1 + Depth(c.up.up);
        Recolour(c, t, h);
        Recolor(tmp, parent, gparent, c, t);
        next, d, u, k := gparent, c.up.up, Recoloured(c, t), h + 1;
      } else {
        next, d, u, k := HoistRight(elm, parent, gparent, c, t, h);
      }
    }

    method InsertStep(elm: Node, ghost c: Ctx, ghost t: Tree, ghost h: nat)
      returns (next: Node, ghost d: Ctx, ghost u: Tree, ghost k: nat)
      requires At(c, t) && Inserting(c, t, h) && RedParent(c) && elm == t.n
      modifies `root, nodes
      ensures Climbs(c, t, d, u, k) && next == u.n
    {
      hide Head.At, Inorder, Plug, Height, NoRedRed, Nodes, CtxNodes, Head.Climbs;
      Fields(c, t);
      Uncle(c, t);
      var parent := elm.parent;
      var gparent := parent.parent;
      if parent == gparent.left {
        next, d, u, k := InsertStepLeft(elm, parent, gparent, c, t, h);
      } else {
        next, d, u, k := InsertStepRight(elm, parent, gparent, c, t, h);
      }
    }

    lemma {:induction false} Zip(c: Ctx, t: Tree)
      ensures At(c, t) <==> At(Top, Plug(c, t))
      decreases c
    {
      hide Head.At;
      if c.In? {
        Up(c, t);
        Zip(c.up, Fill(c, t));
      }
    }

    /** RB_INSERT_COLOR: from one bad edge to a balanced tree with the same order. */
    method InsertColor(elm0: Node, ghost c0: Ctx, ghost t0: Tree, ghost h0: nat) returns (ghost whole: Tree)
      requires At(c0, t0) && Inserting(c0, t0, h0) && elm0 == t0.n
      modifies `root, nodes
      ensures At(Top, whole) && Balanced(whole) && Inorder(whole) == Inorder(Plug(c0, t0))
    {
      hide Head.At, Inorder, Plug, Height, NoRedRed, Nodes, CtxNodes, Balanced;
      var elm := elm0;
      ghost var c, t, h := c0, t0, h0;
      Fields(c, t);
      while elm.parent != null && elm.parent.red
        invariant At(c, t) && Inserting(c, t, h) && elm == t.n
        invariant Inorder(Plug(c, t)) == Inorder(Plug(c0, t0))
        invariant elm.parent == Parent(c) && (c.In? ==> c.n.red == c.red)
        decreases if RedParent(c) then Depth(c) + 1 else 0
      {
        elm, c, t, h := InsertStep(elm, c, t, h);
        Fields(c, t);
      }
      InsertDone(c, t, h);
      whole := Plug(c, t);
      Zip(c, t);
      Fields(Top, whole);
      SetColor(root, false, Top, whole);
      whole := Black(whole);
    }

    // ---------------------------------------------------------------- RB_REMOVE_COLOR

    /** The sibling's side of the frame `c`: the same tree seen from the sibling. */
    ghost function Across(c: Ctx, t: Tree): Ctx
      requires c.In?
    {
      In(!c.left, c.up, c.n, c.red, t)
    }

    lemma Cross(c: Ctx, t: Tree)
      requires c.In?
      ensures At(c, t) <==> At(Across(c, t), c.sib)
    {
      hide Head.At;
      Up(c, t);
      assert Fill(Across(c, t), c.sib) == Fill(c, t);
      Up(Across(c, t), c.sib);
    }

    method SetSibling(tmp: Node, red: bool, ghost c: Ctx, ghost t: Tree)
      requires c.In? && c.sib.Bin? && tmp == c.sib.n && At(c, t)
      modifies nodes
      ensures At(c.(sib := Paint(c.sib, red)), t)
    {
      hide Head.At;
      Cross(c, t);
      SetColor(tmp, red, Across(c, t), c.sib);
      Cross(c.(sib := Paint(c.sib, red)), t);
    }

    method SetParent(parent: Node, red: bool, ghost c: Ctx, ghost t: Tree)
      requires c.In? && parent == c.n && At(c, t)
      modifies nodes
      ensures At(c.(red := red), t)
    {
      hide Head.At;
      Up(c, t);
      SetColor(parent, red, c.up, Fill(c, t));
      Up(c.(red := red), t);
    }

    /** Colour the child of the sibling on the side `left`. */
    method SetNephew(n: Node, red: bool, ghost left: bool, ghost c: Ctx, ghost t: Tree)
      requires c.In? && c.sib.Bin? && Near(left, c.sib).Bin? && n == Near(left, c.sib).n && At(c, t)
      modifies nodes
      ensures At(c.(sib := Join(left, Paint(Near(left, c.sib), red), c.sib.n, c.sib.red, Far(left, c.sib))), t)
    {
      hide Head.At;
      ghost var m := Near(left, c.sib);
      ghost var d := In(left, Across(c, t), c.sib.n, c.sib.red, Far(left, c.sib));
      Cross(c, t);
      assert Fill(d, m) == c.sib;
      Up(d, m);
      SetColor(n, red, d, m);
      Up(d, Paint(m, red));
      Cross(c.(sib := Fill(d, Paint(m, red))), t);
    }

    /** What the loop reads around the focus. */
    lemma Family(c: Ctx, t: Tree)
      requires c.In? && At(c, t)
      ensures Child(c.left, c.n) == Root(t) && Child(!c.left, c.n) == Root(c.sib)
      ensures c.n in nodes && c.n.red == c.red && c.n.parent == Parent(c.up)
      ensures c.sib.Bin? ==>
        && c.sib.n in nodes && c.sib.n.red == c.sib.red && Root(t) != c.sib.n
        && c.sib.n.left == Root(c.sib.l) && c.sib.n.right == Root(c.sib.r)
      ensures c.sib.Bin? && c.sib.l.Bin? ==> c.sib.l.n in nodes && c.sib.l.n.red == c.sib.l.red
      ensures c.sib.Bin? && c.sib.r.Bin? ==> c.sib.r.n in nodes && c.sib.r.n.red == c.sib.r.red
    {
      hide Head.At;
      Fields(c, t);
      Cross(c, t);
      Fields(Across(c, t), c.sib);
      if c.sib.Bin? {
        var l, r := In(true, Across(c, t), c.sib.n, c.sib.red, c.sib.r),
            In(false, Across(c, t), c.sib.n, c.sib.red, c.sib.l);
        Up(l, c.sib.l);
        Fields(l, c.sib.l);
        Up(r, c.sib.r);
        Fields(r, c.sib.r);
      }
    }

    lemma {:induction false} TopNode(c: Ctx, hole: Node?)
      requires Hangs(c, hole)
      ensures c.In? ==> root in CtxNodes(c)
      decreases c
    {
      if c.In? { TopNode(c.up, c.n); }
    }

    lemma RootIs(c: Ctx, t: Tree)
      requires At(c, t)
      ensures Root(t) == root <==> c.Top?
    {
      TopNode(c, Root(t));
      assert t.Bin? ==> t.n in Nodes(t);
    }

    ghost function Remaining(c: Ctx, t: Tree): nat { if BlackRoot(t) then Depth(c) + 1 else 0 }

    /** One turn of the loop: the same order, at most one black node missing, and either nearer the root or done. */
    ghost predicate Repays(c: Ctx, t: Tree, d: Ctx, u: Tree, k: nat, done: bool)
      reads `root, `nodes, nodes
    {
      && At(d, u) && Short(d, u, k) && Inorder(Plug(d, u)) == Inorder(Plug(c, t))
      && (if done then d.Top? else Remaining(d, u) < Remaining(c, t))
    }

    method DemoteLeft(tmp: Node, parent: Node, ghost c: Ctx, ghost t: Tree)
      requires c.In? && c.left && c.sib.Bin? && tmp == c.sib.n && parent == c.n && At(c, t)
      modifies `root, nodes
      ensures At(Demoted(c), t)
    {
      hide Head.At;
      SetSibling(tmp, false, c, t);
      ghost var d := c.(sib := Black(c.sib), red := true);
      SetParent(parent, true, c.(sib := Black(c.sib)), t);
      Up(d, t);
      RotateLeft(parent, c.up, t, true, Near(c.left, c.sib), tmp, false, Far(c.left, c.sib));
      Up(Demoted(c), t);
      Up(Demoted(c).up, Fill(Demoted(c), t));
    }

    method TurnLeft(tmp: Node, ghost c: Ctx, ghost t: Tree)
      requires c.In? && c.left && c.sib.Bin? && Near(c.left, c.sib).Bin? && tmp == c.sib.n && At(c, t)
      modifies `root, nodes
      ensures At(Turned(c), t)
    {
      hide Head.At, Nodes, CtxNodes;
      ghost var m, f := Near(c.left, c.sib), Far(c.left, c.sib);
      Family(c, t);
      var oleft := tmp.left;
      if oleft != null {
        SetNephew(oleft, false, c.left, c, t);
      }
      ghost var d := c.(sib := Join(c.left, Black(m), tmp, c.sib.red, f));
      SetSibling(tmp, true, d, t);
      Cross(d.(sib := Paint(d.sib, true)), t);
      RotateRight(tmp, Across(c, t), f, true, Far(c.left, m), m.n, false, Near(c.left, m));
      Cross(Turned(c), t);
    }

    method RepayLeft(tmp: Node, parent: Node, ghost c: Ctx, ghost t: Tree)
      requires c.In? && c.left && c.sib.Bin? && tmp == c.sib.n && parent == c.n && At(c, t)
      modifies `root, nodes
      ensures At(c.up, Settled(c, t))
    {
      hide Head.At, Nodes, CtxNodes;
      ghost var m, f := Near(c.left, c.sib), Far(c.left, c.sib);
      Family(c, t);
      SetSibling(tmp, parent.red, c, t);
      ghost var d := c.(sib := Paint(c.sib, c.red));
      SetParent(parent, false, d, t);
      ghost var e := d.(red := false);
      Family(e, t);
      if tmp.right != null {
        SetNephew(tmp.right, false, !c.left, e, t);
      }
      ghost var g := e.(sib := Join(c.left, m, tmp, c.red, Black(f)));
      assert At(g, t);
      Up(g, t);
      RotateLeft(parent, c.up, t, false, m, tmp, c.red, Black(f));
    }

    /** The sibling is black and has a red child: the loop ends here. */
    method FinishLeft(tmp0: Node, parent: Node, ghost c: Ctx, ghost t: Tree, ghost h: nat)
      returns (next: Node?, ghost u: Tree, ghost k: nat)
      requires At(c, t) && Short(c, t, h) && c.In? && c.left && BlackRoot(t) && c.sib.Bin? && BlackRoot(c.sib)
      requires !(BlackRoot(c.sib.l) && BlackRoot(c.sib.r)) && tmp0 == c.sib.n && parent == c.n
      modifies `root, nodes
      ensures Repays(c, t, Top, u, k, true) && next == root
    {
      hide Head.At, Inorder, Plug, Height, NoRedRed, Nodes, CtxNodes, Balanced, Short;
      var tmp := tmp0;
      ghost var d := c;
      Family(c, t);
      if tmp.right == null || !tmp.right.red {
        Turn(c, t, h);
        TurnLeft(tmp, c, t);
        d := Turned(c);
        Family(d, t);
        tmp := parent.right;
      }
      Settle(d, t, h);
      RepayLeft(tmp, parent, d, t);
      next := root;
      u := Plug(d.up, Settled(d, t));
      Zip(d.up, Settled(d, t));
      k := Whole(u);
      PlugTop(u);
    }

    /** The branch for a short left child. */
    method RemoveStepLeft(elm: Node?, parent: Node, ghost c0: Ctx, ghost t: Tree, ghost h: nat)
      returns (next: Node?, up: Node?, done: bool, ghost d: Ctx, ghost u: Tree, ghost k: nat)
      requires At(c0, t) && Short(c0, t, h) && c0.In? && c0.left && BlackRoot(t)
      requires elm == Root(t) && parent == c0.n
      modifies `root, nodes
      ensures Repays(c0, t, d, u, k, done) && next == Root(u) && (!done ==> up == Parent(d))
    {
      hide Head.At, Inorder, Plug, Height, NoRedRed, Nodes, CtxNodes, Balanced, Short;
      ghost var c := c0;
      Sibling(c, t, h);
      Family(c, t);
      var tmp := parent.right;
      if tmp.red {
        Demote(c, t, h);
        DemoteLeft(tmp, parent, c, t);
        c := Demoted(c);
        Sibling(c, t, h);
        Family(c, t);
        tmp := parent.right;
      }
      if (tmp.left == null || !tmp.left.red) && (tmp.right == null || !tmp.right.red) {
        Redden(c, t, h);
        SetSibling(tmp, true, c, t);
        Up(c.(sib := Paint(c.sib, true)), t);
        d, u, k := c.up, Fill(c.(sib := Paint(c.sib, true)), t), if c.red then h else h + 1;
        Fields(d, u);
        next, up, done := parent, parent.parent, false;
      } else {
        next, u, k := FinishLeft(tmp, parent, c, t, h);
        d, up, done := Top, parent, true;
        Fields(d, u);
      }
    }

    method DemoteRight(tmp: Node, parent: Node, ghost c: Ctx, ghost t: Tree)
      requires c.In? && !c.left && c.sib.Bin? && tmp == c.sib.n && parent == c.n && At(c, t)
      modifies `root, nodes
      ensures At(Demoted(c), t)
    {
      hide Head.At;
      SetSibling(tmp, false, c, t);
      ghost var d := c.(sib := Black(c.sib), red := true);
      SetParent(parent, true, c.(sib := Black(c.sib)), t);
      Up(d, t);
      RotateRight(parent, c.up, t, true, Near(c.left, c.sib), tmp, false, Far(c.left, c.sib));
      Up(Demoted(c), t);
      Up(Demoted(c).up, Fill(Demoted(c), t));
    }

    method TurnRight(tmp: Node, ghost c: Ctx, ghost t: Tree)
      requires c.In? && !c.left && c.sib.Bin? && Near(c.left, c.sib).Bin? && tmp == c.sib.n && At(c, t)
      modifies `root, nodes
      ensures At(Turned(c), t)
    {
      hide Head.At, Nodes, CtxNodes;
      ghost var m, f := Near(c.left, c.sib), Far(c.left, c.sib);
      Family(c, t);
      var oright := tmp.right;
      if oright != null {
        SetNephew(oright, false, c.left, c, t);
      }
      ghost var d := c.(sib := Join(c.left, Black(m), tmp, c.sib.red, f));
      SetSibling(tmp, true, d, t);
      Cross(d.(sib := Paint(d.sib, true)), t);
      RotateLeft(tmp, Across(c, t), f, true, Far(c.left, m), m.n, false, Near(c.left, m));
      Cross(Turned(c), t);
    }

    method RepayRight(tmp: Node, parent: Node, ghost c: Ctx, ghost t: Tree)
      requires c.In? && !c.left && c.sib.Bin? && tmp == c.sib.n && parent == c.n && At(c, t)
      modifies `root, nodes
      ensures At(c.up, Settled(c, t))
    {
      hide Head.At, Nodes, CtxNodes;
      ghost var m, f := Near(c.left, c.sib), Far(c.left, c.sib);
      Family(c, t);
      SetSibling(tmp, parent.red, c, t);
      ghost var d := c.(sib := Paint(c.sib, c.red));
      SetParent(parent, false, d, t);
      ghost var e := d.(red := false);
      Family(e, t);
      if tmp.left != null {
        SetNephew(tmp.left, false, !c.left, e, t);
      }
      ghost var g := e.(sib := Join(c.left, m, tmp, c.red, Black(f)));
      assert At(g, t);
      Up(g, t);
      RotateRight(parent, c.up, t, false, m, tmp, c.red, Black(f));
    }

    /** The sibling is black and has a red child: the loop ends here. */
    method FinishRight(tmp0: Node, parent: Node, ghost c: Ctx, ghost t: Tree, ghost h: nat)
      returns (next: Node?, ghost u: Tree, ghost k: nat)
      requires At(c, t) && Short(c, t, h) && c.In? && !c.left && BlackRoot(t) && c.sib.Bin? && BlackRoot(c.sib)
      requires !(BlackRoot(c.sib.l) && BlackRoot(c.sib.r)) && tmp0 == c.sib.n && parent == c.n
      modifies `root, nodes
      ensures Repays(c, t, Top, u, k, true) && next == root
    {
      hide Head.At, Inorder, Plug, Height, NoRedRed, Nodes, CtxNodes, Balanced, Short;
      var tmp := tmp0;
      ghost var d := c;
      Family(c, t);
      if tmp.left == null || !tmp.left.red {
        Turn(c, t, h);
        TurnRight(tmp, c, t);
        d := Turned(c);
        Family(d, t);
        tmp := parent.left;
      }
      Settle(d, t, h);
      RepayRight(tmp, parent, d, t);
      next := root;
      u := Plug(d.up, Settled(d, t));
      Zip(d.up, Settled(d, t));
      k := Whole(u);
      PlugTop(u);
    }

    /** The branch for a short right child. */
    method RemoveStepRight(elm: Node?, parent: Node, ghost c0: Ctx, ghost t: Tree, ghost h: nat)
      returns (next: Node?, up: Node?, done: bool, ghost d: Ctx, ghost u: Tree, ghost k: nat)
      requires At(c0, t) && Short(c0, t, h) && c0.In? && !c0.left && BlackRoot(t)
      requires elm == Root(t) && parent == c0.n
      modifies `root, nodes
      ensures Repays(c0, t, d, u, k, done) && next == Root(u) && (!done ==> up == Parent(d))
    {
      hide Head.At, Inorder, Plug, Height, NoRedRed, Nodes, CtxNodes, Balanced, Short;
      ghost var c := c0;
      Sibling(c, t, h);
      Family(c, t);
      var tmp := parent.left;
      if tmp.red {
        Demote(c, t, h);
        DemoteRight(tmp, parent, c, t);
        c := Demoted(c);
        Sibling(c, t, h);
        Family(c, t);
        tmp := parent.left;
      }
      if (tmp.left == null || !tmp.left.red) && (tmp.right == null || !tmp.right.red) {
        Redden(c, t, h);
        SetSibling(tmp, true, c, t);
        Up(c.(sib := Paint(c.sib, true)), t);
        d, u, k := c.up, Fill(c.(sib := Paint(c.sib, true)), t), if c.red then h else h + 1;
        Fields(d, u);
        next, up, done := parent, parent.parent, false;
      } else {
        next, u, k := FinishRight(tmp, parent, c, t, h);
        d, up, done := Top, parent, true;
        Fields(d, u);
      }
    }

    static lemma PlugTop(t: Tree)
      ensures Plug(Top, t) == t
    {
    }

    lemma Sibling(c: Ctx, t: Tree, h: nat)
      requires Short(c, t, h) && c.In?
      ensures c.sib.Bin?
    {
    }

    ghost function Whole(t: Tree): (h: nat)
      requires Balanced(t)
      ensures Short(Top, t, h)
    {
      var h: nat :| Height(t, h);
      h
    }

    method RemoveStep(elm: Node?, parent: Node, ghost c: Ctx, ghost t: Tree, ghost h: nat)
      returns (next: Node?, up: Node?, done: bool, ghost d: Ctx, ghost u: Tree, ghost k: nat)
      requires At(c, t) && Short(c, t, h) && c.In? && BlackRoot(t) && elm == Root(t) && parent == c.n
      modifies `root, nodes
      ensures Repays(c, t, d, u, k, done) && next == Root(u) && (!done ==> up == Parent(d))
    {
      hide Head.At, Inorder, Plug, Height, NoRedRed, Nodes, CtxNodes, Head.Repays, Short;
      Sibling(c, t, h);
      Family(c, t);
      if parent.left == elm {
        next, up, done, d, u, k := RemoveStepLeft(elm, parent, c, t, h);
      } else {
        next, up, done, d, u, k := RemoveStepRight(elm, parent, c, t, h);
      }
    }

    /** RB_REMOVE_COLOR: from one missing black node to a balanced tree with the same order. */
    method RemoveColor(parent0: Node?, elm0: Node?, ghost c0: Ctx, ghost t0: Tree, ghost h0: nat)
      returns (ghost whole: Tree)
      requires At(c0, t0) && Short(c0, t0, h0) && elm0 == Root(t0) && parent0 == Parent(c0)
      modifies `root, nodes
      ensures At(Top, whole) && Balanced(whole) && Inorder(whole) == Inorder(Plug(c0, t0))
    {
      hide Head.At, Inorder, Plug, Height, NoRedRed, Nodes, CtxNodes, Balanced, Short;
      var parent, elm := parent0, elm0;
      ghost var c, t, h := c0, t0, h0;
      Fields(c, t);
      RootIs(c, t);
      while (elm == null || !elm.red) && elm != root
        invariant At(c, t) && Short(c, t, h) && elm == Root(t) && parent == Parent(c)
        invariant Inorder(Plug(c, t)) == Inorder(Plug(c0, t0))
        invariant (elm == root <==> c.Top?) && (elm != null ==> elm.red == t.red)
        decreases Remaining(c, t)
      {
        var done;
        elm, parent, done, c, t, h := RemoveStep(elm, parent, c, t, h);
        Fields(c, t);
        RootIs(c, t);
        if done {
          break;
        }
      }
      RemoveDone(c, t, h);
      if elm != null {
        SetColor(elm, false, c, t);
      }
      whole := Plug(c, Black(t));
      Zip(c, Black(t));
    }

    // ---------------------------------------------------------------- RB_FIND and RB_INSERT

    /** The position the search for `key` has reached: still the whole tree, with `tmp` at the root of what is left. */
    ghost predicate Searching(c: Ctx, t: Tree, key: int, tmp: Node?, parent: Node?)
      reads `root, `nodes, `shape, nodes
    {
      At(c, t) && Plug(c, t) == shape && Heading(c, key) && tmp == Root(t) && parent == Parent(c)
    }

    /** One comparison: `tmp` is not the node wanted, go down. */
    method Descend(tmp: Node, key: int, ghost c: Ctx, ghost t: Tree, ghost up: Node?)
      returns (next: Node?, ghost d: Ctx, ghost u: Tree)
      requires Valid() && Searching(c, t, key, tmp, up) && tmp.key != key
      ensures Searching(d, u, key, next, tmp) && t.Bin? && (u == t.l || u == t.r)
      ensures d.In? && d.left == (key < tmp.key)
    {
      hide Head.At, Inorder, Nodes, CtxNodes, Balanced, Heading;
      Fields(c, t);
      if key < tmp.key {
        next := tmp.left;
        d, u := In(true, c, tmp, t.red, t.r), t.l;
        GoLeft(c, t, key);
      } else {
        next := tmp.right;
        d, u := In(false, c, tmp, t.red, t.l), t.r;
        GoRight(c, t, key);
      }
      Up(d, u);
      assert Fill(d, u) == t;
    }

    lemma StartSearch(key: int)
      requires Valid()
      ensures Searching(Top, shape, key, root, null)
    {
    }

    lemma Concluded(c: Ctx, t: Tree, key: int, tmp: Node?, parent: Node?)
      requires Searching(c, t, key, tmp, parent)
      ensures tmp != null ==> tmp in Order()
      ensures tmp == null ==> t == Leaf && forall n :: n in Order() ==> n.key != key
    {
      if tmp != null { Found(c, t); } else { NotFound(c, key); }
    }

    /** RB_FIND decides membership. */
    method Find(key: int) returns (found: Node?)
      requires Valid()
      ensures found != null ==> found in Order() && found.key == key
      ensures found == null ==> forall n :: n in Order() ==> n.key != key
    {
      hide Head.Valid, Head.Searching, Head.Order;
      var tmp := root;
      ghost var c, t, p := Top, shape, null;
      StartSearch(key);
      while tmp != null
        invariant Searching(c, t, key, tmp, p)
        decreases t
      {
        if tmp.key == key {
          Concluded(c, t, key, tmp, p);
          return tmp;
        }
        var here := tmp;
        tmp, c, t := Descend(here, key, c, t, p);
        p := here;
      }
      Concluded(c, t, key, tmp, p);
      return null;
    }

    /** Hang `elm` into the hole of `c`: RB_SET, and the parent's link. */
    method Attach(elm: Node, parent: Node?, comp: int, ghost c: Ctx)
      requires At(c, Leaf) && elm !in nodes && parent == Parent(c) && (c.In? ==> (comp < 0 <==> c.left))
      modifies `root, `nodes, nodes, elm
      ensures At(c, Bin(Leaf, elm, true, Leaf)) && nodes == old(nodes) + {elm}
    {
      hide Head.At;
      ghost var was := nodes;
      Open(c);
      elm.parent, elm.left, elm.right, elm.red := parent, null, null, true;
      if parent != null {
        if comp < 0 {
          parent.left := elm;
        } else {
          parent.right := elm;
        }
      } else {
        root := elm;
      }
      nodes := nodes + {elm};
      Closed(c, elm, was);
    }

    lemma Open(c: Ctx)
      requires At(c, Leaf)
      ensures nodes == CtxNodes(c) && DistinctCtx(c) && Hangs(c, null)
    {
    }

    lemma Closed(c: Ctx, elm: Node, was: set<Node>)
      requires was == CtxNodes(c) && DistinctCtx(c) && Hangs(c, elm) && elm !in was && nodes == was + {elm}
      requires elm.parent == Parent(c) && elm.left == null && elm.right == null && elm.red
      ensures At(c, Bin(Leaf, elm, true, Leaf))
    {
    }

    /** RB_INSERT: an equal key is found and nothing changes, or the order gains exactly `elm`. */
    method Insert(elm: Node) returns (found: Node?, ghost at: nat)
      requires Valid() && elm !in nodes
      modifies this, nodes, elm
      ensures Valid()
      ensures found != null ==> found in Order() && found.key == elm.key
      ensures found != null ==> Order() == old(Order()) && nodes == old(nodes)
      ensures found == null ==> forall n :: n in old(Order()) ==> n.key != elm.key
      ensures found == null ==> nodes == old(nodes) + {elm} && at <= |old(Order())|
      ensures found == null ==> Order() == old(Order())[..at] + [elm] + old(Order())[at..]
    {
      hide Head.Valid, Head.Searching, Head.Order;
      var tmp, parent, comp := root, null, 0;
      ghost var c, t := Top, shape;
      at := 0;
      StartSearch(elm.key);
      while tmp != null
        modifies {}
        invariant Searching(c, t, elm.key, tmp, parent) && (c.In? ==> (comp < 0 <==> c.left))
        decreases t
      {
        comp := elm.key - tmp.key;
        if comp == 0 {
          Concluded(c, t, elm.key, tmp, parent);
          return tmp, 0;
        }
        var up := parent;
        parent := tmp;
        tmp, c, t := Descend(parent, elm.key, c, t, up);
      }
      Concluded(c, t, elm.key, tmp, parent);
      found := null;
      at := Add(elm, parent, comp, c);
    }

    method Add(elm: Node, parent: Node?, comp: int, ghost c: Ctx) returns (ghost at: nat)
      requires Valid() && elm !in nodes && Searching(c, Leaf, elm.key, null, parent)
      requires c.In? ==> (comp < 0 <==> c.left)
      modifies this, nodes, elm
      ensures Valid() && nodes == old(nodes) + {elm} && at <= |old(Order())|
      ensures Order() == old(Order())[..at] + [elm] + old(Order())[at..]
    {
      hide Head.At, Inorder, Plug, Sorted, Nodes, CtxNodes, Balanced, Heading, Inserting;
      ghost var t := Bin(Leaf, elm, true, Leaf);
      ghost var h := FocusBalanced(c, Leaf);
      NewLeaf(c, elm, h);
      InorderAdd(c, elm);
      at := |Before(c)|;
      Attach(elm, parent, comp, c);
      shape := InsertColor(elm, c, t, h);
    }

    // ---------------------------------------------------------------- RB_REMOVE

    /** A node `n` apart from a subtree `u`, both under the context `c`. */
    ghost predicate Beside(c: Ctx, n: Node, u: Tree)
      reads `nodes
    {
      && Distinct(u) && DistinctCtx(c) && n !in Nodes(u) && n !in CtxNodes(c) && Nodes(u) !! CtxNodes(c)
      && Nodes(u) <= nodes && CtxNodes(c) <= nodes && n in nodes
      && (Root(u) != null ==> Root(u) in Nodes(u)) && (Parent(c) != null ==> Parent(c) in CtxNodes(c))
    }

    lemma Unhook(c: Ctx, t: Tree, u: Tree)
      requires At(c, t) && OnlyChild(t, u)
      ensures Beside(c, t.n, u) && Nodes(u) + CtxNodes(c) == nodes - {t.n}
      ensures Linked(u, t.n) && Hangs(c, t.n)
    {
      assert Nodes(t) == Nodes(u) + {t.n};
      assert Root(u) != null ==> Root(u) in Nodes(u);
    }

    lemma Hook(c: Ctx, u: Tree)
      requires Distinct(u) && DistinctCtx(c) && Nodes(u) !! CtxNodes(c) && Nodes(u) + CtxNodes(c) == nodes
      requires Linked(u, Parent(c)) && Hangs(c, Root(u))
      ensures At(c, u)
    {
    }

    /** Take `elm`, which has at most one child, out of its place; its own fields stay as they were. */
    method Splice(elm: Node, child: Node?, parent: Node?, ghost c: Ctx, ghost t: Tree, ghost u: Tree)
      requires At(c, t) && OnlyChild(t, u) && elm == t.n && child == Root(u) && parent == Parent(c)
      modifies `root, `nodes, nodes
      ensures At(c, u) && nodes == old(nodes) - {elm} && elm.parent == old(elm.parent)
    {
      hide Head.At, Linked, Nodes, CtxNodes, Distinct, DistinctCtx, Head.Hangs, Root, Parent;
      Unhook(c, t, u);
      Reparent(u, elm, child, parent);
      Replace(c, parent, elm, child);
      nodes := nodes - {elm};
      Hook(c, u);
    }

    lemma Surround(c: Ctx, l: Tree, n: Node, red: bool, r: Tree)
      requires At(c, Bin(l, n, red, r))
      ensures Beside(c, n, l) && Beside(c, n, r) && Nodes(l) !! Nodes(r)
      ensures Nodes(l) + Nodes(r) + CtxNodes(c) == nodes - {n}
      ensures n.left == Root(l) && n.right == Root(r) && n.parent == Parent(c) && n.red == red
      ensures Linked(l, n) && Linked(r, n) && Hangs(c, n)
    {
      hide Head.Hangs;
      assert Root(l) != null ==> Root(l) in Nodes(l);
      assert Root(r) != null ==> Root(r) in Nodes(r);
    }

    lemma Surrounded(c: Ctx, l: Tree, n: Node, red: bool, r: Tree)
      requires Beside(c, n, l) && Beside(c, n, r) && Nodes(l) !! Nodes(r)
      requires Nodes(l) + Nodes(r) + CtxNodes(c) == nodes - {n}
      requires n.left == Root(l) && n.right == Root(r) && n.parent == Parent(c) && n.red == red
      requires Linked(l, n) && Linked(r, n) && Hangs(c, n)
      ensures At(c, Bin(l, n, red, r))
    {
      hide Head.Hangs;
      assert Nodes(Bin(l, n, red, r)) == Nodes(l) + {n} + Nodes(r);
    }

    /** The children of `was` get the parent `elm`. */
    method Adopt(was: Node, elm: Node, ghost c: Ctx, ghost l: Tree, ghost r: Tree)
      requires was.left == Root(l) && was.right == Root(r) && Linked(l, was) && Linked(r, was) && Hangs(c, elm)
      requires Beside(c, was, l) && Beside(c, was, r) && Nodes(l) !! Nodes(r)
      modifies (if was.left == null then {} else {was.left}) + (if was.right == null then {} else {was.right})
      ensures Linked(l, elm) && Linked(r, elm) && Hangs(c, elm)
    {
      hide Linked, Nodes, CtxNodes, Distinct, DistinctCtx, Head.Hangs, Root, Parent;
      Reparent(l, was, was.left, elm);
      Reparent(r, was, was.right, elm);
    }

    /** Put `elm` where `was` is, colour and links included. */
    method Substitute(was: Node, elm: Node, ghost c: Ctx, ghost l: Tree, ghost red: bool, ghost r: Tree)
      requires l.Bin? && At(c, Bin(l, was, red, r)) && elm !in nodes
      modifies `root, `nodes, nodes, elm
      ensures At(c, Bin(l, elm, red, r)) && nodes == old(nodes) - {was} + {elm}
    {
      hide Head.At, Linked, Nodes, CtxNodes, Distinct, DistinctCtx, Head.Hangs, Root, Parent;
      Surround(c, l, was, red, r);
      elm.left, elm.right, elm.parent, elm.red := was.left, was.right, was.parent, was.red;
      Replace(c, was.parent, was, elm);
      Adopt(was, elm, c, l, r);
      nodes := nodes - {was} + {elm};
      Surrounded(c, l, elm, red, r);
    }

    lemma {:induction false} ZipTo(d: Ctx, base: Ctx, n: Node, t: Tree)
      requires LeftPath(d, base) && base.In?
      ensures At(Rebase(d, base, n), t) <==> At(base.(n := n), FillTo(d, base, t))
      decreases d
    {
      hide Head.At;
      if d != base {
        ZipTo(d.up, base, n, Fill(d, t));
        Up(Rebase(d, base, n), t);
      }
    }

    /** The leftmost node of the right subtree. */
    method Successor(was: Node, ghost c: Ctx, ghost t: Tree)
      returns (elm: Node, ghost d: Ctx, ghost u: Tree)
      requires At(c, t) && t.Bin? && t.r.Bin? && was == t.n
      ensures LeftPath(d, In(false, c, was, t.red, t.l)) && Plug(d, u) == Plug(c, t)
      ensures At(d, u) && u.Bin? && u.l.Leaf? && elm == u.n
    {
      hide Head.At, Nodes, CtxNodes;
      ghost var base := In(false, c, was, t.red, t.l);
      d, u := base, t.r;
      Fields(c, t);
      Up(d, u);
      elm := was.right;
      Fields(d, u);
      while elm.left != null
        invariant LeftPath(d, base) && Plug(d, u) == Plug(c, t) && At(d, u) && u.Bin? && elm == u.n
        invariant elm.left == Root(u.l)
        decreases u
      {
        elm := elm.left;
        d, u := In(true, d, u.n, u.red, u.r), u.l;
        Up(d, u);
        Fields(d, u);
      }
    }

    lemma {:induction false} PathNodes(d: Ctx, base: Ctx)
      requires LeftPath(d, base) && base.In? && DistinctCtx(d)
      ensures base.n in CtxNodes(d) && (d != base ==> d.n != base.n)
      decreases d
    {
      if d != base { PathNodes(d.up, base); }
    }

    lemma OnPath(d: Ctx, base: Ctx, t: Tree)
      requires LeftPath(d, base) && base.In? && At(d, t)
      ensures base.n in nodes && (d != base ==> d.n != base.n) && (t.Bin? ==> t.n != base.n && t.n in nodes)
    {
      PathNodes(d, base);
      assert t.Bin? ==> t.n in Nodes(t);
    }

    /** What a removal leaves for the colour fixup: `u` at `d`, one node fewer. */
    ghost predicate Detached(elm: Node, red: bool, parent: Node?, child: Node?, d: Ctx, u: Tree, k: nat, at: nat)
      reads `root, `nodes, `shape, nodes
    {
      && At(d, u) && Gone(red, d, u, k) && parent == Parent(d) && child == Root(u)
      && at < |Order()| && Order()[at] == elm && Inorder(Plug(d, u)) == Without(Order(), at)
    }

    method DetachLone(elm: Node, child: Node?, ghost c: Ctx, ghost t: Tree, ghost u: Tree)
      returns (red: bool, parent: Node?, ghost k: nat, ghost at: nat)
      requires At(c, t) && Plug(c, t) == shape && Balanced(shape) && OnlyChild(t, u) && elm == t.n && child == Root(u)
      modifies `root, `nodes, nodes
      ensures Detached(elm, red, parent, child, c, u, k, at) && nodes == old(nodes) - {elm}
    {
      hide Head.At, Nodes, CtxNodes, Inorder, Plug, Balanced, Gone, Without;
      ghost var h := FocusBalanced(c, t);
      k := GoneLone(c, t, u, h);
      at := OrderLone(c, t, u);
      Fields(c, t);
      parent, red := elm.parent, elm.red;
      Splice(elm, child, parent, c, t, u);
    }

    /** Both children: the successor leaves its own place and takes that of `was`. */
    method DetachBoth(was: Node, ghost c: Ctx, ghost t: Tree)
      returns (red: bool, parent: Node?, child: Node?, ghost d: Ctx, ghost u: Tree, ghost k: nat, ghost at: nat)
      requires At(c, t) && Plug(c, t) == shape && Balanced(shape) && t.Bin? && t.l.Bin? && t.r.Bin? && was == t.n
      modifies `root, `nodes, nodes
      ensures Detached(was, red, parent, child, d, u, k, at) && nodes == old(nodes) - {was}
    {
      hide Head.At, Nodes, CtxNodes, Inorder, Plug, Balanced, Gone, Without, LeftPath, Rebase, FillTo, Fits, Height,
        NoRedRed;
      var elm;
      ghost var e, v;
      elm, e, v := Successor(was, c, t);
      ghost var base := In(false, c, was, t.red, t.l);
      ghost var h := FocusBalanced(e, v);
      k := GoneLone(e, v, v.r, h);
      at := OrderBoth(e, base, v);
      OnPath(e, base, v);
      Fields(e, v);
      child, parent, red := elm.right, elm.parent, elm.red;
      Splice(elm, child, parent, e, v, v.r);
      if elm.parent == was {
        parent := elm;
      }
      d, u := Rebase(e, base, elm), v.r;
      GoneRebase(red, e, base, elm, u, k);
      RebaseParent(e, base, elm);
      Swap(was, elm, e, base, u);
    }

    lemma GoneRebase(red: bool, d: Ctx, base: Ctx, m: Node, u: Tree, k: nat)
      requires LeftPath(d, base) && base.In? && Gone(red, d, u, k)
      ensures Gone(red, Rebase(d, base, m), u, k)
    {
      RebaseFits(d, base, m, if red then k else k + 1);
    }

    lemma RebaseParent(d: Ctx, base: Ctx, m: Node)
      requires LeftPath(d, base) && base.In?
      ensures Parent(Rebase(d, base, m)) == if d == base then m else Parent(d)
      ensures d.In?
    {
    }

    /** Substitute, seen from the place the successor left. */
    method Swap(was: Node, elm: Node, ghost d: Ctx, ghost base: Ctx, ghost u: Tree)
      requires base.In? && !base.left && base.sib.Bin? && was == base.n && LeftPath(d, base) && At(d, u)
                && elm !in nodes
      modifies `root, `nodes, nodes, elm
      ensures At(Rebase(d, base, elm), u) && nodes == old(nodes) - {was} + {elm}
    {
      hide Head.At, Nodes, CtxNodes, LeftPath, Rebase, FillTo;
      ghost var f := FillTo(d, base, u);
      RebaseSame(d, base);
      ZipTo(d, base, was, u);
      Up(base, f);
      Substitute(was, elm, base.up, base.sib, base.red, f);
      Up(base.(n := elm), f);
      ZipTo(d, base, elm, u);
    }

    /** RB_REMOVE: the order loses exactly `elm`. */
    method Remove(elm: Node) returns (was: Node, ghost at: nat)
      requires Valid() && elm in nodes
      modifies this, nodes
      ensures Valid() && was == elm && nodes == old(nodes) - {elm}
      ensures at < |old(Order())| && old(Order())[at] == elm && Order() == Without(old(Order()), at)
    {
      hide Head.At, Nodes, CtxNodes, Inorder, Plug, Balanced, Gone, Without, Sorted;
      was := elm;
      ghost var c, t, d, u, k;
      var child, parent, red;
      c, t := Position(elm);
      Fields(c, t);
      if elm.left == null {
        child, d, u := elm.right, c, t.r;
        red, parent, k, at := DetachLone(elm, child, c, t, u);
      } else if elm.right == null {
        child, d, u := elm.left, c, t.l;
        red, parent, k, at := DetachLone(elm, child, c, t, u);
      } else {
        red, parent, child, d, u, k, at := DetachBoth(elm, c, t);
      }
      SortedWithout(Order(), at);
      shape := Repair(red, parent, child, d, u, k);
    }

    lemma Position(elm: Node) returns (c: Ctx, t: Tree)
      requires Valid() && elm in nodes
      ensures At(c, t) && Plug(c, t) == shape && t.Bin? && t.n == elm
    {
      c, t := Locate(Top, shape, elm);
      Zip(c, t);
    }

    method Repair(red: bool, parent: Node?, child: Node?, ghost d: Ctx, ghost u: Tree, ghost k: nat)
      returns (ghost whole: Tree)
      requires At(d, u) && Gone(red, d, u, k) && parent == Parent(d) && child == Root(u)
      modifies `root, nodes
      ensures At(Top, whole) && Balanced(whole) && Inorder(whole) == Inorder(Plug(d, u))
    {
      hide Head.At, Nodes, CtxNodes, Inorder, Plug, Balanced, Short;
      if !red {
        whole := RemoveColor(parent, child, d, u, k);
      } else {
        GoneRed(d, u, k);
        whole := Plug(d, u);
        Zip(d, u);
      }
    }

    /** The order lists exactly the nodes of the tree. */
    lemma Members(n: Node)
      requires Valid()
      ensures n in Order() <==> n in nodes
    {
      InorderNodes(shape, n);
    }

    // ---------------------------------------------------------------- RB_MINMAX

    /** RB_MINMAX: the first node of the order for a negative `val`, else the last; null if there is none. */
    method MinMax(val: int) returns (parent: Node?)
      requires Valid()
      ensures parent == null <==> Order() == []
      ensures parent != null ==> parent == if val < 0 then Order()[0] else Order()[|Order()| - 1]
    {
      hide Head.At, Nodes, CtxNodes, Balanced, Sorted, Inorder, Before, After;
      var tmp := root;
      parent := null;
      ghost var c, t := Top, shape;
      Fields(c, t);
      while tmp != null
        invariant At(c, t) && Plug(c, t) == shape && tmp == Root(t) && parent == Parent(c) && Edge(val < 0, c)
        decreases t
      {
        parent := tmp;
        Fields(c, t);
        if val < 0 {
          tmp := tmp.left;
          c, t := In(true, c, parent, t.red, t.r), t.l;
        } else {
          tmp := tmp.right;
          c, t := In(false, c, parent, t.red, t.l), t.r;
        }
        Up(c, t);
      }
      AtEdge(val < 0, c);
    }
  }
}
