/** The timer index: an intrusive red-black tree with two sentinels.

    The tree is specified by the in-order sequence of the items it holds. Every item
    carries ghost fields for its own subtree: the number of items, their in-order
    sequence and the black height. The whole structure is then one local condition per
    item, and a rotation changes the ghost fields of two items only. The `root` sentinel
    counts as an item that follows everything else: its left subtree is the tree, its
    right subtree is empty. */
module RbTree {
  import opened Splices
  import opened Powers

  class Item {
    var red: bool
    var left: Item
    var right: Item
    var up: Item
    var val: int
    ghost var size: nat
    ghost var span: seq<Item>
    ghost var bh: nat

    constructor ()
      ensures left == this && right == this && up == this
      ensures !red && val == 0 && size == 0 && span == [] && bh == 0
    {
      left, right, up := this, this, this;
      red, val, size, span, bh := false, 0, 0, [], 0;
    }
  }

  class Tree {
    const root: Item
    const nil: Item
    /** The items in the tree and the `root` sentinel. */
    ghost var nodes: set<Item>

    // ---------------------------------------------------------------- invariants

    /** `c` may stand as a child of `n`. */
    ghost predicate Kid(c: Item, n: Item)
      reads `nodes, nodes`up
    {
      c == nil || (c in nodes && c != root && c.up == n)
    }

    ghost predicate Linked(n: Item)
      reads `nodes, root`size, nodes`left, nodes`right, nodes`up, nodes`size, nil`size
    {
      && n in nodes
      && Kid(n.left, n) && Kid(n.right, n)
      && (n.left == n.right ==> n.left == nil)
      && n.size == n.left.size + 1 + n.right.size <= root.size
      && (n != root ==> n.up in nodes && (n.up.left == n || n.up.right == n))
    }

    /** Every link is mirrored by the opposite link, and the tree is finite. */
    ghost predicate Shape()
      reads `nodes, root`right, root`size, nodes`left, nodes`right, nodes`up, nodes`size, nil`size
    {
      && root in nodes && nil !in nodes
      && root.right == nil && nil.size == 0
      && forall n {:trigger Linked(n)} :: n in nodes ==> Linked(n)
    }

    ghost predicate Spanned(n: Item)
      reads `nodes, nodes`left, nodes`right, nodes`size, nodes`span, nil`span
    {
      && n in nodes
      && (n.left == nil || n.left in nodes) && (n.right == nil || n.right in nodes)
      && n.span == n.left.span + [n] + n.right.span
      && n.size == |n.span|
    }

    /** Every span is the in-order sequence of its subtree. */
    ghost predicate Spans()
      reads `nodes, nodes`left, nodes`right, nodes`size, nodes`span, nil`span
    {
      && nil.span == []
      && forall n {:trigger Spanned(n)} :: n in nodes ==> Spanned(n)
    }

    ghost predicate Balanced(n: Item)
      reads `nodes, nodes`left, nodes`right, nodes`red, nodes`bh, nil`bh
    {
      && n in nodes
      && (n.left == nil || n.left in nodes) && (n.right == nil || n.right in nodes)
      && n.left.bh == n.right.bh
      && n.bh == n.left.bh + if n.red then 0 else 1
    }

    /** All paths from an item down to `nil` meet the same number of black items. */
    ghost predicate Heights()
      reads `nodes, nodes`left, nodes`right, nodes`red, nodes`bh, nil`bh
    {
      && nil.bh == 0
      && forall n {:trigger Balanced(n)} :: n in nodes && n != root ==> Balanced(n)
    }

    ghost predicate Calm(c: Item)
      reads `nodes, nodes`up, nodes`red
    {
      c in nodes && c.up in nodes && (c.red ==> !c.up.red)
    }

    /** No red item other than `x` has a red parent. */
    ghost predicate Reds(x: Item)
      reads `nodes, nodes`up, nodes`red, root`red, nil`red
    {
      && !nil.red && !root.red
      && forall c {:trigger Calm(c)} :: c in nodes && c != root && c != x ==> Calm(c)
    }

    /** The root's span lists every item once and then the root. */
    ghost predicate Listed()
      reads `nodes, root`span
    {
      nodes == Elems(root.span) && NoDup(root.span)
    }

    /** The items held, in order. */
    ghost function Contents(): seq<Item>
      reads root`span
    {
      if root.span == [] then [] else root.span[..|root.span| - 1]
    }

    ghost predicate Sorted(s: seq<Item>)
      reads s`val
    {
      forall i, j :: 0 <= i < j < |s| ==> s[i].val <= s[j].val
    }

    ghost predicate Valid()
      reads this, root, nil, nodes, Contents()`val
    {
      && Shape() && Spans() && Listed()
      && Colored()
      && Sorted(Contents())
    }

    constructor ()
      ensures Valid() && Contents() == [] && fresh(root) && fresh(nil)
    {
      var n := new Item();
      var r := new Item();
      r.left, r.right, r.up := n, n, n;
      r.size, r.span := 1, [r];
      nil, root, nodes := n, r, {r};
    }

    // ---------------------------------------------------------------- rotations

    /** The items a rotation around `x` touches are different items. */
    lemma Apart(x: Item, y: Item)
      requires Shape() && x in nodes && x != root && y != nil
      requires y == x.left || y == x.right
      ensures y in nodes && y != root && x.up in nodes
      ensures y.up == x && y != x && x.up != x && x.up != y
      ensures x !in {y.left, y.right} && y !in {y.left, y.right} && x.up !in {y.left, y.right}
      ensures Linked(x) && Linked(y) && Linked(x.up)
    {
      assert Linked(x) && Linked(y) && Linked(x.up);
    }

    /** The stores of a left rotation. */
    method LRotate(x: Item)
      requires x !in {x.right, x.up, x.right.left} && x.right !in {x.up, x.right.left}
      requires x.up != x.right.left
      modifies x`right, x`up, x.right`left, x.right`up
      modifies x.up`left, x.up`right, x.right.left`up
      ensures x.right == old(x.right.left) && x.up == old(x.right)
      ensures x.up.left == x && x.up.up == old(x.up)
      ensures x.right.up == if x.right == nil then old(nil.up) else x
      ensures x.up.up.left == if old(x.up.left) == x then x.up else old(x.up.left)
      ensures x.up.up.right == if old(x.up.left) == x then old(x.up.right) else x.up
    {
      var y := x.right;
      x.right := y.left;
      if y.left != nil { y.left.up := x; }
      y.up := x.up;
      if x == x.up.left {
        x.up.left := y;
      } else {
        x.up.right := y;
      }
      y.left := x;
      x.up := y;
    }

    method RRotate(y: Item)
      requires y !in {y.left, y.up, y.left.right} && y.left !in {y.up, y.left.right}
      requires y.up != y.left.right
      modifies y`left, y`up, y.left`right, y.left`up
      modifies y.up`left, y.up`right, y.left.right`up
      ensures y.left == old(y.left.right) && y.up == old(y.left)
      ensures y.up.right == y && y.up.up == old(y.up)
      ensures y.left.up == if y.left == nil then old(nil.up) else y
      ensures y.up.up.left == if old(y.up.left) == y then y.up else old(y.up.left)
      ensures y.up.up.right == if old(y.up.left) == y then old(y.up.right) else y.up
    {
      var x := y.left;
      y.left := x.right;
      if nil != x.right { x.right.up := y; }
      x.up := y.up;
      if y == y.up.left {
        y.up.left := x;
      } else {
        y.up.right := x;
      }
      x.right := y;
      y.up := x;
    }

    /** The links after `y` has taken the place of its parent `x`; `b`, a former child of
        `y`, is now a child of `x`. */
    twostate predicate Turned(x: Item, y: Item, b: Item)
      reads `nodes, nodes`left, nodes`right, nodes`up, nil`up
    {
      && nodes == old(nodes) && x in nodes && y in nodes && b in nodes + {nil}
      && x.up == y && y.up == old(x.up) && nil.up == old(nil.up)
      && (b != nil ==> b.up == x)
      && (forall n {:trigger n.left} {:trigger n.right} :: n in old(nodes) && n != x && n != y ==>
          && n.left == (if old(n.left) == x then y else old(n.left))
          && n.right == (if old(n.right) == x then y else old(n.right)))
      && (forall n {:trigger n.up} :: n in old(nodes) && n != x && n != y && n != b ==> n.up == old(n.up))
    }

    twostate predicate Resized(x: Item, y: Item)
      reads `nodes, nodes`left, nodes`right, nodes`size, nil`size
    {
      && x in nodes && y in nodes && x in old(nodes) && nil.size == old(nil.size)
      && x.left in nodes + {nil} && x.right in nodes + {nil}
      && y.size == old(x.size) && x.size == x.left.size + 1 + x.right.size
      && forall n {:trigger n.size} :: n in old(nodes) && n in nodes && n != x && n != y ==> n.size == old(n.size)
    }

    twostate predicate TurnedLeft(x: Item, y: Item)
      requires old(y in nodes)
      reads `nodes, nodes`left, nodes`right, nodes`up, nil`up
    {
      && old(x in nodes) && old(x.right) == y
      && Turned(x, y, old(y.left))
      && x.left == old(x.left) && x.right == old(y.left)
      && y.left == x && y.right == old(y.right)
    }

    twostate lemma TurnLeftShape(x: Item, new y: Item)
      requires old(Shape()) && x != root && y != nil
      requires y in old(nodes) && TurnedLeft(x, y)
      requires Resized(x, y)
      ensures Shape()
    {
      assert old(Linked(x) && Linked(y));
      forall n | n in nodes ensures Linked(n) {
        assert old(Linked(n));
      }
    }

    twostate lemma TurnLeftSpans(x: Item, new y: Item)
      requires old(Shape()) && old(Spans()) && x != root && y != nil
      requires y in old(nodes) && TurnedLeft(x, y)
      requires Resized(x, y) && y.span == old(x.span) && x.span == x.left.span + [x] + x.right.span
      requires forall n {:trigger n.span} :: n in old(nodes) && n != x && n != y ==> n.span == old(n.span)
      requires nil.span == old(nil.span)
      ensures Spans()
    {
      assert old(Linked(x) && Linked(y) && Spanned(x) && Spanned(y));
      assert y.span == x.span + [y] + y.right.span;
      forall n | n in nodes ensures Spanned(n) {
        assert old(Spanned(n) && Linked(n));
        if n == x {
          var l, r := x.left, x.right;
          assert (l == nil || old(Spanned(l))) && (r == nil || old(Spanned(r)));
        }
      }
    }

    method RotateLeft(x: Item)
      requires Shape() && Spans() && x in nodes && x != root && x.right != nil
      modifies nodes`left, nodes`right, nodes`up, nodes`size, nodes`span, nil`up
      ensures Shape() && Spans()
      ensures old(x.right) in nodes && TurnedLeft(x, old(x.right))
      ensures old(x.right).span == old(x.span) && root.size == old(root.size)
      ensures forall n :: n in nodes && n != x && n != old(x.right) ==> n.span == old(n.span) && n.size == old(n.size)
    {
      var y := x.right;
      Apart(x, y);
      LRotate(x);
      y.size := x.size;
      x.size := x.left.size + 1 + x.right.size;
      y.span := x.span;
      x.span := x.left.span + [x] + x.right.span;
      forall n | n in nodes && n != x && n != y
        ensures n.left == (if old(n.left) == x then y else old(n.left)) &&
          n.right == (if old(n.right) == x then y else old(n.right))
      {
        assert old(Linked(n));
      }
      TurnLeftShape(x, y);
      TurnLeftSpans(x, y);
    }

    twostate predicate TurnedRight(x: Item, y: Item)
      requires old(y in nodes)
      reads `nodes, nodes`right, nodes`left, nodes`up, nil`up
    {
      && old(x in nodes) && old(x.left) == y
      && Turned(x, y, old(y.right))
      && x.right == old(x.right) && x.left == old(y.right)
      && y.right == x && y.left == old(y.left)
    }

    twostate lemma TurnRightShape(x: Item, new y: Item)
      requires old(Shape()) && x != root && y != nil
      requires y in old(nodes) && TurnedRight(x, y)
      requires Resized(x, y)
      ensures Shape()
    {
      assert old(Linked(x) && Linked(y));
      forall n | n in nodes ensures Linked(n) {
        assert old(Linked(n));
      }
    }

    twostate lemma TurnRightSpans(x: Item, new y: Item)
      requires old(Shape()) && old(Spans()) && x != root && y != nil
      requires y in old(nodes) && TurnedRight(x, y)
      requires Resized(x, y) && y.span == old(x.span) && x.span == x.left.span + [x] + x.right.span
      requires forall n {:trigger n.span} :: n in old(nodes) && n != x && n != y ==> n.span == old(n.span)
      requires nil.span == old(nil.span)
      ensures Spans()
    {
      assert old(Linked(x) && Linked(y) && Spanned(x) && Spanned(y));
      assert y.span == y.left.span + [y] + x.span;
      forall n | n in nodes ensures Spanned(n) {
        assert old(Spanned(n) && Linked(n));
        if n == x {
          var l, r := x.left, x.right;
          assert (l == nil || old(Spanned(l))) && (r == nil || old(Spanned(r)));
        }
      }
    }

    method RotateRight(x: Item)
      requires Shape() && Spans() && x in nodes && x != root && x.left != nil
      modifies nodes`right, nodes`left, nodes`up, nodes`size, nodes`span, nil`up
      ensures Shape() && Spans()
      ensures old(x.left) in nodes && TurnedRight(x, old(x.left))
      ensures old(x.left).span == old(x.span) && root.size == old(root.size)
      ensures forall n :: n in nodes && n != x && n != old(x.left) ==> n.span == old(n.span) && n.size == old(n.size)
    {
      var y := x.left;
      Apart(x, y);
      RRotate(x);
      y.size := x.size;
      x.size := x.right.size + 1 + x.left.size;
      y.span := x.span;
      x.span := x.left.span + [x] + x.right.span;
      forall n | n in nodes && n != x && n != y
        ensures n.right == (if old(n.right) == x then y else old(n.right)) &&
          n.left == (if old(n.left) == x then y else old(n.left))
      {
        assert old(Linked(n));
      }
      TurnRightShape(x, y);
      TurnRightSpans(x, y);
    }

    // ---------------------------------------------------------------- insertion

    /** What the loop of `Insert` keeps: only the red item `x` may sit below a red parent. */
    ghost predicate Inserting(x: Item)
      reads this, root, nil, nodes
    {
      && Shape() && Spans() && Heights() && Reds(x)
      && x in nodes && x != root && x.red
      && (root.left in nodes ==> root.left == x || !root.left.red)
    }

    /** The parent and the grandparent of `x` are items, red and black. */
    ghost predicate Family(x: Item)
      reads this, root, nil, nodes
    {
      && x in nodes && x != root && x.up in nodes && x.up.up in nodes
      && var p, g := x.up, x.up.up;
      && p != root && g != root && x.red && p.red && !g.red
      && x != p && x != g && p != g
      && Linked(x) && Linked(p) && Linked(g)
      && Balanced(x) && Balanced(p) && Balanced(g)
    }

    lemma Elders(x: Item)
      requires Inserting(x) && x.up.red
      ensures Family(x)
    {
      var p, g := x.up, x.up.up;
      assert Linked(x);
      assert Linked(p) && Calm(p);
      assert Linked(g);
      assert Balanced(x) && Balanced(p);
    }

    /** Only colours and black heights have changed. */
    twostate predicate Repainted()
      reads this, nodes, nil
    {
      unchanged(`nodes) && unchanged(nodes`left, nodes`right, nodes`up, nodes`size, nodes`span, nodes`val, nil)
    }

    twostate predicate Painted(n: Item, red: bool, bh: int)
      reads n`red, n`bh
    {
      n.red == red && n.bh == bh
    }

    /** The parent `p` and the uncle `y` have turned black, the grandparent `g` red. */
    twostate predicate Recolored(p: Item, new y: Item, new g: Item)
      reads this, nodes, nil
    {
      && p in old(nodes) && y in old(nodes) && g in old(nodes)
      && Repainted() && PaintedAt(p, y, g)
      && !p.red && !y.red && g.red
      && p.bh == old(p.bh) + 1 && y.bh == old(y.bh) + 1 && g.bh == old(g.bh)
    }

    twostate lemma RecolorHeights(x: Item, new y: Item)
      requires y in old(nodes) && old(Inserting(x) && Family(x) && y.red)
      requires old(x.up != y && (y == x.up.up.left || y == x.up.up.right))
      requires Recolored(old(x.up), y, old(x.up.up))
      ensures Heights()
    {
      assert old(Linked(y) && Balanced(y));
      forall n | n in nodes && n != root ensures Balanced(n) {
        assert old(Linked(n) && Balanced(n));
      }
    }

    twostate lemma RecolorReds(x: Item, new y: Item)
      requires y in old(nodes) && old(Inserting(x) && Family(x) && y.red)
      requires old(x.up != y && (y == x.up.up.left || y == x.up.up.right))
      requires Recolored(old(x.up), y, old(x.up.up))
      ensures Reds(x.up.up) && (root.left in nodes ==> root.left == x.up.up || !root.left.red)
    {
      assert old(Linked(y) && Linked(root));
      var z := x.up.up;
      forall c | c in nodes && c != root && c != z ensures Calm(c) {
        assert old(Linked(c));
        if c != x { assert old(Calm(c)); }
      }
    }

    method RecolorPaint(p: Item, y: Item, g: Item)
      requires p != y && p != g && y != g
      modifies p`red, p`bh, y`red, y`bh, g`red
      ensures !p.red && !y.red && g.red && p.bh == old(p.bh) + 1 && y.bh == old(y.bh) + 1
    {
      p.red := false;
      y.red := false;
      g.red := true;
      p.bh, y.bh := p.bh + 1, y.bh + 1;
    }

    /** The uncle `y` is red: recolour and move the conflict up. */
    method Recolor(x: Item, y: Item) returns (z: Item)
      requires Inserting(x) && Family(x) && y.red
      requires x.up != y && (y == x.up.up.left || y == x.up.up.right)
      modifies nodes`red, nodes`bh
      ensures Inserting(z) && z.size > x.size && Repainted()
    {
      assert Linked(y);
      RecolorPaint(x.up, y, x.up.up);
      z := x.up.up;
      RecolorHeights(x, y);
      RecolorReds(x, y);
    }

    twostate lemma RedTurnKeeps(x: Item, new p: Item)
      requires p in old(nodes) && old(Inserting(x) && Family(x) && x.up == p)
      requires TurnedLeft(p, x) || TurnedRight(p, x)
      requires Shape() && Spans() && unchanged(nodes`red, nodes`bh, nil`red, nil`bh)
      ensures Inserting(p) && Family(p) && p.up == x && x.up == old(p.up)
    {
      forall n | n in nodes && n != root ensures Balanced(n) {
        assert old(Linked(n) && Balanced(n));
      }
      forall c | c in nodes && c != root && c != p ensures Calm(c) {
        assert old(Linked(c)) && Linked(c);
        if c != x { assert old(Calm(c)); }
      }
      assert old(Linked(root)) && Linked(p) && Linked(x) && Linked(old(x.up.up));
    }

    /** Colours and black heights have changed at `p`, `g` and `f` only. */
    twostate predicate PaintedAt(p: Item, g: Item, f: Item)
      reads `nodes, nodes`red, nodes`bh, nil
    {
      && nil.red == old(nil.red) && nil.bh == old(nil.bh)
      && forall n {:trigger n.red} {:trigger n.bh} :: n in old(nodes) && n in nodes && n != p && n != g && n != f ==>
          n.red == old(n.red) && n.bh == old(n.bh)
    }

    twostate lemma OuterTurnKeeps(x: Item, new p: Item, new g: Item)
      requires p in old(nodes) && g in old(nodes)
      requires old(Inserting(x) && Family(x) && x.up == p && p.up == g)
      requires (TurnedRight(g, p) && old(p.left == x && !g.right.red))
            || (TurnedLeft(g, p) && old(p.right == x && !g.left.red))
      requires Shape() && Spans() && PaintedAt(p, g, g)
      requires !p.red && g.red && p.bh == old(g.bh) && g.bh == old(p.bh)
      ensures Inserting(x) && !x.up.red
    {
      forall n | n in nodes && n != root ensures Balanced(n) {
        assert old(Linked(n) && Balanced(n));
      }
      forall c | c in nodes && c != root && c != x ensures Calm(c) {
        assert old(Linked(c)) && Linked(c);
        if c != p && c != g { assert old(Calm(c)); }
      }
      assert old(Linked(root)) && Linked(x);
    }

    method SettleRight(x: Item)
      requires Inserting(x) && Family(x) && x == x.up.left && x.up == x.up.up.left && !x.up.up.right.red
      modifies nodes`red, nodes`left, nodes`right, nodes`up, nodes`size, nodes`span, nodes`bh, nil`up
      ensures Inserting(x) && !x.up.red && root.span == old(root.span) && root.size == old(root.size)
    {
      ghost var p, g := x.up, x.up.up;
      x.up.red := false;
      x.up.up.red := true;
      p.bh, g.bh := g.bh, p.bh;
      RotateRight(x.up.up);
      OuterTurnKeeps(x, p, g);
    }

    method SettleLeft(x: Item)
      requires Inserting(x) && Family(x) && x == x.up.right && x.up == x.up.up.right && !x.up.up.left.red
      modifies nodes`red, nodes`left, nodes`right, nodes`up, nodes`size, nodes`span, nodes`bh, nil`up
      ensures Inserting(x) && !x.up.red && root.span == old(root.span) && root.size == old(root.size)
    {
      ghost var p, g := x.up, x.up.up;
      x.up.red := false;
      x.up.up.red := true;
      p.bh, g.bh := g.bh, p.bh;
      RotateLeft(x.up.up);
      OuterTurnKeeps(x, p, g);
    }

    /** One round of the loop of `Insert` for an `x` whose parent is a left child. */
    method InsertFixLeft(x: Item) returns (z: Item)
      requires Inserting(x) && Family(x) && x.up == x.up.up.left
      modifies nodes`red, nodes`left, nodes`right, nodes`up, nodes`size, nodes`span, nodes`bh, nil`up
      ensures Inserting(z) && root.span == old(root.span) && root.size == old(root.size)
      ensures z.up.red ==> z.size > old(x.size)
    {
      var y := x.up.up.right;
      z := x;
      if y.red {
        z := Recolor(z, y);
      } else {
        if z == z.up.right {
          z := z.up;
          RotateLeft(z);
          RedTurnKeeps(x, z);
        }
        SettleRight(z);
      }
    }

    method InsertFixRight(x: Item) returns (z: Item)
      requires Inserting(x) && Family(x) && x.up == x.up.up.right
      modifies nodes`red, nodes`left, nodes`right, nodes`up, nodes`size, nodes`span, nodes`bh, nil`up
      ensures Inserting(z) && root.span == old(root.span) && root.size == old(root.size)
      ensures z.up.red ==> z.size > old(x.size)
    {
      var y := x.up.up.left;
      z := x;
      if y.red {
        z := Recolor(z, y);
      } else {
        if z == z.up.left {
          z := z.up;
          RotateRight(z);
          RedTurnKeeps(x, z);
        }
        SettleLeft(z);
      }
    }

    // ---------------------------------------------------------------- spans

    /** The span of every item is a stretch of the root's span. */
    lemma Within(n: Item) returns (a: seq<Item>, b: seq<Item>)
      requires Shape() && Spans() && n in nodes
      ensures root.span == a + n.span + b
      decreases root.size - n.size
    {
      assert Linked(n) && Spanned(n);
      if n == root {
        a, b := [], [];
      } else {
        var p := n.up;
        assert Linked(p) && Spanned(p);
        a, b := Within(p);
        if n == p.left {
          b := [p] + p.right.span + b;
        } else {
          a := a + p.left.span + [p];
        }
      }
    }

    /** Replacing an item of the tree by a sequence lengthens no span beyond the root's. */
    ghost predicate Fits(y: Item, t: seq<Item>)
      reads `nodes, nodes`span, root`span
    {
      forall n {:trigger n.span} :: n in nodes ==> |Splice(n.span, y, t)| <= |Splice(root.span, y, t)|
    }

    lemma AllFit(y: Item, t: seq<Item>)
      requires Shape() && Spans()
      ensures Fits(y, t)
    {
      forall n | n in nodes ensures |Splice(n.span, y, t)| <= |Splice(root.span, y, t)| {
        var a, b := Within(n);
        SpliceConcat(a + n.span, b, y, t);
        SpliceConcat(a, n.span, y, t);
      }
    }

    lemma SpliceSpan(n: Item, l: seq<Item>, r: seq<Item>, y: Item, t: seq<Item>)
      ensures Splice(l + [n] + r, y, t) == Splice(l, y, t) + (if n == y then t else [n]) + Splice(r, y, t)
    {
      SpliceConcat(l + [n], r, y, t);
      SpliceConcat(l, [n], y, t);
      assert Splice([n], y, t) == (if n == y then t else [n]) + Splice([n][1..], y, t);
    }

    ghost method Respan(y: Item, t: seq<Item>)
      modifies nodes`size, nodes`span
      ensures forall n {:trigger n.span} {:trigger n.size} :: n in nodes ==>
        n.span == Splice(old(n.span), y, t) && n.size == |n.span|
    {
      forall n | n in nodes { n.size := |Splice(n.span, y, t)|; }
      forall n | n in nodes { n.span := Splice(n.span, y, t); }
    }

    /** Every span has had `y` replaced by `t`. */
    twostate predicate Respanned(y: Item, new t: seq<Item>)
      reads `nodes, nodes`size, nodes`span, nil
    {
      && nil.span == old(nil.span) && nil.size == old(nil.size)
      && forall n {:trigger n.span} {:trigger n.size} :: n in old(nodes) && n in nodes ==>
          n.span == Splice(old(n.span), y, t) && n.size == |n.span|
    }

    /** `z` hangs below `y` where `nil` was. */
    twostate predicate Attached(y: Item, new z: Item, new t: seq<Item>)
      requires y in old(nodes)
      reads `nodes, nodes, nil
    {
      && nodes == old(nodes) + {z} && z !in old(nodes) && z != nil
      && z.left == nil && z.right == nil && z.up == y && z.span == [z] && z.size == 1
      && ((y.left == z && old(y.left) == nil && y.right == old(y.right) && t == [z, y])
          || (y.right == z && old(y.right) == nil && y.left == old(y.left) && t == [y, z] && y != root))
      && (forall n {:trigger n.left} {:trigger n.right} :: n in old(nodes) && n != y ==>
          n.left == old(n.left) && n.right == old(n.right))
      && (forall n {:trigger n.up} :: n in old(nodes) ==> n.up == old(n.up))
      && Respanned(y, t)
    }

    twostate lemma AttachSpans(y: Item, new z: Item, new t: seq<Item>)
      requires old(Shape() && Spans()) && y in old(nodes) && Attached(y, z, t)
      ensures Spans()
    {
      forall n | n in nodes ensures Spanned(n) {
        if n != z {
          assert old(Linked(n) && Spanned(n));
          SpliceSpan(n, old(n.left.span), old(n.right.span), y, t);
          assert Splice([], y, t) == [];
        }
      }
    }

    twostate lemma AttachShape(y: Item, new z: Item, new t: seq<Item>)
      requires forall n {:trigger n.span} :: n in old(nodes) ==> |n.span| <= |root.span|
      requires old(Shape() && Spans()) && y in old(nodes) && Attached(y, z, t) && Spans()
      ensures Shape()
    {
      assert Spanned(z) && Spanned(root) && Spanned(y);
      forall n | n in nodes ensures Linked(n) {
        assert Spanned(n);
        if n != z {
          assert old(Linked(n) && Spanned(n));
          assert n.left == nil || Spanned(n.left);
          assert n.right == nil || Spanned(n.right);
        }
      }
    }

    twostate lemma AttachInserting(y: Item, new z: Item, new t: seq<Item>)
      requires old(Shape() && Colored())
      requires y in old(nodes) && Attached(y, z, t) && Shape() && Spans()
      requires z.red && z.bh == 0 && nil.red == old(nil.red) && nil.bh == old(nil.bh)
      requires forall n {:trigger n.red} {:trigger n.bh} :: n in old(nodes) ==> n.red == old(n.red) && n.bh == old(n.bh)
      ensures Inserting(z)
    {
      assert old(Linked(root)) && Linked(z);
      forall n | n in nodes && n != root ensures Balanced(n) {
        if n != z { assert old(Linked(n) && Balanced(n)); }
      }
      forall c | c in nodes && c != root && c != z ensures Calm(c) {
        assert old(Calm(c));
      }
    }

    /** `z` goes behind the items of `a`, whose values are no larger, and before those of `b`. */
    ghost predicate Slot(a: seq<Item>, b: seq<Item>, v: int)
      reads a`val, b`val
    {
      && (forall i :: 0 <= i < |a| ==> a[i].val <= v)
      && (forall i :: 0 <= i < |b| - 1 ==> b[i].val > v)
    }

    /** Going down from `x` keeps the stretch of the root's span where `v` belongs. */
    lemma DescendStep(x: Item, a: seq<Item>, b: seq<Item>, v: int)
      requires x in nodes && Spanned(x)
      requires root.span == a + x.span + b && b != [] && Slot(a, b, v) && Sorted(Contents())
      ensures x.val > v ==> var b' := [x] + x.right.span + b;
        root.span == a + x.left.span + b' && Slot(a, b', v)
      ensures x.val <= v ==> var a' := a + x.left.span + [x];
        root.span == a' + x.right.span + b && Slot(a', b, v)
    {
      var k := |a| + |x.left.span|;
      var s := root.span;
      assert s == a + x.left.span + [x] + x.right.span + b;
      assert s[k] == x && Contents()[k] == x;
      if x.val > v {
        var b' := [x] + x.right.span + b;
        assert s == a + x.left.span + b';
        forall i | 0 <= i < |b'| - 1 ensures b'[i].val > v {
          assert b'[i] == s[k + i] == Contents()[k + i];
        }
      } else {
        var a' := a + x.left.span + [x];
        assert s == a' + x.right.span + b;
        forall i | 0 <= i < |a'| ensures a'[i].val <= v {
          assert a'[i] == s[i] == Contents()[i];
        }
      }
    }

    /** The item below which `v` belongs, on the left iff it is the root or larger than `v`. */
    method Descend(v: int) returns (y: Item, ghost a: seq<Item>, ghost b: seq<Item>)
      requires Shape() && Spans() && Sorted(Contents())
      ensures y in nodes && root.span == a + b && b != [] && Slot(a, b, v)
      ensures if y == root || y.val > v then y.left == nil && b[0] == y
              else y.right == nil && a != [] && a[|a| - 1] == y
    {
      y := root;
      var x := root.left;
      assert Linked(root) && Spanned(root);
      a, b := [], [root];
      while x != nil
        invariant y in nodes && Kid(x, y) && root.span == a + x.span + b && b != []
        invariant Slot(a, b, v)
        invariant if y == root || y.val > v then x == y.left && b[0] == y
                  else x == y.right && a != [] && a[|a| - 1] == y
        decreases x.size
      {
        assert Linked(x) && Spanned(x);
        DescendStep(x, a, b, v);
        y := x;
        if x.val > v {
          b := [x] + x.right.span + b;
          x := x.left;
        } else {
          a := a + x.left.span + [x];
          x := x.right;
        }
      }
    }

    method Hang(y: Item, z: Item)
      requires y != z
      modifies z`left, z`right, z`up, y`left, y`right
      ensures z.left == nil && z.right == nil && z.up == y
      ensures if y == root || y.val > z.val then y.left == z && y.right == old(y.right)
              else y.right == z && y.left == old(y.left)
    {
      z.left, z.right := nil, nil;
      z.up := y;
      if y == root || y.val > z.val {
        y.left := z;
      } else {
        y.right := z;
      }
    }

    method Attach(y: Item, z: Item, ghost t: seq<Item>)
      requires Shape() && Spans() && y in nodes && z !in nodes && z != nil
      requires if y == root || y.val > z.val then y.left == nil && t == [z, y] else y.right == nil && t == [y, z]
      modifies this, z`left, z`right, z`up, z`size, z`span, nodes`left, nodes`right, nodes`size, nodes`span
      ensures Attached(y, z, t) && Shape() && Spans()
    {
      assert Linked(root) && Linked(y);
      AllFit(y, t);
      Hang(y, z);
      Respan(y, t);
      z.size, z.span := 1, [z];
      nodes := nodes + {z};
      AttachSpans(y, z, t);
      AttachShape(y, z, t);
    }

    /** The new root span lists `z` once, between `a` and `b`. */
    lemma SplicedIn(a: seq<Item>, b: seq<Item>, y: Item, z: Item, t: seq<Item>)
      requires NoDup(a + b) && z !in Elems(a + b)
      requires (b != [] && b[0] == y && t == [z, y]) || (a != [] && a[|a| - 1] == y && t == [y, z])
      ensures Splice(a + b, y, t) == a + [z] + b && NoDup(a + [z] + b)
      ensures Elems(a + [z] + b) == Elems(a + b) + {z}
    {
      ElemsAre(a + b);
      assert forall n :: n in a || n in b ==> n in a + b;
      NoDupAround(a, z, b);
      if b != [] && b[0] == y && t == [z, y] {
        SplicedBefore(a, b, y, z);
      } else {
        SplicedAfter(a, b, y, z);
      }
    }

    lemma SplicedBefore(a: seq<Item>, b: seq<Item>, y: Item, z: Item)
      requires NoDup(a + b) && b != [] && b[0] == y
      ensures Splice(a + b, y, [z, y]) == a + [z] + b
    {
      assert a + b == a + [y] + b[1..];
      SpliceOnce(a, y, b[1..], [z, y]);
      assert a + [z, y] + b[1..] == a + [z] + b;
    }

    lemma SplicedAfter(a: seq<Item>, b: seq<Item>, y: Item, z: Item)
      requires NoDup(a + b) && a != [] && a[|a| - 1] == y
      ensures Splice(a + b, y, [y, z]) == a + [z] + b
    {
      var c := a[..|a| - 1];
      assert a + b == c + [y] + b;
      SpliceOnce(c, y, b, [y, z]);
      assert c + [y, z] + b == a + [z] + b;
    }

    method InsertHelp(z: Item) returns (ghost y: Item, ghost t: seq<Item>, ghost a: seq<Item>, ghost b: seq<Item>)
      requires Shape() && Spans() && Sorted(Contents()) && z !in nodes && z != nil
      modifies this, z`left, z`right, z`up, z`size, z`span, nodes`left, nodes`right, nodes`size, nodes`span
      ensures y in old(nodes) && Attached(y, z, t) && Shape() && Spans()
      ensures old(root.span) == a + b && b != [] && Slot(a, b, z.val)
      ensures (b[0] == y && t == [z, y]) || (a != [] && a[|a| - 1] == y && t == [y, z])
    {
      var y';
      y', a, b := Descend(z.val);
      y := y';
      t := if y == root || y.val > z.val then [z, y] else [y, z];
      Attach(y', z, t);
    }

    twostate lemma TopBlackened(x: Item)
      requires old(Inserting(x) && !x.up.red && root.left in nodes)
      requires Repainted() && PaintedAt(root.left, root.left, root.left)
      requires Painted(root.left, false, old(root.left.bh) + if old(root.left.red) then 1 else 0)
      ensures Shape() && Spans() && Heights() && Reds(nil) && !root.left.red
    {
      assert old(Linked(root) && Linked(x));
      forall n | n in nodes && n != root ensures Balanced(n) {
        assert old(Linked(n) && Balanced(n));
      }
      forall c | c in nodes && c != root ensures Calm(c) {
        assert old(Linked(c));
        if c != x { assert old(Calm(c)); }
      }
    }

    /** The colours of a finished tree. */
    ghost predicate Colored()
      reads this, root, nil, nodes
    {
      Heights() && Reds(nil) && (root.left in nodes ==> !root.left.red)
    }

    /** The loop of `dill_rbtree_insert` and the store after it. */
    method InsertFixup(item: Item)
      requires Inserting(item)
      modifies nodes`red, nodes`left, nodes`right, nodes`up, nodes`size, nodes`span, nodes`bh, nil`up
      ensures Shape() && Spans() && Colored() && root.span == old(root.span)
    {
      var x := item;
      while x.up.red
        invariant Inserting(x) && root.span == old(root.span)
        decreases if x.up.red then root.size - x.size + 1 else 0
      {
        Elders(x);
        if x.up == x.up.up.left {
          x := InsertFixLeft(x);
        } else {
          x := InsertFixRight(x);
        }
      }
      HasTop(x);
      label paint:
      if root.left.red { root.left.bh := root.left.bh + 1; }
      root.left.red := false;
      TopBlackened@paint(x);
    }

    /** A tree with an item has a top. */
    lemma HasTop(x: Item)
      requires Shape() && x in nodes && x != root
      ensures root.left in nodes
    {
      assert Linked(x) && Linked(root) && Linked(x.up);
    }

    lemma SortedInsert(a: seq<Item>, z: Item, b: seq<Item>)
      requires Sorted(a + b)
      requires (forall i :: 0 <= i < |a| ==> a[i].val <= z.val) && (forall i :: 0 <= i < |b| ==> z.val < b[i].val)
      ensures Sorted(a + [z] + b)
    {
      var s, r := a + [z] + b, a + b;
      assert forall i :: 0 <= i < |a| ==> s[i] == a[i] == r[i];
      assert forall i :: |a| < i < |s| ==> s[i] == b[i - |a| - 1] == r[i - 1];
    }

    lemma Outside(z: Item)
      requires Listed() && z !in nodes && Spanned(root) && root.right == nil && nil.span == []
      ensures root.span == Contents() + [root] && z !in Contents()
    {
      ElemsAre(root.span);
      assert forall i :: 0 <= i < |Contents()| ==> Contents()[i] == root.span[i];
    }

    lemma LastIsRoot(was: seq<Item>, a: seq<Item>, z: Item, c: seq<Item>)
      requires was + [root] == a + c && c != []
      ensures was == a + c[..|c| - 1]
      ensures (a + [z] + c)[..|a + [z] + c| - 1] == a + [z] + c[..|c| - 1]
    {
      var s := was + [root];
      assert s[..|s| - 1] == was;
    }

    /** Hangs `item` below a leaf, red. */
    method Place(item: Item) returns (ghost y: Item, ghost t: seq<Item>, ghost a: seq<Item>, ghost b: seq<Item>)
      requires Shape() && Spans() && Colored() && Sorted(Contents()) && item !in nodes && item != nil
      modifies this, item`left, item`right, item`up, item`red, item`size, item`span, item`bh
      modifies nodes`left, nodes`right, nodes`size, nodes`span
      ensures Inserting(item) && nodes == old(nodes) + {item}
      ensures old(root.span) == a + b && b != [] && Slot(a, b, item.val)
      ensures (b[0] == y && t == [item, y]) || (a != [] && a[|a| - 1] == y && t == [y, item])
      ensures root.span == Splice(old(root.span), y, t)
    {
      y, t, a, b := InsertHelp(item);
      item.red := true;
      item.bh := 0;
      AttachInserting(y, item, t);
    }

    /** `dill_rbtree_insert` up to the order of the items. */
    method InsertLinks(item: Item) returns (ghost a: seq<Item>, ghost b: seq<Item>)
      requires Shape() && Spans() && Colored() && Sorted(Contents()) && Listed() && item !in nodes && item != nil
      modifies this, nodes`red, nodes`left, nodes`right, nodes`up, nodes`size, nodes`span, nodes`bh, nil`up
      modifies item`left, item`right, item`up, item`red, item`size, item`span, item`bh
      ensures Shape() && Spans() && Colored() && Listed() && nodes == old(nodes) + {item}
      ensures old(root.span) == a + b && b != [] && root.span == a + [item] + b && Slot(a, b, item.val)
    {
      ghost var y, t;
      y, t, a, b := Place(item);
      SplicedIn(a, b, y, item, t);
      InsertFixup(item);
    }

    /** Inserts `item` behind every item whose value is at most `val`. */
    method Insert(val: int, item: Item) returns (ghost a: seq<Item>, ghost b: seq<Item>)
      requires Valid() && item !in nodes && item != nil
      modifies this, item, nodes, nil`up
      ensures Valid() && nodes == old(nodes) + {item}
      ensures old(Contents()) == a + b && Contents() == a + [item] + b
      ensures item.val == val && forall n :: n in old(nodes) ==> n.val == old(n.val)
      ensures forall i :: 0 <= i < |a| ==> a[i].val <= val
      ensures forall i :: 0 <= i < |b| ==> b[i].val > val
    {
      ghost var was, c := Contents(), [];
      assert root.span == was + [root] && item !in was by { Outside(item); }
      item.val := val;
      a, c := InsertLinks(item);
      b := c[..|c| - 1];
      assert was == a + b && Contents() == a + [item] + b by { LastIsRoot(was, a, item, c); }
      assert Sorted(Contents()) by { SortedInsert(a, item, b); }
    }

    // ---------------------------------------------------------------- depth

    /** The number of items on the longest way down from `n`. */
    ghost function Depth(n: Item): nat
      requires Shape() && (n == nil || n in nodes)
      reads `nodes, root`right, root`size, nodes`left, nodes`right, nodes`up, nodes`size, nil`size
      decreases n.size
    {
      if n == nil then 0
      else
        assert Linked(n);
        1 + if Depth(n.left) >= Depth(n.right) then Depth(n.left) else Depth(n.right)
    }

    lemma {:induction false} DepthAndHeight(n: Item)
      requires Shape() && Heights() && Reds(nil) && n != root && (n == nil || n in nodes)
      ensures Depth(n) <= 2 * n.bh + if n.red then 1 else 0
      ensures Pow2(n.bh) <= n.size + 1
      decreases n.size
    {
      if n != nil {
        assert Linked(n) && Balanced(n);
        DepthAndHeight(n.left);
        DepthAndHeight(n.right);
        assert n.left == nil || Calm(n.left);
        assert n.right == nil || Calm(n.right);
      }
    }

    /** The depth of a tree of n items is at most 2 log2(n + 1). */
    lemma Logarithmic()
      requires Valid()
      ensures root.left == nil || root.left in nodes
      ensures Pow2(Depth(root.left)) <= (|Contents()| + 1) * (|Contents()| + 1)
    {
      assert Linked(root) && Spanned(root) && (root.left == nil || Spanned(root.left));
      var t := root.left;
      DepthAndHeight(t);
      var h, n := Pow2(t.bh), |Contents()| + 1;
      Pow2Monotone(Depth(t), 2 * t.bh);
      Pow2Sum(t.bh, t.bh);
      assert h * h <= n * n by { MulMonotone(h, n); }
    }

    // ---------------------------------------------------------------- iteration

    /** The first item of the subtree of `n`. */
    method Leftmost(n: Item) returns (y: Item)
      requires Shape() && Spans() && n in nodes && n != root
      ensures y in nodes && y != root && y.left == nil
      ensures n.span != [] && n.span[0] == y
    {
      y := n;
      assert Linked(n) && Spanned(n);
      while y.left != nil
        invariant y in nodes && y != root && y.span <= n.span
        decreases y.size
      {
        assert Linked(y) && Spanned(y);
        y := y.left;
      }
      assert Spanned(y);
    }

    method First() returns (x: Item?)
      requires Valid()
      ensures if Contents() == [] then x == null else x == Contents()[0]
    {
      assert Linked(root) && Spanned(root);
      if root.left == nil {
        return null;
      }
      assert Spanned(root.left);
      x := Leftmost(root.left);
    }

    /** The item behind `x`, or `nil` behind the last one. */
    method NextHelp(x: Item) returns (y: Item, ghost a: seq<Item>, ghost b: seq<Item>)
      requires Shape() && Spans() && x in nodes && x != root
      ensures y != root && (y == nil || y in nodes)
      ensures root.span == a + [x, if y == nil then root else y] + b
      ensures x.right != nil ==> y in nodes && y.left == nil
    {
      assert Linked(x) && Spanned(x);
      if x.right != nil {
        y := Leftmost(x.right);
        a, b := Within(x);
        a, b := a + x.left.span, x.right.span[1..] + b;
      } else {
        var c := x;
        y := x.up;
        while c == y.right
          invariant c in nodes && c != root && y == c.up && c.span != [] && c.span[|c.span| - 1] == x
          decreases root.size - c.size
        {
          assert Linked(c) && Linked(y) && Spanned(y);
          c := y;
          y := y.up;
        }
        assert Linked(c) && Linked(y) && Spanned(y);
        a, b := Within(y);
        ghost var s := c.span[..|c.span| - 1];
        assert c.span == s + [x];
        a, b := a + s, y.right.span + b;
        if y == root {
          y := nil;
        }
      }
    }

    /** The items before the root are those of the tree. */
    lemma Listing(k: nat)
      requires Spans() && Listed() && root in nodes && root.right == nil && k < |Contents()|
      ensures root.span == Contents() + [root] && Contents()[k] in nodes && Contents()[k] != root
    {
      assert Spanned(root);
      ElemsAre(root.span);
      assert root.span == Contents() + [root];
      assert root.span[k] == Contents()[k] && root.span[|root.span| - 1] == root;
      NoDupAt(root.span, k, |root.span| - 1);
    }

    /** If `x` is the `k`-th item, then `r` is the one behind it, if any. */
    ghost predicate Follows(k: nat, x: Item, r: Item?)
      reads root`span
    {
      k < |Contents()| && Contents()[k] == x ==> r == if k + 1 < |Contents()| then Contents()[k + 1] else null
    }

    method Next(x: Item) returns (r: Item?)
      requires Valid() && x in nodes && x != root
      ensures forall k :: 0 <= k < |Contents()| ==> Follows(k, x, r)
    {
      ghost var a, b;
      var it;
      it, a, b := NextHelp(x);
      r := if it == nil then null else it;
      forall k | 0 <= k < |Contents()| ensures Follows(k, x, r) {
        Listing(k);
        if Contents()[k] == x {
          NextAt(root.span, a, x, if it == nil then root else it, b, k);
          if k + 1 < |Contents()| { Listing(k + 1); }
        }
      }
    }

    lemma NextAt(s: seq<Item>, a: seq<Item>, x: Item, y: Item, b: seq<Item>, k: nat)
      requires NoDup(s) && s == a + [x, y] + b && k < |s| && s[k] == x
      ensures k == |a| && s[k + 1] == y
    {
      if k < |a| { NoDupAt(s, k, |a|); } else if |a| < k { NoDupAt(s, |a|, k); }
    }

    /** Walking from `First` by `Next` visits the contents in order, each item once. */
    method Walk() returns (s: seq<Item>)
      requires Valid()
      ensures s == Contents()
    {
      s := [];
      var it := First();
      while it != null
        invariant s <= Contents()
        invariant if |s| < |Contents()| then it == Contents()[|s|] else it == null
        decreases |Contents()| - |s|
      {
        Listing(|s|);
        s := s + [it];
        var r := Next(it);
        assert Follows(|s| - 1, it, r);
        it := r;
      }
    }

    // ---------------------------------------------------------------- removal

    /** Colours as in a finished tree, except around `x`. */
    ghost predicate RedsNear(x: Item)
      reads `nodes, nodes`up, nodes`red, root`red, nil`red
    {
      && !nil.red && !root.red
      && forall c {:trigger Calm(c)} :: c in nodes && c != root && c != x && c.up != x ==> Calm(c)
    }

    /** The paths through `x` are one black item short of those through its sibling. */
    ghost predicate Lacking(p: Item, x: Item)
      reads `nodes, nodes`left, nodes`right, nodes`red, nodes`bh, nil`bh
    {
      && p in nodes
      && (p.left == nil || p.left in nodes) && (p.right == nil || p.right in nodes)
      && var dl, dr := if x == p.left then 1 else 0, if x == p.left then 0 else 1;
      && p.left.bh + dl == p.right.bh + dr
      && p.bh == p.left.bh + dl + if p.red then 0 else 1
    }

    /** What the loop of `Fixup` keeps: only the paths through `x` lack a black item. */
    ghost predicate Erasing(x: Item)
      reads this, root, nil, nodes, x
    {
      && Shape() && Spans() && RedsNear(x) && nil.bh == 0
      && (x == nil || x in nodes) && x != root
      && x.up in nodes && (x == x.up.left || (x == x.up.right && x.up != root))
      && (forall n {:trigger Balanced(n)} :: n in nodes && n != root && n != x.up ==> Balanced(n))
      && (x.up != root ==> Lacking(x.up, x))
      && (root.left in nodes ==> root.left == x || !root.left.red)
    }

    /** The sibling `w` of a black `x` is an item. */
    ghost predicate Sibling(x: Item, p: Item, w: Item)
      reads this, root, nil, nodes, x
    {
      && x.up == p && p in nodes && p != root && w in nodes && w != root && w != x && w != p
      && ((x == p.left && w == p.right) || (x == p.right && w == p.left))
      && Linked(p) && Linked(w) && Balanced(w) && Lacking(p, x) && w.bh == x.bh + 1
    }

    lemma FindSibling(x: Item) returns (w: Item)
      requires Erasing(x) && x.up != root
      ensures w == if x == x.up.left then x.up.right else x.up.left
      ensures Sibling(x, x.up, w)
    {
      var p := x.up;
      assert Linked(p);
      w := if x == p.left then p.right else p.left;
      assert Linked(w) && Balanced(w);
    }

    /** The red sibling `w` has been rotated above `p`. */
    twostate predicate RedTurned(x: Item, new p: Item, new w: Item)
      reads this, nodes, nil
    {
      && p in old(nodes) && w in old(nodes)
      && old(p.left in nodes + {nil} && p.right in nodes + {nil})
      && ((TurnedLeft(p, w) && old(p.left == x)) || (TurnedRight(p, w) && old(p.right == x)))
      && PaintedAt(p, w, w)
      && !w.red && p.red && w.bh == old(w.bh) + 1 && p.bh == old(p.bh) - 1
    }

    twostate lemma RedSiblingHeights(x: Item, new p: Item, new w: Item)
      requires RedTurned(x, p, w) && old(Erasing(x) && Sibling(x, p, w) && w.red)
      requires Shape()
      ensures Lacking(p, x) && forall n {:trigger Balanced(n)} :: n in nodes && n != root && n != p ==> Balanced(n)
    {
      assert old(Linked(p) && Calm(w));
      forall n | n in nodes && n != root && n != p ensures Balanced(n) {
        assert old(Linked(n) && Balanced(n));
      }
    }

    twostate lemma RedSiblingReds(x: Item, new p: Item, new w: Item)
      requires RedTurned(x, p, w) && old(Erasing(x) && Sibling(x, p, w) && w.red)
      requires Shape()
      ensures RedsNear(x)
    {
      forall c | c in nodes && c != root && c != x && c.up != x ensures Calm(c) {
        assert old(Linked(c)) && Linked(c);
        if c != p && c != w { assert old(Calm(c)); }
      }
    }

    /** The new sibling of `x` is black. */
    twostate lemma RedSiblingKeeps(x: Item, new p: Item, new w: Item)
      requires RedTurned(x, p, w) && old(Erasing(x) && Sibling(x, p, w) && !x.red && w.red)
      requires Shape() && Spans()
      ensures Erasing(x) && x.up == p && p != root && p.red
      ensures forall v :: v in {p.left, p.right} && v != x ==> Sibling(x, p, v) && !v.red
    {
      assert old(Linked(root) && Linked(p.up));
      RedSiblingHeights(x, p, w);
      RedSiblingReds(x, p, w);
      var b := if old(p.left) == x then old(w.left) else old(w.right);
      assert old(Balanced(w) && Linked(b) && Calm(b));
      assert Linked(p) && Linked(b) && Balanced(b);
    }

    /** The sibling `w` has turned red, and now the paths through `p` are short. */
    twostate lemma BlackNephewsKeep(x: Item, new p: Item, new w: Item)
      requires p in old(nodes) && w in old(nodes)
      requires old(Erasing(x) && Sibling(x, p, w) && !x.red && !w.red && !w.left.red && !w.right.red)
      requires Repainted() && PaintedAt(p, w, w)
      requires w.red && p.red == old(p.red) && w.bh == old(w.bh) - 1 && p.bh == old(p.bh) - 1
      ensures Erasing(p)
    {
      var q := p.up;
      assert old(Linked(p) && Linked(w) && Linked(q) && Linked(root));
      forall n | n in nodes && n != root && n != q ensures Balanced(n) {
        assert old(Linked(n));
        if n != p { assert old(Balanced(n)); }
      }
      if q != root { assert old(Balanced(q)); }
      forall c | c in nodes && c != root && c != p && c.up != p ensures Calm(c) {
        assert old(Linked(c));
        if c.up != x { assert old(Calm(c)); }
      }
    }

    /** The red near nephew `v` has been rotated above `w`: the new far nephew is red. */
    twostate lemma NearNephewKeeps(x: Item, new p: Item, new w: Item, new v: Item)
      requires p in old(nodes) && w in old(nodes) && v in old(nodes)
      requires old(Erasing(x) && Sibling(x, p, w) && !x.red && !w.red && v.red && v != root)
      requires (TurnedRight(w, v) && old(p.left == x && !w.right.red)) ||
        (TurnedLeft(w, v) && old(p.right == x && !w.left.red))
      requires Shape() && Spans() && PaintedAt(v, w, w)
      requires !v.red && w.red && v.bh == old(w.bh) && w.bh == old(v.bh)
      ensures Erasing(x) && Sibling(x, p, v) && !v.red && (if p.left == x then v.right == w else v.left == w)
    {
      assert old(Linked(p) && Linked(w) && Linked(v) && Linked(root) && Balanced(v));
      forall n | n in nodes && n != root && n != p ensures Balanced(n) {
        assert old(Linked(n) && Balanced(n));
      }
      forall c | c in nodes && c != root && c != x && c.up != x ensures Calm(c) {
        assert old(Linked(c)) && Linked(c);
        if c != v && c != w { assert old(Calm(c)); }
      }
      assert Linked(p) && Linked(w) && Linked(v);
    }

    /** The sibling `w` has been rotated above `p` and its far child `f` turned black. */
    twostate predicate FarTurned(x: Item, new p: Item, new w: Item, new f: Item)
      reads this, nodes, nil
    {
      && p in old(nodes) && w in old(nodes) && f in old(nodes)
      && old(f.red && f != root && w in nodes && p.right in nodes + {nil} && p.left in nodes + {nil})
      && ((TurnedLeft(p, w) && old(p.left == x && w.right == f)) ||
          (TurnedRight(p, w) && old(p.right == x && w.left == f)))
      && PaintedAt(p, w, f)
      && w.red == old(p.red) && !p.red && !f.red
      && w.bh == old(p.bh) && p.bh == old(w.bh) && f.bh == old(f.bh) + 1
    }

    /** No path is short any more. */
    twostate lemma FarNephewHeights(x: Item, new p: Item, new w: Item, new f: Item)
      requires FarTurned(x, p, w, f) && old(Erasing(x) && Sibling(x, p, w) && !w.red)
      requires Shape()
      ensures Heights()
    {
      assert old(Linked(f) && Balanced(f));
      forall n | n in nodes && n != root ensures Balanced(n) {
        assert old(Linked(n));
        if n != p { assert old(Balanced(n)); }
      }
    }

    twostate lemma FarNephewReds(x: Item, new p: Item, new w: Item, new f: Item)
      requires FarTurned(x, p, w, f) && old(Erasing(x) && Sibling(x, p, w) && !x.red)
      requires Shape()
      ensures Reds(nil) && (root.left in nodes ==> !root.left.red)
    {
      assert old(Linked(f) && Linked(p.up) && Linked(root) && Calm(p));
      forall c | c in nodes && c != root ensures Calm(c) {
        assert old(Linked(c)) && Linked(c);
        if c != x && old(c.up) != x { assert old(Calm(c)); }
      }
    }

    method FarPaint(p: Item, w: Item, f: Item)
      requires p != w && p != f && w != f
      modifies p`red, p`bh, w`red, w`bh, f`red, f`bh
      ensures w.red == old(p.red) && !p.red && !f.red
      ensures w.bh == old(p.bh) && p.bh == old(w.bh) && f.bh == old(f.bh) + 1
    {
      w.red := p.red;
      p.red := false;
      f.red := false;
      w.bh, p.bh, f.bh := p.bh, w.bh, f.bh + 1;
    }

    method FarSettleLeft(x: Item, w: Item)
      requires Erasing(x) && Sibling(x, x.up, w) && !x.red && !w.red && x == x.up.left && w.right.red
      modifies nodes`red, nodes`left, nodes`right, nodes`up, nodes`size, nodes`span, nodes`bh, nil`up
      ensures Shape() && Spans() && Colored() && root.span == old(root.span) && root.size == old(root.size) &&
        !old(x.up).red
      ensures root.left == old(root.left) || (root.left == w && old(root.left == x.up))
    {
      ghost var p, f := x.up, w.right;
      FarPaint(x.up, w, w.right);
      RotateLeft(x.up);
      FarNephewHeights(x, p, w, f);
      FarNephewReds(x, p, w, f);
    }

    method FarSettleRight(x: Item, w: Item)
      requires Erasing(x) && Sibling(x, x.up, w) && !x.red && !w.red && x == x.up.right && w.left.red
      modifies nodes`red, nodes`left, nodes`right, nodes`up, nodes`size, nodes`span, nodes`bh, nil`up
      ensures Shape() && Spans() && Colored() && root.span == old(root.span) && root.size == old(root.size) &&
        !old(x.up).red
      ensures root.left == old(root.left) || (root.left == w && old(root.left == x.up))
    {
      ghost var p, f := x.up, w.left;
      FarPaint(x.up, w, w.left);
      RotateRight(x.up);
      FarNephewHeights(x, p, w, f);
      FarNephewReds(x, p, w, f);
    }

    /** Stores the colours and black heights of two items. */
    method Paint2(p: Item, pred: bool, ghost pbh: nat, w: Item, wred: bool, ghost wbh: nat)
      requires p != w
      modifies p`red, p`bh, w`red, w`bh
      ensures p.red == pred && p.bh == pbh && w.red == wred && w.bh == wbh
    {
      w.red := wred;
      p.red := pred;
      w.bh, p.bh := wbh, pbh;
    }

    method RaiseSiblingLeft(x: Item, r: Item) returns (w: Item)
      requires Erasing(x) && Sibling(x, x.up, r) && !x.red && r.red && x == x.up.left
      modifies nodes`red, nodes`left, nodes`right, nodes`up, nodes`size, nodes`span, nodes`bh, nil`up
      ensures Erasing(x) && Sibling(x, x.up, w) && !w.red && root.span == old(root.span)
      ensures x.up == old(x.up) && x.up.red && x == x.up.left && w == x.up.right && root.size == old(root.size)
      ensures x.red == old(x.red) && x.size == old(x.size) && (root.left == old(root.left) || old(root.left == x.up))
    {
      ghost var p := x.up;
      assert Linked(root) && (x == nil || Linked(x));
      Paint2(x.up, true, p.bh - 1, r, false, r.bh + 1);
      RotateLeft(x.up);
      RedSiblingKeeps(x, p, r);
      w := x.up.right;
    }

    method RaiseSiblingRight(x: Item, r: Item) returns (w: Item)
      requires Erasing(x) && Sibling(x, x.up, r) && !x.red && r.red && x == x.up.right
      modifies nodes`red, nodes`left, nodes`right, nodes`up, nodes`size, nodes`span, nodes`bh, nil`up
      ensures Erasing(x) && Sibling(x, x.up, w) && !w.red && root.span == old(root.span)
      ensures x.up == old(x.up) && x.up.red && x == x.up.right && w == x.up.left && root.size == old(root.size)
      ensures x.red == old(x.red) && x.size == old(x.size) && (root.left == old(root.left) || old(root.left == x.up))
    {
      ghost var p := x.up;
      assert Linked(root) && (x == nil || Linked(x));
      Paint2(x.up, true, p.bh - 1, r, false, r.bh + 1);
      RotateRight(x.up);
      RedSiblingKeeps(x, p, r);
      w := x.up.left;
    }

    method RaiseNephewLeft(x: Item, u: Item) returns (w: Item)
      requires Erasing(x) && Sibling(x, x.up, u) && !x.red && !u.red && x == x.up.left && u.left.red && !u.right.red
      modifies nodes`red, nodes`left, nodes`right, nodes`up, nodes`size, nodes`span, nodes`bh, nil`up
      ensures Erasing(x) && Sibling(x, x.up, w) && !w.red && root.span == old(root.span)
      ensures x.up == old(x.up) && x == x.up.left && w.right.red && root.size == old(root.size)
      ensures x.red == old(x.red) && x.size == old(x.size) && root.left == old(root.left)
    {
      ghost var p, v := x.up, u.left;
      assert Linked(root) && (x == nil || Linked(x)) && Linked(v);
      Paint2(u, true, v.bh, u.left, false, u.bh);
      RotateRight(u);
      NearNephewKeeps(x, p, u, v);
      w := x.up.right;
    }

    method RaiseNephewRight(x: Item, u: Item) returns (w: Item)
      requires Erasing(x) && Sibling(x, x.up, u) && !x.red && !u.red && x == x.up.right && u.right.red && !u.left.red
      modifies nodes`red, nodes`left, nodes`right, nodes`up, nodes`size, nodes`span, nodes`bh, nil`up
      ensures Erasing(x) && Sibling(x, x.up, w) && !w.red && root.span == old(root.span)
      ensures x.up == old(x.up) && x == x.up.right && w.left.red && root.size == old(root.size)
      ensures x.red == old(x.red) && x.size == old(x.size) && root.left == old(root.left)
    {
      ghost var p, v := x.up, u.right;
      assert Linked(root) && (x == nil || Linked(x)) && Linked(v);
      Paint2(u, true, v.bh, u.right, false, u.bh);
      RotateLeft(u);
      NearNephewKeeps(x, p, u, v);
      w := x.up.left;
    }

    method Redden(x: Item, w: Item)
      requires Erasing(x) && Sibling(x, x.up, w) && !x.red && !w.red && !w.left.red && !w.right.red
      modifies nodes`red, nodes`bh
      ensures Erasing(x.up) && Repainted() && x.up.red == old(x.up.red)
    {
      ghost var p := x.up;
      Paint2(x.up, x.up.red, p.bh - 1, w, true, w.bh - 1);
      BlackNephewsKeep(x, p, w);
    }

    /** One round of the loop of `Fixup` for a left child; `top` is the cached top item. */
    method FixupLeft(x: Item, top: Item) returns (z: Item, ghost settled: bool)
      requires Erasing(x) && !x.red && x.up != root && x == x.up.left && top == root.left
      modifies nodes`red, nodes`left, nodes`right, nodes`up, nodes`size, nodes`span, nodes`bh, nil`up
      ensures Shape() && Spans() && root.span == old(root.span) && root.size == old(root.size)
      ensures if settled then Colored() && z == top && !top.red
              else Erasing(z) && (z.red || top == root.left) && z.size > old(x.size)
    {
      ghost var s := FindSibling(x);
      assert Linked(root) && Linked(x.up);
      var w := x.up.right;
      ghost var p := x.up;
      if w.red {
        w := RaiseSiblingLeft(x, w);
      }
      if !w.right.red && !w.left.red {
        Redden(x, w);
        z, settled := x.up, false;
        assert Linked(z);
      } else {
        if !w.right.red {
          w := RaiseNephewLeft(x, w);
        }
        FarSettleLeft(x, w);
        z, settled := top, true;
      }
    }

    /** One round of the loop of `Fixup` for a right child; `top` is the cached top item. */
    method FixupRight(x: Item, top: Item) returns (z: Item, ghost settled: bool)
      requires Erasing(x) && !x.red && x.up != root && x == x.up.right && top == root.left
      modifies nodes`red, nodes`left, nodes`right, nodes`up, nodes`size, nodes`span, nodes`bh, nil`up
      ensures Shape() && Spans() && root.span == old(root.span) && root.size == old(root.size)
      ensures if settled then Colored() && z == top && !top.red
              else Erasing(z) && (z.red || top == root.left) && z.size > old(x.size)
    {
      ghost var s := FindSibling(x);
      assert Linked(root) && Linked(x.up);
      var w := x.up.left;
      ghost var p := x.up;
      if w.red {
        w := RaiseSiblingRight(x, w);
      }
      if !w.right.red && !w.left.red {
        Redden(x, w);
        z, settled := x.up, false;
        assert Linked(z);
      } else {
        if !w.left.red {
          w := RaiseNephewRight(x, w);
        }
        FarSettleRight(x, w);
        z, settled := top, true;
      }
    }

    twostate lemma XBlackened(x: Item)
      requires old(Erasing(x) && (x.red || x.up == root))
      requires Repainted() && PaintedAt(x, x, x)
      requires x in nodes ==> Painted(x, false, old(x.bh) + if old(x.red) then 1 else 0)
      ensures Colored()
    {
      assert old(Linked(root));
      var p := x.up;
      forall n | n in nodes && n != root ensures Balanced(n) {
        assert old(Linked(n));
        if n != p { assert old(Balanced(n)); }
      }
      forall c | c in nodes && c != root ensures Calm(c) {
        assert old(Linked(c));
        if c != x && c.up != x { assert old(Calm(c)); }
      }
    }

    lemma TopBelowRoot(x: Item)
      requires Erasing(x) && x == root.left
      ensures x.up == root
    {
      assert Linked(root);
      if x == nil && x.up != root { HasTop(x.up); assert false; }
    }

    method Fixup(e: Item)
      requires Erasing(e)
      modifies nodes`red, nodes`left, nodes`right, nodes`up, nodes`size, nodes`span, nodes`bh, nil`up, nil`red
      ensures Shape() && Spans() && Colored() && root.span == old(root.span)
    {
      var top := root.left;
      var x := e;
      ghost var settled := false;
      assert Linked(root);
      while !x.red && top != x
        invariant Shape() && Spans() && root.span == old(root.span)
        invariant if settled then Colored() && x == top && !top.red else Erasing(x) && (x.red || top == root.left)
        invariant top == nil || top in nodes
        decreases if x.red || top == x then 0 else root.size - x.size + 1
      {
        assert Linked(root) && (x == nil || Linked(x)) && Linked(x.up);
        if x == x.up.left {
          x, settled := FixupLeft(x, top);
        } else {
          x, settled := FixupRight(x, top);
        }
      }
      label paint:
      if !settled && !x.red { TopBelowRoot(x); }
      if x.red { x.bh := x.bh + 1; }
      x.red := false;
      if !settled { XBlackened@paint(x); }
    }

    /** `x`, the only child of `y` or `nil`, hangs where `y` was. */
    twostate predicate Detached(y: Item, x: Item)
      reads this, nodes, nil
    {
      && y in old(nodes) && y != root && nodes == old(nodes) - {y}
      && (x == nil || x in nodes)
      && old(if y.left == nil then x == y.right else y.right == nil && x == y.left)
      && x.up == old(y.up)
      && (forall n {:trigger n.left} {:trigger n.right} :: n in old(nodes) && n != y ==>
          && n.left == (if old(n.left) == y then x else old(n.left))
          && n.right == (if old(n.right) == y then x else old(n.right)))
      && (forall n {:trigger n.up} :: n in old(nodes) && n != y && n != x ==> n.up == old(n.up))
      && Respanned(y, [])
    }

    twostate lemma DetachSpans(y: Item, new x: Item)
      requires old(Shape() && Spans()) && (x == nil || x in old(nodes)) && Detached(y, x)
      ensures Spans()
    {
      assert old(Linked(y) && Spanned(y));
      SpliceSpan(y, old(y.left.span), old(y.right.span), y, []);
      assert Splice([], y, []) == [];
      assert x.span == Splice(old(y.span), y, []);
      forall n | n in nodes ensures Spanned(n) {
        assert old(Linked(n) && Spanned(n));
        SpliceSpan(n, old(n.left.span), old(n.right.span), y, []);
        assert n.left.span == Splice(old(n.left.span), y, []);
        assert n.right.span == Splice(old(n.right.span), y, []);
      }
    }

    twostate lemma DetachShape(y: Item, new x: Item)
      requires forall n {:trigger n.span} :: n in nodes ==> |n.span| <= |root.span|
      requires old(Shape() && Spans()) && (x == nil || x in old(nodes)) && Detached(y, x) && Spans()
      ensures Shape()
    {
      assert old(Linked(root)) && Spanned(root);
      forall n | n in nodes ensures Linked(n) {
        DetachLinked(y, x, n);
      }
    }

    twostate lemma DetachLinked(y: Item, new x: Item, new n: Item)
      requires n in nodes && n in old(nodes) && |n.span| <= |root.span| && root in nodes
      requires old(Shape() && Spans()) && (x == nil || x in old(nodes)) && Detached(y, x) && Spans()
      ensures Linked(n)
    {
      assert old(Linked(y)) && Spanned(root);
      assert Spanned(n) && old(Linked(n) && Spanned(n));
      assert n.left == nil || Spanned(n.left);
      assert n.right == nil || Spanned(n.right);
    }

    /** Taking out a red item leaves a finished tree, taking out a black one a short path. */
    twostate lemma DetachColors(y: Item, new x: Item)
      requires old(Shape() && Colored()) && (x == nil || x in old(nodes)) && Detached(y, x) && Shape() && Spans()
      requires nil.red == old(nil.red) && nil.bh == old(nil.bh)
      requires forall n {:trigger n.red} {:trigger n.bh} :: n in nodes ==> n.red == old(n.red) && n.bh == old(n.bh)
      ensures if old(y.red) then Colored() else Erasing(x)
    {
      assert old(Linked(y) && Balanced(y) && Linked(root) && Calm(y)) && Linked(root);
      assert x == nil || old(Linked(x) && Balanced(x) && Calm(x));
      var p := x.up;
      assert old(Linked(p));
      forall n | n in nodes && n != root && (n != p || old(y.red)) ensures Balanced(n) {
        assert old(Linked(n) && Balanced(n));
      }
      assert p == root || old(Balanced(p));
      forall c | c in nodes && c != root && (c != x || old(y.red)) ensures Calm(c) {
        assert old(Linked(c) && Calm(c));
      }
    }

    method Unhook(y: Item) returns (x: Item)
      requires y !in {y.left, y.right, y.up} && nil != y.up && y.up != y.left && y.up != y.right
      requires y.up == root ==> root.left == y
      modifies y.left`up, y.right`up, y.up`left, y.up`right
      ensures x == old(if y.left == nil then y.right else y.left)
      ensures x.up == y.up == old(y.up)
      ensures y.up.left == if old(y.up.left) == y then x else old(y.up.left)
      ensures y.up.right == if old(y.up.left) == y then old(y.up.right) else x
      ensures old(y.left) != x ==> old(y.left).up == old(y.left.up)
      ensures old(y.right) != x ==> old(y.right).up == old(y.right.up)
    {
      x := if y.left == nil then y.right else y.left;
      x.up := y.up;
      if root == x.up {
        root.left := x;
      } else {
        if y == y.up.left {
          y.up.left := x;
        } else {
          y.up.right := x;
        }
      }
    }

    method UnhookLinks(y: Item) returns (x: Item)
      requires Shape() && y in nodes && y != root && (y.left == nil || y.right == nil)
      modifies nodes`left, nodes`right, nodes`up, nil`up
      ensures (x == nil || (x in nodes && x != y)) && x.up == old(y.up)
      ensures old(if y.left == nil then x == y.right else y.right == nil && x == y.left)
      ensures forall n {:trigger n.left} {:trigger n.right} :: n in nodes && n != y ==>
          && n.left == (if old(n.left) == y then x else old(n.left))
          && n.right == (if old(n.right) == y then x else old(n.right))
      ensures forall n {:trigger n.up} :: n in nodes && n != y && n != x ==> n.up == old(n.up)
    {
      assert Linked(y) && Linked(y.up) && Linked(root);
      x := Unhook(y);
      forall n | n in nodes && n != y
        ensures n.left == (if old(n.left) == y then x else old(n.left)) &&
          n.right == (if old(n.right) == y then x else old(n.right))
      {
        assert old(Linked(n));
      }
    }

    /** The first part of `dill_rbtree_erase`: `y`, with one child at most, leaves the tree. */
    method Unlink(y: Item) returns (x: Item)
      requires Shape() && Spans() && Colored() && y in nodes && y != root && (y.left == nil || y.right == nil)
      modifies this, nodes`left, nodes`right, nodes`up, nodes`size, nodes`span, nil`up
      ensures nodes == old(nodes) - {y} && Shape() && Spans() && if y.red then Colored() else Erasing(x)
      ensures root.span == Splice(old(root.span), y, [])
    {
      AllFit(y, []);
      x := UnhookLinks(y);
      Respan(y, []);
      nodes := nodes - {y};
      DetachSpans(y, x);
      DetachShape(y, x);
      DetachColors(y, x);
    }

    /** `y` stands where `z` was, with its colour and its links. */
    twostate predicate Replaced(z: Item, new y: Item)
      reads this, nodes, nil
    {
      && z in old(nodes) && z != root && y !in old(nodes) && y != nil && y != root
      && nodes == old(nodes) - {z} + {y}
      && y.left == old(z.left) && y.right == old(z.right) && y.up == old(z.up)
      && y.span == Splice(old(z.span), z, [y]) && y.size == |y.span|
      && (forall n {:trigger n.left} {:trigger n.right} :: n in old(nodes) && n != z ==>
          && n.left == (if old(n.left) == z then y else old(n.left))
          && n.right == (if old(n.right) == z then y else old(n.right)))
      && (forall n {:trigger n.up} :: n in old(nodes) && n != z && n != root ==>
          n.up == if old(n.up) == z then y else old(n.up))
      && Respanned(z, [y])
    }

    twostate lemma ReplaceSpans(z: Item, new y: Item)
      requires old(Shape() && Spans()) && Replaced(z, y)
      ensures Spans()
    {
      assert Splice([], z, [y]) == [];
      assert old(Linked(z) && Spanned(z));
      SpliceSpan(z, old(z.left.span), old(z.right.span), z, [y]);
      forall n | n in nodes && n != y ensures Spanned(n) {
        assert old(Linked(n) && Spanned(n));
        SpliceSpan(n, old(n.left.span), old(n.right.span), z, [y]);
        assert n.left.span == Splice(old(n.left.span), z, [y]);
        assert n.right.span == Splice(old(n.right.span), z, [y]);
      }
      assert Spanned(y);
    }

    twostate lemma ReplaceShape(z: Item, new y: Item)
      requires forall n {:trigger n.span} :: n in nodes ==> |n.span| <= |root.span|
      requires old(Shape() && Spans()) && Replaced(z, y) && Spans()
      ensures Shape()
    {
      assert old(Linked(z) && Linked(root)) && Spanned(root);
      forall n | n in nodes ensures Linked(n) {
        assert Spanned(n);
        if n != y { assert old(Linked(n) && Spanned(n)); }
        assert n.left == nil || Spanned(n.left);
        assert n.right == nil || Spanned(n.right);
      }
    }

    twostate lemma ReplaceColors(z: Item, new y: Item)
      requires old(Shape() && Colored()) && Replaced(z, y) && Shape()
      requires nil.red == old(nil.red) && nil.bh == old(nil.bh) && y.red == old(z.red) && y.bh == old(z.bh)
      requires forall n {:trigger n.red} {:trigger n.bh} :: n in nodes && n != y ==>
        n.red == old(n.red) && n.bh == old(n.bh)
      ensures Colored()
    {
      assert old(Linked(z) && Balanced(z) && Linked(root) && Calm(z)) && Linked(root);
      forall n | n in nodes && n != root ensures Balanced(n) {
        if n != y { assert old(Linked(n) && Balanced(n)); }
      }
      forall c | c in nodes && c != root ensures Calm(c) {
        if c != y { assert old(Linked(c) && Calm(c)); }
      }
    }

    method Graft(z: Item, y: Item)
      requires y !in {z, z.left, z.right, z.up, nil} && z !in {z.left, z.right, z.up}
      requires z.up !in {z.left, z.right}
      modifies y`left, y`right, y`up, y`red, y`bh, z.left`up, z.right`up, z.up`left, z.up`right
      ensures y.left == old(z.left) && y.right == old(z.right) && y.up == old(z.up) && y.red == z.red && y.bh == z.bh
      ensures y.left.up == y && y.right.up == y
      ensures y.up.left == if old(z.up.left) == z then y else old(z.up.left)
      ensures y.up.right == if old(z.up.left) == z then old(z.up.right) else y
    {
      y.left := z.left;
      y.right := z.right;
      y.up := z.up;
      y.red := z.red;
      y.bh := z.bh;
      z.right.up := y;
      z.left.up := z.right.up;
      if z == z.up.left {
        z.up.left := y;
      } else {
        z.up.right := y;
      }
    }

    method GraftLinks(z: Item, y: Item)
      requires Shape() && z in nodes && z != root && y !in nodes && y != nil
      modifies y`left, y`right, y`up, y`red, y`bh, nodes`left, nodes`right, nodes`up, nil`up
      ensures y.left == old(z.left) && y.right == old(z.right) && y.up == old(z.up) && y.red == z.red && y.bh == z.bh
      ensures forall n {:trigger n.left} {:trigger n.right} :: n in nodes && n != z ==>
          && n.left == (if old(n.left) == z then y else old(n.left))
          && n.right == (if old(n.right) == z then y else old(n.right))
      ensures forall n {:trigger n.up} :: n in nodes && n != z && n != root ==>
        n.up == if old(n.up) == z then y else old(n.up)
    {
      assert Linked(z) && Linked(z.up);
      Graft(z, y);
      forall n | n in nodes && n != z
        ensures n.left == (if old(n.left) == z then y else old(n.left)) &&
          n.right == (if old(n.right) == z then y else old(n.right))
      {
        assert old(Linked(n));
      }
      forall n | n in nodes && n != z && n != root
        ensures n.up == if old(n.up) == z then y else old(n.up)
      {
        assert old(Linked(n));
      }
    }

    /** The last part of `dill_rbtree_erase`: `y` takes the place of `z`. */
    method Replace(z: Item, y: Item)
      requires Shape() && Spans() && Colored() && z in nodes && z != root && y !in nodes && y != nil
      modifies this, y`left, y`right, y`up, y`red, y`bh, y`size, y`span
      modifies nodes`left, nodes`right, nodes`up, nodes`size, nodes`span, nil`up
      ensures nodes == old(nodes) - {z} + {y} && Shape() && Spans() && Colored()
      ensures root.span == Splice(old(root.span), z, [y])
    {
      AllFit(z, [y]);
      assert root in nodes && |Splice(z.span, z, [y])| <= |Splice(root.span, z, [y])|;
      GraftLinks(z, y);
      y.span := Splice(z.span, z, [y]);
      y.size := |y.span|;
      Respan(z, [y]);
      nodes := nodes - {z} + {y};
      ReplaceSpans(z, y);
      ReplaceShape(z, y);
      ReplaceColors(z, y);
    }

    /** Taking `z` out leaves the rest in order. */
    lemma TakenOut(s: seq<Item>, z: Item) returns (a: seq<Item>, b: seq<Item>)
      requires NoDup(s) && z in Elems(s)
      ensures s == a + [z] + b && Splice(s, z, []) == a + b && NoDup(a + b)
      ensures Elems(a + b) == Elems(s) - {z}
    {
      ElemsAre(s);
      var k :| 0 <= k < |s| && s[k] == z;
      a, b := s[..k], s[k + 1..];
      assert s == a + [z] + b;
      SpliceOnce(a, z, b, []);
      assert a + [] + b == a + b;
      NoDupAround(a, z, b);
      ElemsAre(a + b);
    }

    lemma DropSecond(a: seq<Item>, z: Item, y: Item, b: seq<Item>)
      requires NoDup(a + [z, y] + b)
      ensures y != z && Splice(a + [z, y] + b, y, []) == a + [z] + b && NoDup(a + [z] + b)
    {
      assert a + [z, y] + b == (a + [z]) + [y] + b;
      SpliceOnce(a + [z], y, b, []);
      NoDupAround(a + [z], y, b);
      assert z in a + [z] && (a + [z]) + [] + b == a + [z] + b;
    }

    lemma DropFirst(a: seq<Item>, z: Item, y: Item, b: seq<Item>)
      requires NoDup(a + [z, y] + b)
      ensures Splice(a + [z, y] + b, z, []) == a + [y] + b
    {
      assert a + [z, y] + b == a + [z] + ([y] + b);
      SpliceOnce(a, z, [y] + b, []);
      assert a + [] + ([y] + b) == a + [y] + b;
    }

    /** Taking out the successor and putting it in the place of `z` takes out `z`. */
    lemma Swapped(a: seq<Item>, z: Item, y: Item, b: seq<Item>)
      requires NoDup(a + [z, y] + b)
      ensures y != z
      ensures var s := a + [z, y] + b; Splice(Splice(s, y, []), z, [y]) == Splice(s, z, [])
    {
      DropSecond(a, z, y, b);
      SpliceOnce(a, z, b, [y]);
      DropFirst(a, z, y, b);
    }

    /** `dill_rbtree_erase` up to the order of the items. */
    method EraseLinks(z: Item)
      requires Shape() && Spans() && Colored() && NoDup(root.span) && z in nodes && z != root
      modifies this, nodes`red, nodes`left, nodes`right, nodes`up, nodes`size, nodes`span, nodes`bh, nil`up, nil`red
      ensures nodes == old(nodes) - {z} && Shape() && Spans() && Colored()
      ensures root.span == Splice(old(root.span), z, [])
    {
      var y := z;
      ghost var a, b;
      if z.left != nil && z.right != nil {
        y, a, b := NextHelp(z);
        Swapped(a, z, y, b);
      }
      var x := Unlink(y);
      if !y.red { Fixup(x); }
      if y != z {
        Replace(z, y);
      }
    }

    lemma SortedWithout(a: seq<Item>, z: Item, b: seq<Item>)
      requires Sorted(a + [z] + b)
      ensures Sorted(a + b)
    {
      var s, r := a + [z] + b, a + b;
      assert forall i :: 0 <= i < |a| ==> r[i] == s[i];
      assert forall i :: |a| <= i < |r| ==> r[i] == s[i + 1];
    }

    lemma LastStays(was: seq<Item>, a: seq<Item>, z: Item, c: seq<Item>)
      requires z != root && was + [root] == a + [z] + c
      ensures c != [] && was == a + [z] + c[..|c| - 1]
      ensures (a + c)[..|a + c| - 1] == a + c[..|c| - 1]
    {
      var s := was + [root];
      assert s[|s| - 1] == root && s[|a|] == z && c != [];
      assert s[..|s| - 1] == a + [z] + c[..|c| - 1];
    }

    /** Takes `z` out of the tree and leaves the other items where they are. */
    method EraseListed(z: Item) returns (ghost a: seq<Item>, ghost b: seq<Item>)
      requires Shape() && Spans() && Colored() && Listed() && z in nodes && z != root
      modifies this, nodes`red, nodes`left, nodes`right, nodes`up, nodes`size, nodes`span, nodes`bh, nil`up, nil`red
      ensures nodes == old(nodes) - {z} && Shape() && Spans() && Colored() && Listed()
      ensures old(Contents()) == a + [z] + b && Contents() == a + b
    {
      ghost var s, was, c := root.span, Contents(), [];
      assert Spanned(root) && s == was + [root];
      a, c := TakenOut(s, z);
      LastStays(was, a, z, c);
      b := c[..|c| - 1];
      EraseLinks(z);
    }

    /** Takes `z` out of the tree and leaves the other items in order. */
    method Erase(z: Item) returns (ghost a: seq<Item>, ghost b: seq<Item>)
      requires Valid() && z in nodes && z != root
      modifies this, nodes, nil
      ensures Valid() && nodes == old(nodes) - {z}
      ensures old(Contents()) == a + [z] + b && Contents() == a + b
      ensures forall n :: n in old(nodes) ==> n.val == old(n.val)
    {
      a, b := EraseListed(z);
      SortedWithout(a, z, b) by { assert old(Sorted(Contents())); }
      assert Sorted(a + b);
    }
  }
}
