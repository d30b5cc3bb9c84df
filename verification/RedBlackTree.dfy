/** The red-black tree behind Map and Set, updated in place, with parent links and one shared sentinel.

    The tree is tied to the sorted sequence `order` of its nodes by ghost intervals: each node carries its own
    position `pos` in that sequence and the range [lo, hi) of positions its subtree holds. The links are right
    when every node's children split its range (Linked), so a rotation keeps the in-order sequence simply
    because it moves no position. A second ghost number, `bh`, is the black height, which each node shares with
    its sibling (Painted). Set is this tree with a value type of one element.

    A fresh node's links lead to the node itself until it is linked in; they are overwritten before any read.
 */
module RedBlackTree {
  import opened OrderedMap

  class Node<K(!new), V> {
    const key: K
    var value: V
    var isRed: bool
    var parent: Node<K, V>
    var left: Node<K, V>
    var right: Node<K, V>
    ghost var lo: int    // the first position its subtree holds
    ghost var pos: int   // its own position in the order
    ghost var hi: int    // the position after the last its subtree holds
    ghost var bh: int    // black nodes on a path down from here, itself included

    constructor (key: K, value: V)
      ensures this.key == key && this.value == value && isRed
      ensures parent == left == right == this
    {
      this.key, this.value, isRed := key, value, true;
      parent, left, right := this, this, this;
    }
  }

  function Pow2(n: nat): (p: nat)
    ensures p >= 1
  {
    if n == 0 then 1 else 2 * Pow2(n - 1)
  }

  lemma {:induction false} Pow2Sum(a: nat, b: nat)
    ensures Pow2(a + b) == Pow2(a) * Pow2(b)
  {
    if a > 0 {
      Pow2Sum(a - 1, b);
    }
  }

  lemma {:induction false} Pow2Monotone(a: nat, b: nat)
    requires a <= b
    ensures Pow2(a) <= Pow2(b)
  {
    if a < b {
      Pow2Monotone(a, b - 1);
    }
  }

  lemma ProductMonotone(a: nat, b: nat)
    requires a <= b
    ensures a * a <= b * b
  {
    assert a * a <= a * b <= b * b;
  }

  class Map<K(!new), V> {
    const less: (K, K) -> bool
    const defaultValue: V
    const nil: Node<K, V>
    var root: Node<K, V>
    var size: nat
    ghost var entries: seq<Entry<K, V>>   // the contents, sorted by key
    ghost var order: seq<Node<K, V>>      // the nodes that hold them
    ghost var nodes: set<Node<K, V>>      // the same nodes as a set
    ghost var owned: set<Node<K, V>>      // every node ever allocated
    ghost var freed: set<Node<K, V>>      // those deleted since

    constructor (less: (K, K) -> bool, defaultKey: K, defaultValue: V)
      requires StrictWeakOrder(less)
      ensures Valid() && entries == [] && fresh(nil) && owned == {} && this.less == less &&
              this.defaultValue == defaultValue
    {
      var s := new Node(defaultKey, defaultValue);
      s.isRed := false;
      this.less, this.defaultValue, nil, root, size := less, defaultValue, s, s, 0;
      entries, order, nodes, owned, freed := [], [], {}, {}, {};
    }

    // ---------- structure ----------

    // c is the child of p that holds the positions from a up to b: the sentinel when there are none.
    ghost predicate Slot(c: Node<K, V>, p: Node<K, V>, a: int, b: int)
      reads this`nodes, nodes`parent, nodes`lo, nodes`hi
    {
      if a == b then c == nil
      else c in nodes && c.parent == p && c.lo == a && c.hi == b
    }

    // The links of n agree with its range, and its parent links back.
    ghost predicate Linked(n: Node<K, V>)
      requires n in nodes
      reads this`nodes, this`root, this`order
      reads nodes`left, nodes`right, nodes`parent, nodes`lo, nodes`pos, nodes`hi
    {
      && 0 <= n.lo <= n.pos < n.hi <= |order|
      && Slot(n.left, n, n.lo, n.pos)
      && Slot(n.right, n, n.pos + 1, n.hi)
      && (if n == root then n.parent == nil && n.lo == 0 && n.hi == |order|
          else n.parent in nodes && (n.parent.left == n || n.parent.right == n))
    }

    ghost predicate Links()
      reads this`nodes, this`root, this`order
      reads nodes`left, nodes`right, nodes`parent, nodes`lo, nodes`pos, nodes`hi
    {
      && nil !in nodes
      && (order == [] ==> root == nil)
      && (order != [] ==> root in nodes)
      && (forall n {:trigger Linked(n)} :: n in nodes ==> Linked(n))
    }

    ghost function Width(n: Node<K, V>): int
      reads this`nodes, nodes`lo, nodes`hi
    {
      if n in nodes then n.hi - n.lo else 0
    }

    // ---------- rotations ----------

    function Kid(n: Node<K, V>, onLeft: bool): Node<K, V>
      reads n`left, n`right
    {
      if onLeft then n.left else n.right
    }

    // y rose over x, and x became y's child on the side `toLeft`.
    twostate predicate Rotated(x: Node<K, V>, new y: Node<K, V>, new toLeft: bool)
      reads this, nodes
    {
      && nodes == old(nodes) && order == old(order)
      && nil !in nodes && x in nodes
      && y == (if toLeft then old(x.right) else old(x.left)) && y in nodes
      && x.left == (if toLeft then old(x.left) else old(y.right))
      && x.right == (if toLeft then old(y.left) else old(x.right))
      && y.left == (if toLeft then x else old(y.left))
      && y.right == (if toLeft then old(y.right) else x)
      && root == (if old(root) == x then y else old(root))
      && x.parent == y && y.parent == old(x.parent)
      && x.pos == old(x.pos) && y.pos == old(y.pos)
      && y.lo == old(x.lo) && y.hi == old(x.hi)
      && x.lo == (if toLeft then old(x.lo) else y.pos + 1)
      && x.hi == (if toLeft then y.pos else old(x.hi))
      && var b := Kid(x, !toLeft);
      && (b in nodes ==> b.parent == x && unchanged(b`left, b`right, b`lo, b`pos, b`hi))
      && (y.parent in nodes ==>
            && y.parent.left == (if old(x.parent.left) == x then y else old(x.parent.left))
            && y.parent.right == (if old(x.parent.left) == x then old(x.parent.right) else y)
            && unchanged(y.parent`parent, y.parent`lo, y.parent`pos, y.parent`hi))
      && unchanged(nodes - {x, y, b, y.parent})
    }

    twostate lemma RotatedX(x: Node<K, V>, new y: Node<K, V>, new toLeft: bool)
      requires Rotated(x, y, toLeft)
      requires old(Links())
      ensures Linked(x)
    {
      assert old(Linked(x)) && old(Linked(y));
      assert old(Kid(y, toLeft)) in old(nodes) ==> old(Linked(Kid(y, toLeft)));
      assert old(Kid(x, toLeft)) in old(nodes) ==> old(Linked(Kid(x, toLeft)));
    }

    twostate lemma RotatedY(x: Node<K, V>, new y: Node<K, V>, new toLeft: bool)
      requires Rotated(x, y, toLeft)
      requires old(Links())
      ensures Linked(y)
    {
      assert old(Linked(x)) && old(Linked(y));
      assert old(Kid(y, !toLeft)) in old(nodes) ==> old(Linked(Kid(y, !toLeft)));
      assert old(x.parent) in old(nodes) ==> old(Linked(x.parent));
    }

    twostate lemma RotatedParent(x: Node<K, V>, new y: Node<K, V>, new toLeft: bool)
      requires Rotated(x, y, toLeft)
      requires old(Links()) && y.parent in nodes
      ensures Linked(y.parent)
    {
      var p := y.parent;
      assert old(Linked(x)) && old(Linked(y)) && old(Linked(p));
      assert old(p.left) in old(nodes) ==> old(Linked(p.left));
      assert old(p.right) in old(nodes) ==> old(Linked(p.right));
      assert old(p.parent) in old(nodes) ==> old(Linked(p.parent));
    }

    twostate lemma RotatedInner(x: Node<K, V>, new y: Node<K, V>, new toLeft: bool)
      requires Rotated(x, y, toLeft)
      requires old(Links()) && Kid(x, !toLeft) in nodes
      ensures Linked(Kid(x, !toLeft))
    {
      var n := Kid(x, !toLeft);
      assert old(Linked(x)) && old(Linked(y)) && old(Linked(n));
      assert old(n.left) in old(nodes) ==> old(Linked(n.left));
      assert old(n.right) in old(nodes) ==> old(Linked(n.right));
      assert old(x.parent) in old(nodes) ==> old(Linked(x.parent));
    }

    twostate lemma RotatedOther(x: Node<K, V>, new y: Node<K, V>, new toLeft: bool, new n: Node<K, V>)
      requires Rotated(x, y, toLeft)
      requires old(Links())
      requires n in nodes - {x, y, Kid(x, !toLeft), y.parent}
      ensures Linked(n)
    {
      assert old(Linked(x)) && old(Linked(y)) && old(Linked(n));
      assert Kid(x, !toLeft) in nodes ==> old(Linked(Kid(y, toLeft)));
      assert y.parent in nodes ==> old(Linked(x.parent));
      assert old(n.left) in old(nodes) ==> old(Linked(n.left));
      assert old(n.right) in old(nodes) ==> old(Linked(n.right));
      assert old(n.parent) in old(nodes) ==> old(Linked(n.parent));
    }

    twostate lemma RotatedLinks(x: Node<K, V>, new y: Node<K, V>, new toLeft: bool)
      requires Rotated(x, y, toLeft) && old(Links())
      ensures Links()
    {
      forall n | n in nodes
        ensures Linked(n)
      {
        if n == x {
          RotatedX(x, y, toLeft);
        } else if n == y {
          RotatedY(x, y, toLeft);
        } else if n == y.parent {
          RotatedParent(x, y, toLeft);
        } else if n == Kid(x, !toLeft) {
          RotatedInner(x, y, toLeft);
        } else {
          RotatedOther(x, y, toLeft, n);
        }
      }
      assert order != [] ==> old(Linked(x));
    }

    lemma RightChildApart(x: Node<K, V>)
      requires Links() && x in nodes && x.right != nil
      ensures x.right in nodes && x.right != x && x.right != x.parent && x.parent != x
      ensures x.right.left != x && x.right.left != x.right
      ensures x.right.left != nil ==> x.right.left in nodes && x.right.left != x.parent
      ensures if x == root then x.parent == nil
              else x.parent in nodes && (x.parent.left == x) == (x.parent.right != x)
    {
      assert Linked(x) && Linked(x.right);
      assert x.right.left in nodes ==> Linked(x.right.left);
      assert x.parent in nodes ==> Linked(x.parent);
    }

    lemma LeftChildApart(x: Node<K, V>)
      requires Links() && x in nodes && x.left != nil
      ensures x.left in nodes && x.left != x && x.left != x.parent && x.parent != x
      ensures x.left.right != x && x.left.right != x.left
      ensures x.left.right != nil ==> x.left.right in nodes && x.left.right != x.parent
      ensures if x == root then x.parent == nil
              else x.parent in nodes && (x.parent.left == x) == (x.parent.right != x)
    {
      assert Linked(x) && Linked(x.left);
      assert x.left.right in nodes ==> Linked(x.left.right);
      assert x.parent in nodes ==> Linked(x.parent);
    }

    // The link by which the tree holds u is redirected to v.
    method ReplaceInParent(u: Node<K, V>, v: Node<K, V>)
      requires nil !in nodes && (u.parent == nil || u.parent in nodes)
      modifies this`root, (nodes * {u.parent})`left, (nodes * {u.parent})`right
      ensures root == (if u.parent == nil then v else old(root))
      ensures u.parent in nodes ==>
        && u.parent.left == (if old(u.parent.left) == u then v else old(u.parent.left))
        && u.parent.right == (if old(u.parent.left) == u then old(u.parent.right) else v)
    {
      if u.parent == nil {
        root := v;
      } else if u == u.parent.left {
        u.parent.left := v;
      } else {
        u.parent.right := v;
      }
    }

    // A rotation keeps every link and the in-order sequence.
    method LeftRotate(x: Node<K, V>)
      requires Links() && x in nodes && x.right != nil
      modifies this`root, nodes`left, nodes`right, nodes`parent, nodes`lo, nodes`hi
      ensures Links() && Rotated(x, old(x.right), true)
    {
      RightChildApart(x);
      var y := x.right;
      x.right := y.left;
      if y.left != nil {
        y.left.parent := x;
      }
      y.parent := x.parent;
      ReplaceInParent(x, y);
      y.left := x;
      x.parent := y;
      y.lo, y.hi, x.hi := x.lo, x.hi, y.pos;
      RotatedLinks(x, y, true);
    }

    method RightRotate(y: Node<K, V>)
      requires Links() && y in nodes && y.left != nil
      modifies this`root, nodes`left, nodes`right, nodes`parent, nodes`lo, nodes`hi
      ensures Links() && Rotated(y, old(y.left), false)
    {
      LeftChildApart(y);
      var x := y.left;
      y.left := x.right;
      if x.right != nil {
        x.right.parent := y;
      }
      x.parent := y.parent;
      ReplaceInParent(y, x);
      x.right := y;
      y.parent := x;
      x.lo, x.hi, y.lo := y.lo, y.hi, x.pos + 1;
      RotatedLinks(y, x, false);
    }

    method Rotate(x: Node<K, V>, toLeft: bool)
      requires Links() && x in nodes && Kid(x, !toLeft) != nil
      modifies this`root, nodes`left, nodes`right, nodes`parent, nodes`lo, nodes`hi
      ensures Links() && Rotated(x, old(Kid(x, !toLeft)), toLeft)
    {
      if toLeft {
        LeftRotate(x);
      } else {
        RightRotate(x);
      }
    }

    // ---------- colours ----------

    ghost predicate Black(c: Node<K, V>)
      reads this`nodes, nodes`isRed
    {
      c in nodes ==> !c.isRed
    }

    ghost function Bh(c: Node<K, V>): int
      reads this`nodes, nodes`bh
    {
      if c in nodes then c.bh else 0
    }

    // Both children of n have the black height n's own colour calls for, and a red n has no red child. The child
    // `short` leads to on one side may lack one black, and `ex` may be red below a red parent.
    ghost predicate Painted(n: Node<K, V>, ex: Node<K, V>, short: Node<K, V>, onLeft: bool)
      requires n in nodes
      reads this`nodes, nodes`left, nodes`right, nodes`isRed, nodes`bh
    {
      var h := n.bh - (if n.isRed then 0 else 1);
      && 0 <= h
      && Bh(n.left) + (if n == short && onLeft then 1 else 0) == h
      && Bh(n.right) + (if n == short && !onLeft then 1 else 0) == h
      && (n.isRed && n != ex ==>
            && (n.left == ex || Black(n.left))
            && (n.right == ex || Black(n.right)))
    }

    ghost predicate Balanced(ex: Node<K, V>, short: Node<K, V>, onLeft: bool)
      reads this`nodes, nodes`left, nodes`right, nodes`isRed, nodes`bh
    {
      forall n {:trigger Painted(n, ex, short, onLeft)} :: n in nodes ==> Painted(n, ex, short, onLeft)
    }

    lemma Family(n: Node<K, V>)
      requires Links() && n in nodes
      ensures n.left == nil || (n.left in nodes && n.left.parent == n && n.left != n)
      ensures n.right == nil || (n.right in nodes && n.right.parent == n && n.right != n)
      ensures n.left == n.right ==> n.left == nil
      ensures n == root ==> n.parent == nil
      ensures n != root ==> n.parent in nodes && n.parent != n && (n == n.parent.left || n == n.parent.right)
      ensures n != root ==> n.parent.parent != n
    {
      assert Linked(n);
      assert n.left in nodes ==> Linked(n.left);
      assert n.right in nodes ==> Linked(n.right);
      assert n.parent in nodes ==> Linked(n.parent);
    }

    // ---------- insertion ----------

    // What InsertFixup keeps: all is well but that z, which is red, may have a red parent or be the root.
    ghost predicate RedAt(z: Node<K, V>)
      reads this`nodes, this`root, this`order, nodes`left, nodes`right, nodes`parent, nodes`lo, nodes`pos, nodes`hi
      reads nodes`isRed, nodes`bh, nil`isRed
    {
      && Links() && z in nodes && z.isRed && Black(z.left) && Black(z.right)
      && Balanced(z, nil, true) && !nil.isRed && (Black(root) || root == z)
    }

    // A red parent is not the root, so there is a grandparent, which is black.
    lemma Grandparent(z: Node<K, V>)
      requires RedAt(z) && z.parent.isRed
      ensures z.parent in nodes && z.parent.parent in nodes
      ensures z != root && Black(root) && z.parent != root && !z.parent.parent.isRed
      ensures z != z.parent.parent.left && z != z.parent.parent.right
      ensures z.parent == z.parent.parent.left || z.parent == z.parent.parent.right
      ensures z.parent != z && z.parent.parent != z && z.parent.parent != z.parent
      ensures z.parent.parent.parent != z
    {
      assert Linked(z) && Linked(z.parent) && Linked(z.parent.parent);
      assert z.parent.parent.parent in nodes ==> Linked(z.parent.parent.parent);
      Family(z);
      Family(z.parent);
      assert Painted(z.parent.parent, z, nil, true);
      Family(z.parent.parent);
    }

    twostate predicate Recolored(p: Node<K, V>, new y: Node<K, V>, new g: Node<K, V>)
      reads this, nodes
    {
      && nodes == old(nodes) && p in nodes && y in nodes && g in nodes
      && p != y && p != g && y != g
      && !p.isRed && !y.isRed && g.isRed
      && p.bh == old(p.bh) + 1 && y.bh == old(y.bh) + 1 && g.bh == old(g.bh)
      && unchanged(nodes`left, nodes`right)
      && unchanged(nodes - {p, y, g})
    }

    twostate lemma RecoloredPaint(p: Node<K, V>, new z: Node<K, V>, new y: Node<K, V>, new g: Node<K, V>,
                                  new n: Node<K, V>)
      requires Recolored(p, y, g)
      requires old(allocated(z)) && old(allocated(n)) && n in nodes
      requires old(Balanced(z, nil, true))
      requires z in nodes && old(Black(z.left) && Black(z.right))
      requires old(p.isRed && y.isRed && !g.isRed)
      requires (g.left == p && g.right == y) || (g.right == p && g.left == y)
      requires n != g ==> n.left != p && n.left != y && n.right != p && n.right != y
      requires n != p ==> n.left != z && n.right != z
      ensures Painted(n, g, nil, true)
    {
      assert old(Painted(n, z, nil, true));
      assert old(Painted(p, z, nil, true));
      assert old(Painted(y, z, nil, true));
      assert old(Painted(g, z, nil, true));
    }

    twostate lemma RecoloredRedAt(p: Node<K, V>, new z: Node<K, V>, new y: Node<K, V>, new g: Node<K, V>)
      requires Recolored(p, y, g)
      requires old(allocated(z)) && old(RedAt(z)) && old(z.parent.isRed)
      requires p == old(z.parent) && g == old(p.parent)
      requires y == (if p == g.left then g.right else g.left) && old(y.isRed)
      requires Links() && nil.isRed == old(nil.isRed) && root == old(root)
      requires z != root && old(Black(root)) && p != root
      requires z != g && z != p && z != g.left && z != g.right && !old(g.isRed)
      requires p == g.left || p == g.right
      ensures RedAt(g)
    {
      Family(g);
      forall n | n in nodes
        ensures Painted(n, g, nil, true)
      {
        Family(n);
        RecoloredPaint(p, z, y, g, n);
      }
    }

    // InsertFixup with a red uncle: recolour and go on two levels up.
    method InsertRecolor(z: Node<K, V>, y: Node<K, V>)
      requires RedAt(z) && z.parent.isRed && y.isRed
      requires y == (if z.parent == z.parent.parent.left then z.parent.parent.right else z.parent.parent.left)
      modifies nodes`isRed, nodes`bh
      ensures RedAt(z.parent.parent)
    {
      Grandparent(z);
      Family(z.parent.parent);
      ghost var p, g := z.parent, z.parent.parent;
      z.parent.isRed := false;
      y.isRed := false;
      z.parent.parent.isRed := true;
      p.bh, y.bh := p.bh + 1, y.bh + 1;
      RecoloredRedAt(p, z, y, g);
    }

    // Between the two states y took x's place below q, and only x, y and e changed colour or black height.
    twostate predicate Reshaped(x: Node<K, V>, new y: Node<K, V>, new e: Node<K, V>)
      reads this, nodes
    {
      var q := old(x.parent);
      && nodes == old(nodes) && x in nodes && y in nodes
      && (q in nodes && q != x && q != y ==> q.left == (if old(q.left) == x then y else old(q.left)))
      && (q in nodes && q != x && q != y ==> q.right == (if old(q.left) == x then old(q.right) else y))
      && unchanged((nodes - {x, y, q})`left, (nodes - {x, y, q})`right)
      && unchanged((nodes - {x, y, e})`isRed, (nodes - {x, y, e})`bh)
      && y.bh == old(x.bh) && (old(x.isRed) || !y.isRed)
    }

    twostate lemma ReshapedPaint(x: Node<K, V>, new y: Node<K, V>, new e: Node<K, V>, new n: Node<K, V>,
                                 new ex: Node<K, V>, new ex2: Node<K, V>,
                                 new short: Node<K, V>, new short2: Node<K, V>, new onLeft: bool)
      requires old(allocated(ex)) && old(allocated(short))
      requires Reshaped(x, y, e)
      requires n in nodes - {x, y, e} && old(Painted(n, ex, short, onLeft))
      requires ex != x && e in nodes
      requires old(y.parent) == x && (e == x || old(e.parent) == y)
      requires n == old(x.parent) ==> old(n.left == x) != old(n.right == x)
      requires old(n.left) in old(nodes) ==> old(n.left.parent) == n
      requires old(n.right) in old(nodes) ==> old(n.right.parent) == n
      requires ex2 == ex || (n != ex && old(n.left) != ex && old(n.right) != ex)
      requires short2 == short || (n != short && short2 == nil && nil !in nodes)
      ensures Painted(n, ex2, short2, onLeft)
    {
    }

    twostate lemma ReshapedBalanced(x: Node<K, V>, new y: Node<K, V>, new e: Node<K, V>,
                                    new ex: Node<K, V>, new ex2: Node<K, V>,
                                    new short: Node<K, V>, new short2: Node<K, V>, new onLeft: bool)
      requires old(allocated(ex)) && old(allocated(short)) && nil !in nodes
      requires Reshaped(x, y, e) && old(Links()) && old(Balanced(ex, short, onLeft))
      requires ex != x && e in nodes
      requires old(y.parent) == x && (e == x || old(e.parent) == y)
      requires ex2 == ex || ex == y
      requires short2 == short || (short == x && short2 == nil)
      requires Painted(x, ex2, short2, onLeft) && Painted(y, ex2, short2, onLeft) && Painted(e, ex2, short2, onLeft)
      ensures Balanced(ex2, short2, onLeft)
    {
      forall n | n in nodes
        ensures Painted(n, ex2, short2, onLeft)
      {
        if n in nodes - {x, y, e} {
          assert old(Linked(n)) && old(Linked(x)) && old(Linked(y)) && old(Painted(n, ex, short, onLeft));
          ReshapedPaint(x, y, e, n, ex, ex2, short, short2, onLeft);
        }
      }
    }

    // InsertFixup with a black uncle: an inner grandchild is first rotated outwards.
    method InsertStraighten(z: Node<K, V>, toLeft: bool) returns (p: Node<K, V>)
      requires RedAt(z) && z.parent.isRed && z == Kid(z.parent, !toLeft)
      modifies this`root, nodes`left, nodes`right, nodes`parent, nodes`lo, nodes`hi
      ensures p == old(z.parent) && RedAt(p) && p.parent == z && z.isRed && Kid(z, toLeft) == p
      ensures z.parent == old(z.parent.parent) && z.parent in nodes
      ensures toLeft == old(z.parent == z.parent.parent.left) ==>
                Kid(z.parent, toLeft) == z && Kid(z.parent, !toLeft) == old(Kid(z.parent.parent, !toLeft))
    {
      Grandparent(z);
      Family(z);
      Family(z.parent);
      Family(z.parent.parent);
      p := z.parent;
      assert Painted(p, z, nil, true) && Painted(z, z, nil, true);
      label L:
      Rotate(p, toLeft);
      ReshapedBalanced@L(p, z, p, z, p, nil, nil, true);
    }

    twostate lemma RaisedRedAt(g: Node<K, V>, new p: Node<K, V>, new z: Node<K, V>)
      requires Reshaped(g, p, g) && old(allocated(z)) && old(RedAt(z)) && Links()
      requires old(z.parent) == p && old(p.parent) == g && old(p.isRed) && old(!g.isRed)
      requires z.parent == p && g.parent == p && z != g
      requires !p.isRed && g.isRed && g.bh == old(g.bh) - 1
      requires old(Black(root)) && (root == old(root) || root == p) && !nil.isRed && z.isRed
      requires (p.left == z && p.right == g && g.right == old(g.right) && g.left == old(p.right))
            || (p.right == z && p.left == g && g.left == old(g.left) && g.right == old(p.left))
      requires old(Black(g.left) || Black(g.right))
      requires unchanged(z`left, z`right)
      ensures RedAt(z)
    {
      assert old(Painted(p, z, nil, true)) && old(Painted(g, z, nil, true));
      assert old(Linked(z)) && old(Linked(p)) && old(Linked(g));
      Family(z);
      Family(p);
      Family(g);
      ReshapedBalanced(g, p, g, z, z, nil, nil, true);
    }

    // Then the parent takes the grandparent's place.
    method InsertRaise(z: Node<K, V>, toLeft: bool)
      requires RedAt(z) && z.parent.isRed && z == Kid(z.parent, !toLeft)
      requires z.parent == Kid(z.parent.parent, !toLeft) && !Kid(z.parent.parent, toLeft).isRed
      modifies this`root, nodes`left, nodes`right, nodes`parent, nodes`lo, nodes`hi, nodes`isRed, nodes`bh
      ensures RedAt(z) && !z.parent.isRed
    {
      Grandparent(z);
      Family(z.parent);
      Family(z.parent.parent);
      ghost var p, g := z.parent, z.parent.parent;
      z.parent.isRed := false;
      z.parent.parent.isRed := true;
      p.bh, g.bh := g.bh, g.bh - 1;
      Rotate(z.parent.parent, toLeft);
      RaisedRedAt(g, p, z);
    }

    // One iteration of InsertFixup: it ends the loop or moves up.
    method InsertStep(z: Node<K, V>) returns (r: Node<K, V>)
      requires RedAt(z) && z.parent.isRed
      modifies this`root, nodes`left, nodes`right, nodes`parent, nodes`lo, nodes`hi, nodes`isRed, nodes`bh
      ensures RedAt(r)
      ensures !r.parent.isRed || r.hi - r.lo > old(z.hi - z.lo)
    {
      Grandparent(z);
      assert Linked(z) && Linked(z.parent) && Linked(z.parent.parent);
      r := z;
      if z.parent == z.parent.parent.left {
        var y := z.parent.parent.right;
        if y.isRed {
          InsertRecolor(z, y);
          r := z.parent.parent;
        } else {
          if z == z.parent.right {
            r := InsertStraighten(z, true);
          }
          InsertRaise(r, false);
        }
      } else {
        var y := z.parent.parent.left;
        if y.isRed {
          InsertRecolor(z, y);
          r := z.parent.parent;
        } else {
          if z == z.parent.left {
            r := InsertStraighten(z, false);
          }
          InsertRaise(r, true);
        }
      }
    }

    method PaintRootBlack(ghost z: Node<K, V>)
      requires Links() && Balanced(z, nil, true) && root in nodes && (z.isRed ==> z == root || !z.parent.isRed)
      requires z in nodes && Black(z.left) && Black(z.right)
      modifies nodes`isRed, nodes`bh
      ensures Links() && Balanced(nil, nil, true) && !root.isRed
    {
      Family(root);
      label L:
      if root.isRed {
        root.bh := root.bh + 1;
      }
      root.isRed := false;
      forall n | n in nodes
        ensures Painted(n, nil, nil, true)
      {
        Family(n);
        assert old@L(Painted(n, z, nil, true));
        assert old@L(Painted(z, z, nil, true));
      }
    }

    method InsertFixup(z0: Node<K, V>)
      requires RedAt(z0)
      modifies this`root, nodes`left, nodes`right, nodes`parent, nodes`lo, nodes`hi, nodes`isRed, nodes`bh
      ensures Links() && Balanced(nil, nil, true) && Black(root) && !nil.isRed
    {
      var z := z0;
      while z.parent.isRed
        invariant RedAt(z)
        decreases z.parent.isRed, |order| - (z.hi - z.lo)
      {
        z := InsertStep(z);
        assert Linked(z);
      }
      assert Linked(z);
      PaintRootBlack(z);
    }

    // ---------- deletion ----------

    // What DeleteFixup keeps: the subtree at x, which may be the sentinel with p as its borrowed parent, is short
    // by one black, and all else is well.
    ghost predicate ShortAt(x: Node<K, V>, p: Node<K, V>, onLeft: bool)
      reads this`nodes, this`root, this`order, nodes`left, nodes`right, nodes`parent, nodes`lo, nodes`pos, nodes`hi
      reads nodes`isRed, nodes`bh, nil`isRed, nil`parent, this`root
    {
      && Links() && !nil.isRed && (x in nodes || x == nil)
      && Balanced(x, p, onLeft)
      && (if x == root then p == nil else p in nodes && x.parent == p && x == Kid(p, onLeft) && Black(root))
    }

    // The sibling is never the sentinel, and asking whether x is its parent's left child names the right side
    // even when x is the sentinel.
    lemma Sibling(x: Node<K, V>, p: Node<K, V>, onLeft: bool)
      requires ShortAt(x, p, onLeft) && x != root && Black(x)
      ensures p in nodes && p != x && (x == p.left <==> onLeft)
      ensures var w := Kid(p, !onLeft);
        (w in nodes && w != nil && w != x && w != p && w.parent == p)
      ensures var w := Kid(p, !onLeft);
        (w.isRed ==> !p.isRed && w.left in nodes && w.right in nodes && !w.left.isRed && !w.right.isRed)
    {
      var w := Kid(p, !onLeft);
      Family(p);
      assert Painted(p, x, p, onLeft);
      assert x in nodes ==> Painted(x, x, p, onLeft);
      assert Painted(w, x, p, onLeft);
      Family(w);
      assert w.left in nodes ==> Painted(w.left, x, p, onLeft);
      assert w.right in nodes ==> Painted(w.right, x, p, onLeft);
    }

    twostate lemma RedSiblingShort(p: Node<K, V>, new x: Node<K, V>, new w: Node<K, V>, new onLeft: bool)
      requires Reshaped(p, w, p) && old(allocated(x)) && old(ShortAt(x, p, onLeft)) && Links()
      requires old(x != root && Black(x)) && w == old(Kid(p, !onLeft)) && old(w.isRed && !p.isRed) && old(w.parent) == p
      requires old(w.left) in nodes && old(w.right) in nodes && old(!w.left.isRed && !w.right.isRed)
      requires w.parent == old(p.parent) && p.parent == w && x.parent == p && x != w && x != p
      requires !w.isRed && p.isRed && p.bh == old(p.bh) - 1 && !nil.isRed
      requires root == (if old(root) == p then w else old(root))
      requires Kid(p, onLeft) == x && Kid(p, !onLeft) == old(Kid(w, onLeft))
      requires Kid(w, onLeft) == p && Kid(w, !onLeft) == old(Kid(w, !onLeft))
      ensures ShortAt(x, p, onLeft) && x != root
    {
      assert old(Painted(p, x, p, onLeft)) && old(Painted(w, x, p, onLeft));
      assert old(Linked(p)) && old(Linked(w));
      Family(p);
      Family(w);
      ReshapedBalanced(p, w, p, x, x, p, p, onLeft);
    }

    // DeleteFixup, case 1: a red sibling is rotated above the parent.
    method LiftRedSibling(x: Node<K, V>, ghost p: Node<K, V>, onLeft: bool)
      requires ShortAt(x, p, onLeft) && x != root && Black(x) && Kid(p, !onLeft).isRed
      modifies this`root, nodes`left, nodes`right, nodes`parent, nodes`lo, nodes`hi, nodes`isRed, nodes`bh
      ensures ShortAt(x, p, onLeft) && x != root && Black(x) && p.isRed && !Kid(p, !onLeft).isRed
      ensures x in nodes ==> x.lo == old(x.lo) && x.hi == old(x.hi)
    {
      Sibling(x, p, onLeft);
      Family(p);
      var w := Kid(x.parent, !onLeft);
      Family(w);
      w.isRed := false;
      x.parent.isRed := true;
      w.bh, p.bh := p.bh, p.bh - 1;
      Rotate(x.parent, onLeft);
      RedSiblingShort(p, x, w, onLeft);
    }

    twostate lemma PassedUpPaint(p: Node<K, V>, new x: Node<K, V>, new w: Node<K, V>, new onLeft: bool,
                                 new n: Node<K, V>)
      requires old(allocated(x)) && old(Balanced(x, p, onLeft)) && nil !in nodes
      requires w == old(Kid(p, !onLeft)) && w in nodes && w != x && w != p && p in nodes && n in nodes
      requires old(!w.isRed && Black(w.left) && Black(w.right) && Black(x))
      requires nodes == old(nodes) && unchanged(nodes`left, nodes`right)
      requires w.isRed && w.bh == old(w.bh) - 1 && p.isRed == old(p.isRed) && p.bh == old(p.bh) - 1
      requires unchanged(nodes - {w, p})
      requires n.left == p || n.right == p ==> n == p.parent && n != w && n != p && p.parent in nodes
      requires n.left == w || n.right == w ==> n == p
      requires p.left != p.right && (p.parent in nodes ==> (p.parent.left == p) != (p.parent.right == p))
      requires n == p.parent ==> n.left == p || n.right == p
      ensures Painted(n, p, p.parent, p.parent.left == p)
    {
      assert old(Painted(n, x, p, onLeft)) && old(Painted(w, x, p, onLeft)) && old(Painted(p, x, p, onLeft));
    }

    twostate lemma PassedUp(p: Node<K, V>, new x: Node<K, V>, new w: Node<K, V>, new onLeft: bool)
      requires old(allocated(x)) && old(ShortAt(x, p, onLeft)) && old(x != root && Black(x)) && Links() && !nil.isRed
      requires w == old(Kid(p, !onLeft)) && w in nodes && w != x && w != p && w.parent == p && p in nodes
      requires old(!w.isRed && Black(w.left) && Black(w.right))
      requires nodes == old(nodes) && root == old(root) && unchanged(nodes`left, nodes`right, nodes`parent)
      requires w.isRed && w.bh == old(w.bh) - 1 && p.isRed == old(p.isRed) && p.bh == old(p.bh) - 1
      requires unchanged(nodes - {w, p})
      ensures ShortAt(p, p.parent, p.parent.left == p)
    {
      ghost var q, side := p.parent, p.parent.left == p;
      Family(p);
      Family(w);
      if p != root {
        Family(q);
      }
      forall n | n in nodes
        ensures Painted(n, p, q, side)
      {
        Family(n);
        PassedUpPaint(p, x, w, onLeft, n);
      }
    }

    // Case 2: with two black nephews the shortage moves to the parent.
    method PassUp(x: Node<K, V>, ghost p: Node<K, V>, onLeft: bool)
      requires ShortAt(x, p, onLeft) && x != root && Black(x)
      requires var w := Kid(p, !onLeft); !w.isRed && !w.left.isRed && !w.right.isRed
      modifies nodes`isRed, nodes`bh
      ensures ShortAt(p, p.parent, p.parent.left == p) && p in nodes && p.isRed == old(p.isRed)
    {
      Sibling(x, p, onLeft);
      var w := Kid(x.parent, !onLeft);
      w.isRed := true;
      w.bh, p.bh := w.bh - 1, p.bh - 1;
      PassedUp(p, x, w, onLeft);
    }

    twostate lemma InnerRaised(w: Node<K, V>, new x: Node<K, V>, new p: Node<K, V>, new v: Node<K, V>, new onLeft: bool)
      requires Reshaped(w, v, w) && old(allocated(x)) && old(allocated(p)) && old(ShortAt(x, p, onLeft)) && Links()
      requires old(x != root && Black(x)) && w == old(Kid(p, !onLeft)) && old(!w.isRed) &&
               v == old(Kid(w, onLeft)) && old(v.parent) == w
      requires old(v.isRed && Black(Kid(w, !onLeft)))
      requires v.parent == p && w.parent == v && x.parent == p && x != w && x != v && p != w && p != v
      requires !v.isRed && w.isRed && w.bh == old(w.bh) - 1 && !nil.isRed
      requires root == old(root) && Kid(p, onLeft) == x
      requires Kid(w, onLeft) == old(Kid(v, !onLeft)) && Kid(w, !onLeft) == old(Kid(w, !onLeft))
      requires Kid(v, !onLeft) == w && Kid(v, onLeft) == old(Kid(v, onLeft))
      ensures ShortAt(x, p, onLeft)
    {
      assert old(Painted(w, x, p, onLeft)) && old(Painted(v, x, p, onLeft));
      assert old(Linked(w)) && old(Linked(v));
      Family(w);
      Family(v);
      ReshapedBalanced(w, v, w, x, x, p, p, onLeft);
    }

    // Case 3: a red inner nephew is rotated into the sibling's place.
    method RaiseInner(x: Node<K, V>, ghost p: Node<K, V>, onLeft: bool)
      requires ShortAt(x, p, onLeft) && x != root && Black(x)
      requires var w := Kid(p, !onLeft); !w.isRed && Kid(w, onLeft).isRed && !Kid(w, !onLeft).isRed
      modifies this`root, nodes`left, nodes`right, nodes`parent, nodes`lo, nodes`hi, nodes`isRed, nodes`bh
      ensures ShortAt(x, p, onLeft) && x != root && Black(x)
      ensures var w := Kid(p, !onLeft); !w.isRed && Kid(w, !onLeft).isRed
    {
      Sibling(x, p, onLeft);
      Family(p);
      var w := Kid(x.parent, !onLeft);
      Family(w);
      var v := Kid(w, onLeft);
      Family(v);
      v.isRed := false;
      w.isRed := true;
      v.bh, w.bh := w.bh, w.bh - 1;
      Rotate(w, !onLeft);
      InnerRaised(w, x, p, v, onLeft);
    }

    twostate predicate OuterTurned(p: Node<K, V>, new w: Node<K, V>, new u: Node<K, V>, new onLeft: bool)
      reads this, nodes
    {
      && Reshaped(p, w, u) && u in nodes && Links()
      && w == old(Kid(p, !onLeft)) && u == old(Kid(w, !onLeft))
      && w.parent == old(p.parent) && p.parent == w
      && w.isRed == old(p.isRed) && !p.isRed && !u.isRed
      && p.bh == old(w.bh) && u.bh == old(u.bh) + 1
      && root == (if old(root) == p then w else old(root))
      && Kid(p, onLeft) == old(Kid(p, onLeft)) && Kid(p, !onLeft) == old(Kid(w, onLeft))
      && Kid(w, onLeft) == p && Kid(w, !onLeft) == u
      && unchanged(u`left, u`right)
    }

    twostate lemma OuterRaised(p: Node<K, V>, new x: Node<K, V>, new w: Node<K, V>, new u: Node<K, V>, new onLeft: bool)
      requires OuterTurned(p, w, u, onLeft)
      requires old(allocated(x)) && old(ShortAt(x, p, onLeft)) && old(x != root && Black(x))
      requires old(!w.isRed && u.isRed)
      ensures Balanced(x, nil, onLeft) && Black(root) && Black(x)
    {
      assert old(Painted(p, x, p, onLeft)) && old(Painted(w, x, p, onLeft)) && old(Painted(u, x, p, onLeft));
      assert old(Linked(p)) && old(Linked(w)) && old(Linked(u));
      assert x in nodes ==> old(Linked(x));
      Family(p);
      Family(w);
      Family(u);
      ReshapedBalanced(p, w, u, x, x, p, nil, onLeft);
    }

    lemma OuterNephew(x: Node<K, V>, p: Node<K, V>, onLeft: bool)
      requires ShortAt(x, p, onLeft) && x != root && Black(x) && Kid(Kid(p, !onLeft), !onLeft).isRed
      ensures root in nodes && p.parent != p
      ensures var w := Kid(p, !onLeft); w in nodes && w != x && w != p && w != p.parent && w.parent == p
      ensures var w, u := Kid(p, !onLeft), Kid(Kid(p, !onLeft), !onLeft);
        (u in nodes && u != w && u != p && u != x && u != p.parent && u.parent == w && u != Kid(w, onLeft))
    {
      Sibling(x, p, onLeft);
      var w := Kid(p, !onLeft);
      Family(p);
      Family(w);
      assert Linked(p) && Linked(w) && Linked(Kid(w, !onLeft));
      assert x in nodes ==> Linked(x);
      assert p.parent in nodes ==> Linked(p.parent);
    }

    method PaintOuter(p: Node<K, V>, w: Node<K, V>, u: Node<K, V>)
      requires p in nodes && w in nodes && u in nodes && p != w && p != u && w != u
      modifies {p, w, u}`isRed, {p, w, u}`bh
      ensures w.isRed == old(p.isRed) && !p.isRed && !u.isRed
      ensures w.bh == old(p.bh) && p.bh == old(w.bh) && u.bh == old(u.bh) + 1
    {
      w.isRed := p.isRed;
      p.isRed := false;
      u.isRed := false;
      w.bh, p.bh, u.bh := p.bh, w.bh, u.bh + 1;
    }

    method TurnOuter(p: Node<K, V>, w: Node<K, V>, u: Node<K, V>, onLeft: bool)
      requires Links() && p in nodes && w in nodes && u in nodes
      requires w == Kid(p, !onLeft) && u == Kid(w, !onLeft) && u != Kid(w, onLeft) && w.parent == p
      requires u != p && u != w && u != p.parent && w != p && w != p.parent && p != p.parent
      requires u.isRed
      modifies this`root, nodes`left, nodes`right, nodes`parent, nodes`lo, nodes`hi, nodes`isRed, nodes`bh
      ensures Links() && OuterTurned(p, w, u, onLeft)
    {
      PaintOuter(p, w, u);
      Rotate(p, onLeft);
    }

    // Case 4: with a red outer nephew one rotation makes up the shortage.
    method RaiseOuter(x: Node<K, V>, ghost p: Node<K, V>, onLeft: bool)
      requires ShortAt(x, p, onLeft) && x != root && Black(x)
      requires var w := Kid(p, !onLeft); !w.isRed && Kid(w, !onLeft).isRed
      modifies this`root, nodes`left, nodes`right, nodes`parent, nodes`lo, nodes`hi, nodes`isRed, nodes`bh
      ensures Links() && Balanced(x, nil, onLeft) && Black(root) && Black(x) && root in nodes
    {
      OuterNephew(x, p, onLeft);
      var w := Kid(x.parent, !onLeft);
      var u := Kid(w, !onLeft);
      TurnOuter(x.parent, w, u, onLeft);
      OuterRaised(p, x, w, u, onLeft);
      assert Linked(p);
    }

    // One iteration of DeleteFixup, for either side: it ends the loop or moves up.
    method DeleteStep(x: Node<K, V>, ghost p: Node<K, V>, ghost side: bool)
      returns (r: Node<K, V>, ghost q: Node<K, V>, ghost rside: bool)
      requires ShortAt(x, p, side) && x != root && !x.isRed
      modifies this`root, nodes`left, nodes`right, nodes`parent, nodes`lo, nodes`hi, nodes`isRed, nodes`bh
      ensures ShortAt(r, q, rside)
      ensures r == root || r.isRed || Width(r) > old(Width(x))
    {
      Sibling(x, p, side);
      assert Linked(p);
      assert x in nodes ==> Linked(x);
      var onLeft := x == x.parent.left;
      if Kid(x.parent, !onLeft).isRed {
        LiftRedSibling(x, p, onLeft);
      }
      var w := Kid(x.parent, !onLeft);
      Sibling(x, p, onLeft);
      Family(w);
      if !w.left.isRed && !w.right.isRed {
        PassUp(x, p, onLeft);
        r, q, rside := x.parent, p.parent, p.parent.left == p;
      } else {
        if !Kid(w, !onLeft).isRed {
          RaiseInner(x, p, onLeft);
        }
        RaiseOuter(x, p, onLeft);
        r, q, rside := root, nil, onLeft;
        BlackNeedsNoExemption(x, root, onLeft);
      }
    }

    lemma BlackNeedsNoExemption(x: Node<K, V>, y: Node<K, V>, onLeft: bool)
      requires Balanced(x, nil, onLeft) && Black(x)
      ensures Balanced(y, nil, onLeft)
    {
      forall n | n in nodes
        ensures Painted(n, y, nil, onLeft)
      {
        assert Painted(n, x, nil, onLeft);
      }
    }

    method PaintBlack(x: Node<K, V>, ghost p: Node<K, V>, ghost side: bool)
      requires ShortAt(x, p, side) && (x == root || x.isRed)
      modifies nil`isRed, nodes`isRed, nodes`bh
      ensures Links() && Balanced(nil, nil, true) && Black(root) && !nil.isRed
    {
      label L:
      if x in nodes {
        Family(x);
        if x.isRed {
          x.bh := x.bh + 1;
        }
      }
      x.isRed := false;
      forall n | n in nodes
        ensures Painted(n, nil, nil, true)
      {
        Family(n);
        assert old@L(Painted(n, x, p, side));
      }
    }

    method DeleteFixup(x0: Node<K, V>, ghost p0: Node<K, V>, ghost side0: bool)
      requires ShortAt(x0, p0, side0)
      modifies this`root, nil`isRed, nodes`left, nodes`right, nodes`parent, nodes`lo, nodes`hi, nodes`isRed, nodes`bh
      ensures Links() && Balanced(nil, nil, true) && Black(root) && !nil.isRed
    {
      var x := x0;
      ghost var p, side := p0, side0;
      while x != root && !x.isRed
        invariant ShortAt(x, p, side)
        decreases x != root && !x.isRed, |order| - Width(x)
      {
        x, p, side := DeleteStep(x, p, side);
        assert x in nodes ==> Linked(x);
      }
      PaintBlack(x, p, side);
    }

    // ---------- linking in and cutting out a node ----------

    ghost predicate Ordered()
      reads this`nodes, this`order, nodes`pos
    {
      && (forall i :: 0 <= i < |order| ==> order[i] in nodes && order[i].pos == i)
      && (forall n :: n in nodes ==> 0 <= n.pos < |order| && order[n.pos] == n)
    }

    // A slot was opened at g, beside the position k of the node that takes the new leaf.
    twostate predicate Opened(k: int, g: int, S: set<Node<K, V>>)
      reads S
    {
      && (forall n :: n in S ==> n.lo == old(n.lo) + (if old(n.lo) > k then 1 else 0))
      && (forall n :: n in S ==> n.pos == old(n.pos) + (if old(n.pos) >= g then 1 else 0))
      && (forall n :: n in S ==> n.hi == old(n.hi) + (if old(n.hi) > k then 1 else 0))
    }

    ghost method OpenSlot(k: int, g: int)
      modifies nodes`lo, nodes`pos, nodes`hi
      ensures Opened(k, g, nodes)
    {
      forall n | n in nodes {
        n.lo := n.lo + (if n.lo > k then 1 else 0);
      }
      forall n | n in nodes {
        n.pos := n.pos + (if n.pos >= g then 1 else 0);
      }
      forall n | n in nodes {
        n.hi := n.hi + (if n.hi > k then 1 else 0);
      }
    }

    twostate predicate Attached(y: Node<K, V>, new z: Node<K, V>, new onLeft: bool)
      reads this, nodes
    {
      var g := if onLeft then old(y.pos) else old(y.pos) + 1;
      && z in nodes && old(nodes) == nodes - {z} && y in nodes && y != z && nil !in nodes && nil !in old(nodes)
      && 0 <= g <= |old(order)| && order == old(order)[..g] + [z] + old(order)[g..]
      && root == old(root)
      && Opened(old(y.pos), g, old(nodes))
      && z.lo == g && z.pos == g && z.hi == g + 1 && z.parent == y && z.left == nil && z.right == nil
      && Kid(y, onLeft) == z && Kid(y, !onLeft) == old(Kid(y, !onLeft))
      && unchanged(old(nodes)`parent)
      && unchanged((old(nodes) - {y})`left, (old(nodes) - {y})`right)
    }

    twostate lemma AttachedLeaf(y: Node<K, V>, new z: Node<K, V>, new onLeft: bool)
      requires Attached(y, z, onLeft) && old(Links()) && old(Kid(y, onLeft)) == nil
      ensures Linked(z)
    {
      assert old(Linked(y));
    }

    twostate lemma AttachedHost(y: Node<K, V>, new z: Node<K, V>, new onLeft: bool)
      requires Attached(y, z, onLeft) && old(Links()) && old(Kid(y, onLeft)) == nil
      ensures Linked(y)
    {
      assert old(Linked(y));
      assert old(y.left) in old(nodes) ==> old(Linked(y.left));
      assert old(y.right) in old(nodes) ==> old(Linked(y.right));
      assert old(y.parent) in old(nodes) ==> old(Linked(y.parent));
    }

    twostate lemma AttachedOther(y: Node<K, V>, new z: Node<K, V>, new onLeft: bool, new n: Node<K, V>)
      requires Attached(y, z, onLeft) && old(Links()) && old(Kid(y, onLeft)) == nil
      requires n in nodes && n != z && n != y && old(n.pos) != old(y.pos)
      ensures Linked(n)
    {
      assert old(Linked(n)) && old(Linked(y));
      assert old(n.left) in old(nodes) ==> old(Linked(n.left));
      assert old(n.right) in old(nodes) ==> old(Linked(n.right));
      assert old(n.parent) in old(nodes) ==> old(Linked(n.parent));
    }

    twostate lemma AttachedLinks(y: Node<K, V>, new z: Node<K, V>, new onLeft: bool)
      requires Attached(y, z, onLeft) && old(Links()) && old(Ordered()) && old(Kid(y, onLeft)) == nil
      ensures Links()
    {
      forall n | n in nodes
        ensures Linked(n)
      {
        if n == z {
          AttachedLeaf(y, z, onLeft);
        } else if n == y {
          AttachedHost(y, z, onLeft);
        } else {
          assert n in old(nodes);
          AttachedOther(y, z, onLeft, n);
        }
      }
      assert old(Linked(y));
    }

    twostate lemma AttachedOrdered(y: Node<K, V>, new z: Node<K, V>, new onLeft: bool)
      requires Attached(y, z, onLeft) && old(Ordered())
      ensures Ordered()
    {
      ghost var g := z.pos;
      forall i | 0 <= i < |order|
        ensures order[i] in nodes && order[i].pos == i
      {
        if i < g {
          assert order[i] == old(order)[i];
        } else if i > g {
          assert order[i] == old(order)[i - 1];
        }
      }
    }

    twostate lemma AttachedRedAt(y: Node<K, V>, new z: Node<K, V>, new onLeft: bool)
      requires Attached(y, z, onLeft) && old(Links()) && old(Kid(y, onLeft)) == nil
      requires old(Balanced(nil, nil, true)) && old(Black(root)) && !nil.isRed && Links()
      requires unchanged(old(nodes)`isRed, old(nodes)`bh) && z.isRed && z.bh == 0
      ensures RedAt(z)
    {
      forall n | n in nodes
        ensures Painted(n, z, nil, true)
      {
        if n != z {
          assert old(Painted(n, nil, nil, true));
          assert old(Linked(n));
        }
      }
    }

    ghost method Adopt(y: Node<K, V>, z: Node<K, V>, k: int, g: int)
      requires z !in nodes && 0 <= g <= |order|
      modifies this`nodes, this`order, nodes`lo, nodes`pos, nodes`hi, z`lo, z`pos, z`hi, z`bh
      ensures nodes == old(nodes) + {z} && order == old(order)[..g] + [z] + old(order)[g..]
      ensures Opened(k, g, old(nodes))
      ensures z.lo == g && z.pos == g && z.hi == g + 1 && z.bh == 0
    {
      OpenSlot(k, g);
      z.lo, z.pos, z.hi, z.bh := g, g, g + 1, 0;
      nodes, order := nodes + {z}, order[..g] + [z] + order[g..];
    }

    method Attach(y: Node<K, V>, z: Node<K, V>, onLeft: bool)
      requires nil !in nodes && 0 <= y.pos < |order|
      requires y in nodes && z !in nodes && z != nil
      modifies this`nodes, this`order, y`left, y`right, nodes`lo, nodes`pos, nodes`hi, z
      ensures Attached(y, z, onLeft) && z.isRed && z.bh == 0
      ensures z.value == old(z.value)
    {
      z.parent := y;
      if onLeft {
        y.left := z;
      } else {
        y.right := z;
      }
      z.left := nil;
      z.right := nil;
      z.isRed := true;
      Adopt(y, z, y.pos, if onLeft then y.pos else y.pos + 1);
    }

    // ---------- the whole invariant ----------

    ghost predicate SortedOrder(ord: seq<Node<K, V>>) {
      forall i, j :: 0 <= i < j < |ord| ==> less(ord[i].key, ord[j].key)
    }

    ghost predicate RedBlack()
      reads this`nodes, this`root, this`order, nodes`left, nodes`right, nodes`parent, nodes`lo, nodes`pos, nodes`hi
      reads nodes`isRed, nodes`bh, nil`isRed
    {
      Links() && Ordered() && Balanced(nil, nil, true) && Black(root) && !nil.isRed
    }

    // A red-black search tree with its sentinel.
    ghost predicate Tree()
      reads this`nodes, this`root, this`order, nodes`left, nodes`right, nodes`parent, nodes`lo, nodes`pos, nodes`hi
      reads nodes`isRed, nodes`bh, nil`isRed, nil`left, nil`right, this`entries, nodes`value
    {
      && RedBlack()
      && nil.left == nil && nil.right == nil
      && SortedOrder(order) && StrictWeakOrder(less)
      && Mirrors()
    }

    // Every node ever allocated is in the tree or freed, and the sentinel's own parent link names the sentinel or
    // one of them.
    ghost predicate Books()
      reads this`size, this`order, this`nodes, this`owned, this`freed, nil`parent
    {
      && size == |order|
      && owned == nodes + freed && nodes !! freed && nil !in owned
      && (nil.parent == nil || nil.parent in owned)
    }

    // What holds between any two calls.
    ghost predicate Valid()
      reads this, nil, nodes
    {
      Tree() && Books()
    }

    // A node is freed once only.
    ghost method Free(z: Node<K, V>)
      requires z in owned && z !in freed
      modifies this`freed
      ensures freed == old(freed) + {z}
    {
      freed := freed + {z};
    }

    // The entries are what the nodes hold, in order.
    ghost predicate Mirrors()
      reads this`order, this`nodes, this`entries, nodes`value
    {
      && |entries| == |order|
      && (forall i :: 0 <= i < |order| ==> order[i] in nodes && entries[i] == (order[i].key, order[i].value))
    }

    lemma EntriesSorted()
      requires SortedOrder(order) && Mirrors()
      ensures Sorted(less, entries)
    {
    }

    // ---------- height ----------

    ghost function Height(n: Node<K, V>): nat
      requires Links() && (n == nil || n in nodes)
      reads this`nodes, this`root, this`order, nodes`left, nodes`right, nodes`parent, nodes`lo, nodes`pos, nodes`hi
      decreases Width(n)
    {
      if n == nil then 0
      else
        assert Linked(n);
        var l, r := Height(n.left), Height(n.right);
        1 + if l < r then r else l
    }

    // A node of black height b spans at least 2^b - 1 positions.
    lemma {:induction false} SpanBound(n: Node<K, V>)
      requires RedBlack() && n in nodes
      ensures n.bh >= 0 && Pow2(n.bh) <= n.hi - n.lo + 1
      decreases Width(n)
    {
      assert Linked(n) && Painted(n, nil, nil, true);
      if n.left in nodes {
        SpanBound(n.left);
      }
      if n.right in nodes {
        SpanBound(n.right);
      }
    }

    lemma {:induction false} HeightBound(n: Node<K, V>)
      requires RedBlack() && n in nodes
      ensures Height(n) <= 2 * n.bh + (if n.isRed then 1 else 0)
      decreases Width(n)
    {
      assert Linked(n) && Painted(n, nil, nil, true);
      if n.left in nodes {
        HeightBound(n.left);
      }
      if n.right in nodes {
        HeightBound(n.right);
      }
    }

    // The height is at most 2 * log2(size + 1).
    lemma LogarithmicHeight()
      requires Valid()
      ensures Pow2(Height(root)) <= (size + 1) * (size + 1)
    {
      if order != [] {
        assert Linked(root);
        HeightBound(root);
        SpanBound(root);
        Pow2Sum(root.bh, root.bh);
        Pow2Monotone(Height(root), 2 * root.bh);
        ProductMonotone(Pow2(root.bh), size + 1);
      }
    }

    // ---------- searching ----------

    ghost predicate Spans(current: Node<K, V>, a: int, b: int)
      reads this`nodes, this`order, nodes`lo, nodes`hi
    {
      && 0 <= a <= b <= |order|
      && (if current == nil then a == b else current in nodes && current.lo == a && current.hi == b)
    }

    // The key lies between the positions a and b, which `current` spans.
    ghost predicate Narrowed(key: K, current: Node<K, V>, a: int, b: int)
      reads this`nodes, this`order, nodes`lo, nodes`hi
    {
      && Spans(current, a, b)
      && (forall i :: 0 <= i < a ==> less(order[i].key, key))
      && (forall i :: b <= i < |order| ==> less(key, order[i].key))
    }

    lemma NarrowLeft(key: K, n: Node<K, V>, a: int, b: int)
      requires Tree() && n != nil && Narrowed(key, n, a, b) && less(key, n.key)
      ensures Narrowed(key, n.left, a, n.pos)
    {
      assert Linked(n);
      forall i | n.pos <= i < |order|
        ensures less(key, order[i].key)
      {
        assert i > n.pos ==> less(order[n.pos].key, order[i].key);
      }
    }

    lemma NarrowRight(key: K, n: Node<K, V>, a: int, b: int)
      requires Tree() && n != nil && Narrowed(key, n, a, b) && less(n.key, key)
      ensures Narrowed(key, n.right, n.pos + 1, b)
    {
      assert Linked(n);
      forall i | 0 <= i <= n.pos
        ensures less(order[i].key, key)
      {
        assert i < n.pos ==> less(order[i].key, order[n.pos].key);
      }
    }

    lemma MatchIsLowerIndex(key: K, n: Node<K, V>)
      requires Tree() && n in nodes && Same(less, n.key, key)
      ensures Has(less, entries, key) && LowerIndex(less, entries, key) == n.pos
    {
      assert entries[n.pos].0 == n.key;
      EntriesSorted();
      LookupExactly(less, entries, key);
      LowerIndexSplits(less, entries, key);
    }

    lemma GapIsLowerIndex(key: K, g: int)
      requires Tree() && Narrowed(key, nil, g, g)
      ensures !Has(less, entries, key) && LowerIndex(less, entries, key) == g
    {
      assert forall i :: 0 <= i < |entries| ==> entries[i].0 == order[i].key;
      LowerIndexUnique(less, entries, key, g);
    }

    // Everything before a is below the key, and what is at b is not.
    ghost predicate Below(key: K, current: Node<K, V>, a: int, b: int)
      reads this`nodes, this`order, nodes`lo, nodes`hi
    {
      && Spans(current, a, b)
      && (forall i :: 0 <= i < a ==> less(order[i].key, key))
      && (b < |order| ==> !less(order[b].key, key))
    }

    lemma BelowRight(key: K, n: Node<K, V>, a: int, b: int)
      requires Tree() && n != nil && Below(key, n, a, b) && less(n.key, key)
      ensures Below(key, n.right, n.pos + 1, b)
    {
      assert Linked(n);
      forall i | 0 <= i <= n.pos
        ensures less(order[i].key, key)
      {
        assert i < n.pos ==> less(order[i].key, order[n.pos].key);
      }
    }

    // Nothing before a is above the key, and what is at b is.
    ghost predicate NotAbove(key: K, current: Node<K, V>, a: int, b: int)
      reads this`nodes, this`order, nodes`lo, nodes`hi
    {
      && Spans(current, a, b)
      && (forall i :: 0 <= i < a ==> !less(key, order[i].key))
      && (b < |order| ==> less(key, order[b].key))
    }

    lemma NotAboveRight(key: K, n: Node<K, V>, a: int, b: int)
      requires Tree() && n != nil && NotAbove(key, n, a, b) && !less(key, n.key)
      ensures NotAbove(key, n.right, n.pos + 1, b)
    {
      assert Linked(n);
      forall i | 0 <= i <= n.pos
        ensures !less(key, order[i].key)
      {
        assert i < n.pos ==> less(order[i].key, order[n.pos].key);
      }
    }

    method Find(key: K) returns (r: Node<K, V>, ghost steps: nat)
      requires Valid()
      ensures Valid()
      ensures steps <= Height(root)
      ensures r == if Has(less, entries, key) then order[LowerIndex(less, entries, key)] else nil
    {
      ghost var a, b := 0, |order|;
      assert root in nodes ==> Linked(root);
      var current := root;
      steps := 0;
      while current != nil
        invariant Narrowed(key, current, a, b) && steps + Height(current) <= Height(root)
        decreases b - a
      {
        assert Linked(current);
        steps := steps + 1;
        if less(key, current.key) {
          NarrowLeft(key, current, a, b);
          b := current.pos;
          current := current.left;
        } else if less(current.key, key) {
          NarrowRight(key, current, a, b);
          a := current.pos + 1;
          current := current.right;
        } else {
          MatchIsLowerIndex(key, current);
          return current, steps;
        }
      }
      GapIsLowerIndex(key, a);
      return nil, steps;
    }

    method LowerBound(key: K) returns (result: Node<K, V>, ghost steps: nat)
      requires Valid()
      ensures Valid()
      ensures steps <= Height(root)
      ensures var i := LowerIndex(less, entries, key); result == if i < |order| then order[i] else nil
    {
      ghost var a, b := 0, |order|;
      assert root in nodes ==> Linked(root);
      var current := root;
      result := nil;
      steps := 0;
      while current != nil
        invariant Below(key, current, a, b) && steps + Height(current) <= Height(root)
        invariant result == if b < |order| then order[b] else nil
        decreases b - a
      {
        assert Linked(current);
        steps := steps + 1;
        if !less(current.key, key) {
          result := current;
          b := current.pos;
          current := current.left;
        } else {
          BelowRight(key, current, a, b);
          a := current.pos + 1;
          current := current.right;
        }
      }
      LowerIndexUnique(less, entries, key, a);
    }

    method UpperBound(key: K) returns (result: Node<K, V>, ghost steps: nat)
      requires Valid()
      ensures Valid()
      ensures steps <= Height(root)
      ensures var i := UpperIndex(less, entries, key); result == if i < |order| then order[i] else nil
    {
      ghost var a, b := 0, |order|;
      assert root in nodes ==> Linked(root);
      var current := root;
      result := nil;
      steps := 0;
      while current != nil
        invariant NotAbove(key, current, a, b) && steps + Height(current) <= Height(root)
        invariant result == if b < |order| then order[b] else nil
        decreases b - a
      {
        assert Linked(current);
        steps := steps + 1;
        if less(key, current.key) {
          result := current;
          b := current.pos;
          current := current.left;
        } else {
          NotAboveRight(key, current, a, b);
          a := current.pos + 1;
          current := current.right;
        }
      }
      UpperIndexUnique(less, entries, key, a);
    }

    // y is where the descent for a missing key ended, and its free side is the key's gap.
    ghost predicate Gap(key: K, y: Node<K, V>)
      reads this`nodes, this`order, nodes`left, nodes`right, nodes`lo, nodes`pos, nodes`hi
    {
      if y == nil then order == []
      else y in nodes
           && if less(key, y.key) then y.left == nil && Narrowed(key, nil, y.pos, y.pos)
              else y.right == nil && Narrowed(key, nil, y.pos + 1, y.pos + 1)
    }

    method Descend(key: K) returns (x: Node<K, V>, y: Node<K, V>)
      requires Valid()
      ensures Valid()
      ensures if x != nil then x in nodes && Same(less, x.key, key) else Gap(key, y)
    {
      ghost var a, b := 0, |order|;
      assert root in nodes ==> Linked(root);
      y := nil;
      x := root;
      while x != nil
        invariant Narrowed(key, x, a, b)
        invariant if y == nil then a == 0 && b == |order|
                  else y in nodes &&
                       if less(key, y.key) then x == y.left && b == y.pos else x == y.right && a == y.pos + 1
        decreases b - a
      {
        assert Linked(x);
        y := x;
        if less(key, x.key) {
          NarrowLeft(key, x, a, b);
          b := x.pos;
          x := x.left;
        } else if less(x.key, key) {
          NarrowRight(key, x, a, b);
          a := x.pos + 1;
          x := x.right;
        } else {
          return;
        }
      }
    }

    // ---------- inserting ----------

    twostate predicate Spliced(new z: Node<K, V>, new g: int)
      reads this
    {
      && 0 <= g <= |old(order)|
      && order == old(order)[..g] + [z] + old(order)[g..]
      && nodes == old(nodes) + {z}
    }

    method AttachRoot(z: Node<K, V>)
      requires RedBlack() && order == [] && z !in nodes && z != nil
      modifies this`root, this`order, this`nodes, z
      ensures RedAt(z) && Ordered() && order == [z] && nodes == {z} && z.value == old(z.value)
    {
      assert nodes == {};
      z.parent := nil;
      root := z;
      z.left := nil;
      z.right := nil;
      z.isRed := true;
      z.lo, z.pos, z.hi, z.bh := 0, 0, 1, 0;
      order, nodes := [z], {z};
      assert Linked(z) && Painted(z, z, nil, true);
    }

    // The common end of Insert and operator[]: link z in at the gap the descent found, then repair.
    method LinkIn(z: Node<K, V>, y: Node<K, V>, ghost g: int)
      requires RedBlack() && SortedOrder(order) && z !in nodes && z != nil && Gap(z.key, y) &&
               Narrowed(z.key, nil, g, g)
      requires y != nil ==> g == if less(z.key, y.key) then y.pos else y.pos + 1
      modifies this`root, this`order, this`nodes, nodes`left, nodes`right, nodes`parent, nodes`lo, nodes`pos, nodes`hi
      modifies nodes`isRed, nodes`bh, z
      ensures RedBlack() && Spliced(z, g) && z.value == old(z.value)
    {
      if y == nil {
        AttachRoot(z);
      } else {
        ghost var onLeft := less(z.key, y.key);
        label L:
        Attach(y, z, less(z.key, y.key));
        AttachedLinks@L(y, z, onLeft);
        AttachedOrdered@L(y, z, onLeft);
        AttachedRedAt@L(y, z, onLeft);
      }
      InsertFixup(z);
    }

    lemma SortedSplice(key: K, ord: seq<Node<K, V>>, g: int, z: Node<K, V>)
      requires SortedOrder(ord) && 0 <= g <= |ord| && z.key == key
      requires forall i :: 0 <= i < g ==> less(ord[i].key, key)
      requires forall i :: g <= i < |ord| ==> less(key, ord[i].key)
      ensures SortedOrder(ord[..g] + [z] + ord[g..])
    {
    }

    twostate lemma SplicedIsInserted(key: K, new z: Node<K, V>, new g: int)
      requires old(SortedOrder(order) && Mirrors()) && Spliced(z, g) && z.key == key
      requires entries == old(entries)[..g] + [(key, z.value)] + old(entries)[g..]
      requires old(Narrowed(key, nil, g, g)) && unchanged(old(nodes)`value)
      ensures SortedOrder(order) && Mirrors()
    {
      SortedSplice(key, old(order), g, z);
    }

    ghost method Enter(z: Node<K, V>, y: Node<K, V>, g: nat)
      requires Tree() && Gap(z.key, y) && Narrowed(z.key, nil, g, g)
      modifies this`entries
      ensures entries == old(entries)[..g] + [(z.key, z.value)] + old(entries)[g..]
      ensures RedBlack() && Gap(z.key, y) && Narrowed(z.key, nil, g, g)
    {
      entries := entries[..g] + [(z.key, z.value)] + entries[g..];
    }

    // The common end of Insert and operator[], seen as an update of the entries.
    method LinkEntry(z: Node<K, V>, y: Node<K, V>) returns (ghost g: nat)
      requires Tree() && z !in nodes && z != nil && Gap(z.key, y)
      modifies this`root, this`order, this`entries, this`nodes
      modifies nodes`left, nodes`right, nodes`parent, nodes`lo, nodes`pos, nodes`hi, nodes`isRed, nodes`bh, z
      ensures Tree() && nodes == old(nodes) + {z} && |order| == |old(order)| + 1
      ensures z.value == old(z.value) && !Has(less, old(entries), z.key)
      ensures g == LowerIndex(less, old(entries), z.key) && z == order[g]
      ensures entries == old(entries)[..g] + [(z.key, z.value)] + old(entries)[g..]
    {
      g := if y == nil then 0 else if less(z.key, y.key) then y.pos else y.pos + 1;
      GapIsLowerIndex(z.key, g);
      Enter(z, y, g);
      LinkIn(z, y, g);
      SplicedIsInserted(z.key, z, g);
    }

    method CountIn(ghost z: Node<K, V>)
      requires Tree() && size + 1 == |order| && z in nodes && z !in owned && z != nil && nil !in owned
      requires owned == nodes - {z} + freed && nodes - {z} !! freed && (nil.parent == nil || nil.parent in owned)
      modifies this`owned, this`size
      ensures Valid() && owned == old(owned) + {z} && size == old(size) + 1
    {
      owned, size := owned + {z}, size + 1;
    }

    method LinkNew(z: Node<K, V>, y: Node<K, V>)
      requires Valid() && z !in owned && z != nil && Gap(z.key, y)
      modifies this`root, this`size, this`order, this`entries, this`nodes, this`owned
      modifies nodes`left, nodes`right, nodes`parent, nodes`lo, nodes`pos, nodes`hi, nodes`isRed, nodes`bh, z
      ensures Valid() && nodes == old(nodes) + {z} && owned == old(owned) + {z} && size == old(size) + 1
      ensures z.value == old(z.value) && !Has(less, old(entries), z.key)
      ensures z == order[LowerIndex(less, old(entries), z.key)]
      ensures entries == Inserted(less, old(entries), z.key, z.value) && nil.parent == old(nil.parent)
    {
      ghost var g := LinkEntry(z, y);
      CountIn(z);
    }

    // The node made for a key that is already there goes straight back.
    ghost method Discard(z: Node<K, V>, x: Node<K, V>)
      requires Valid() && z !in owned && z != nil && x in nodes && Same(less, x.key, z.key)
      modifies this`owned, this`freed
      ensures Valid() && owned == old(owned) + {z} && freed == old(freed) + {z}
      ensures nil.parent in freed <==> nil.parent in old(freed)
      ensures entries == Inserted(less, entries, z.key, z.value) && Has(less, entries, z.key)
      ensures LowerIndex(less, entries, z.key) < |order| && x == order[LowerIndex(less, entries, z.key)]
    {
      MatchIsLowerIndex(z.key, x);
      owned := owned + {z};
      Free(z);
    }

    // Insert once the node is made: it is linked in, or freed again when the key is there already.
    method InsertNode(z: Node<K, V>) returns (r: Node<K, V>, inserted: bool)
      requires Valid() && z !in owned && z != nil
      modifies this`root, this`size, this`order, this`entries, this`nodes, this`owned, this`freed
      modifies nodes`left, nodes`right, nodes`parent, nodes`lo, nodes`pos, nodes`hi, nodes`isRed, nodes`bh, z
      ensures Valid() && z.value == old(z.value)
      ensures entries == Inserted(less, old(entries), z.key, z.value)
      ensures inserted == !Has(less, old(entries), z.key)
      ensures r in nodes && r == order[LowerIndex(less, old(entries), z.key)]
      ensures size == old(size) + (if inserted then 1 else 0) && owned == old(owned) + {z}
      ensures if inserted then r == z && nodes == old(nodes) + {z} && freed == old(freed)
              else nodes == old(nodes) && freed == old(freed) + {z}
      ensures nil.parent == old(nil.parent) && (nil.parent in freed <==> nil.parent in old(freed))
    {
      var x, y := Descend(z.key);
      if x != nil {
        Discard(z, x);
        return x, false;
      }
      LinkNew(z, y);
      return z, true;
    }

    method NewNode(key: K, val: V) returns (z: Node<K, V>)
      requires Valid()
      ensures Valid() && fresh(z) && z.key == key && z.value == val
    {
      z := new Node(key, val);
    }

    method Insert(key: K, val: V) returns (r: Node<K, V>, inserted: bool)
      requires Valid()
      modifies this`root, this`size, this`order, this`entries, this`nodes, this`owned, this`freed
      modifies nodes`left, nodes`right, nodes`parent, nodes`lo, nodes`pos, nodes`hi, nodes`isRed, nodes`bh
      ensures Valid()
      ensures entries == Inserted(less, old(entries), key, val)
      ensures inserted == !Has(less, old(entries), key)
      ensures r in nodes && r == order[LowerIndex(less, old(entries), key)]
      ensures size == old(size) + (if inserted then 1 else 0)
      ensures old(nodes) <= nodes && old(owned) <= owned && fresh(owned - old(owned)) && |owned| == |old(owned)| + 1
      ensures freed == old(freed) + (if inserted then {} else owned - old(owned))
      ensures nil.parent == old(nil.parent) && (nil.parent in freed <==> nil.parent in old(freed))
    {
      var z := NewNode(key, val);
      assert owned + {z} - owned == {z};
      r, inserted := InsertNode(z);
    }

    method LinkDefault(key: K, y: Node<K, V>) returns (z: Node<K, V>)
      requires Valid() && Gap(key, y)
      modifies this`root, this`size, this`order, this`entries, this`nodes, this`owned
      modifies nodes`left, nodes`right, nodes`parent, nodes`lo, nodes`pos, nodes`hi, nodes`isRed, nodes`bh
      ensures Valid() && nodes == old(nodes) + {z} && owned == old(owned) + {z} && size == old(size) + 1 && fresh(z)
      ensures !Has(less, old(entries), key)
      ensures z == order[LowerIndex(less, old(entries), key)]
      ensures entries == Inserted(less, old(entries), key, defaultValue)
    {
      z := NewNode(key, defaultValue);
      LinkNew(z, y);
    }

    // operator[]: the node whose value the returned reference names.
    method Index(key: K) returns (r: Node<K, V>)
      requires Valid()
      modifies this`root, this`size, this`order, this`entries, this`nodes, this`owned
      modifies nodes`left, nodes`right, nodes`parent, nodes`lo, nodes`pos, nodes`hi, nodes`isRed, nodes`bh
      ensures Valid() && r in nodes && LowerIndex(less, old(entries), key) < |order|
      ensures r == order[LowerIndex(less, old(entries), key)]
      ensures entries == Inserted(less, old(entries), key, defaultValue)
      ensures size == old(size) + (if Has(less, old(entries), key) then 0 else 1)
      ensures old(nodes) <= nodes && old(owned) <= owned && fresh(owned - old(owned))
      ensures |owned| == |old(owned)| + (if Has(less, old(entries), key) then 0 else 1)
    {
      var x, y := Descend(key);
      if x != nil {
        MatchIsLowerIndex(key, x);
        return x;
      }
      r := LinkDefault(key, y);
    }

    // What `map[key] = val` does: a write through the reference operator[] returns.
    method Assign(key: K, val: V)
      requires Valid()
      modifies this`root, this`size, this`order, this`entries, this`nodes, this`owned
      modifies nodes`left, nodes`right, nodes`parent, nodes`lo, nodes`pos, nodes`hi, nodes`isRed, nodes`bh, nodes`value
      ensures Valid()
      ensures entries == Assigned(less, old(entries), key, val)
      ensures old(nodes) <= nodes && old(owned) <= owned && fresh(owned - old(owned))
      ensures |owned| == |old(owned)| + (if Has(less, old(entries), key) then 0 else 1)
    {
      var r := Index(key);
      ghost var i := LowerIndex(less, old(entries), key);
      AssignedThroughDefault(less, old(entries), key, defaultValue, val);
      Store(r, i, val);
    }

    method Store(r: Node<K, V>, ghost i: nat, val: V)
      requires Valid() && i < |order| && r == order[i]
      modifies this`entries, r`value
      ensures Valid() && entries == old(entries)[i := (old(entries)[i].0, val)]
    {
      r.value := val;
      entries := entries[i := (entries[i].0, val)];
    }

    // ---------- erasing: cutting out a node with a free side ----------

    twostate predicate Closed(q: int, S: set<Node<K, V>>)
      reads S
    {
      && (forall n :: n in S ==> n.lo == old(n.lo) - (if old(n.lo) > q then 1 else 0))
      && (forall n :: n in S ==> n.pos == old(n.pos) - (if old(n.pos) > q then 1 else 0))
      && (forall n :: n in S ==> n.hi == old(n.hi) - (if old(n.hi) > q then 1 else 0))
    }

    ghost method CloseSlot(q: int, S: set<Node<K, V>>)
      modifies S`lo, S`pos, S`hi
      ensures Closed(q, S)
    {
      forall n | n in S {
        n.lo := n.lo - (if n.lo > q then 1 else 0);
      }
      forall n | n in S {
        n.pos := n.pos - (if n.pos > q then 1 else 0);
      }
      forall n | n in S {
        n.hi := n.hi - (if n.hi > q then 1 else 0);
      }
    }

    // v, the only child u can have, took u's place.
    twostate predicate Unlinked(u: Node<K, V>, new v: Node<K, V>)
      reads this, nodes, v
    {
      var q, p := old(u.pos), old(u.parent);
      && u in old(nodes) && nil !in old(nodes) && nodes == old(nodes) - {u} && p != u && v != u
      && 0 <= q < |old(order)| && order == old(order)[..q] + old(order)[q + 1..]
      && ((old(u.left) == nil && v == old(u.right)) || (old(u.right) == nil && v == old(u.left)))
      && Closed(q, nodes)
      && root == (if p == nil then v else old(root))
      && (p in nodes ==> p.left == (if old(p.left) == u then v else old(p.left)))
      && (p in nodes ==> p.right == (if old(p.left) == u then old(p.right) else v))
      && unchanged((nodes - {p})`left, (nodes - {p})`right)
      && v.parent == p && unchanged((nodes - {v})`parent)
    }

    method Transplant(u: Node<K, V>, v: Node<K, V>)
      requires nil !in nodes && (u.parent == nil || u.parent in nodes)
      modifies this`root, (nodes * {u.parent})`left, (nodes * {u.parent})`right, v`parent
      ensures root == (if old(u.parent) == nil then v else old(root))
      ensures old(u.parent) in nodes ==>
        && old(u.parent).left == (if old(u.parent.left) == u then v else old(u.parent.left))
        && old(u.parent).right == (if old(u.parent.left) == u then old(u.parent.right) else v)
      ensures v.parent == old(u.parent)
    {
      ReplaceInParent(u, v);
      v.parent := u.parent;
    }

    ghost method Disown(u: Node<K, V>)
      requires 0 <= u.pos < |order|
      modifies this`nodes, this`order, (nodes - {u})`lo, (nodes - {u})`pos, (nodes - {u})`hi
      ensures nodes == old(nodes) - {u} && order == old(order)[..u.pos] + old(order)[u.pos + 1..]
      ensures u.pos == old(u.pos) && Closed(u.pos, nodes)
    {
      CloseSlot(u.pos, nodes - {u});
      nodes, order := nodes - {u}, order[..u.pos] + order[u.pos + 1..];
    }

    method CutOut(u: Node<K, V>, v: Node<K, V>)
      requires nil !in nodes && u in nodes && 0 <= u.pos < |order|
      requires u.parent != u && (u.parent == nil || u.parent in nodes) && v != u && (v == nil || v in nodes)
      requires (u.left == nil && v == u.right) || (u.right == nil && v == u.left)
      modifies this`root, this`nodes, this`order, nodes`left, nodes`right, nodes`parent, nodes`lo, nodes`pos, nodes`hi
      modifies nil`parent
      ensures Unlinked(u, v) && (v != nil ==> nil.parent == old(nil.parent))
    {
      Transplant(u, v);
      Disown(u);
    }

    twostate lemma UnlinkedParent(u: Node<K, V>, new v: Node<K, V>)
      requires Unlinked(u, v) && old(Links()) && old(u.parent) in nodes
      ensures Linked(old(u.parent))
    {
      var n := old(u.parent);
      assert old(Linked(u)) && old(Linked(n));
      assert v in nodes ==> old(Linked(v));
      assert old(n.left) in old(nodes) ==> old(Linked(n.left));
      assert old(n.right) in old(nodes) ==> old(Linked(n.right));
      assert old(n.parent) in old(nodes) ==> old(Linked(n.parent));
    }

    twostate lemma UnlinkedChild(u: Node<K, V>, new v: Node<K, V>)
      requires Unlinked(u, v) && old(Links()) && v in nodes
      ensures Linked(v)
    {
      assert old(Linked(u)) && old(Linked(v));
      assert old(v.left) in old(nodes) ==> old(Linked(v.left));
      assert old(v.right) in old(nodes) ==> old(Linked(v.right));
      assert old(u.parent) in old(nodes) ==> old(Linked(u.parent));
    }

    twostate lemma UnlinkedOther(u: Node<K, V>, new v: Node<K, V>, new n: Node<K, V>)
      requires Unlinked(u, v) && old(Links()) && n in nodes - {v, old(u.parent)} && old(n.pos) != old(u.pos)
      requires old(n.left) in old(nodes) ==> old(n.left) == u || old(n.left.pos) != old(u.pos)
      requires old(n.right) in old(nodes) ==> old(n.right) == u || old(n.right.pos) != old(u.pos)
      ensures Linked(n)
    {
      assert old(Linked(u)) && old(Linked(n));
      assert v in nodes ==> old(Linked(v));
      assert old(n.left) in old(nodes) ==> old(Linked(n.left));
      assert old(n.right) in old(nodes) ==> old(Linked(n.right));
      assert old(n.parent) in old(nodes) ==> old(Linked(n.parent));
    }

    twostate lemma UnlinkedRoot(u: Node<K, V>, new v: Node<K, V>)
      requires Unlinked(u, v) && old(Links())
      ensures order == [] ==> root == nil
      ensures order != [] ==> root in nodes
    {
      assert old(Linked(u)) && old(Linked(root));
      assert v in nodes ==> old(Linked(v));
      assert old(u.parent) in old(nodes) ==> old(Linked(u.parent));
    }

    twostate lemma UnlinkedOrdered(u: Node<K, V>, new v: Node<K, V>)
      requires Unlinked(u, v) && old(Ordered())
      ensures Ordered()
    {
      ghost var q := old(u.pos);
      forall i | 0 <= i < |order|
        ensures order[i] in nodes && order[i].pos == i
      {
        assert order[i] == old(order)[if i < q then i else i + 1];
      }
    }

    twostate lemma UnlinkedLinks(u: Node<K, V>, new v: Node<K, V>)
      requires Unlinked(u, v) && old(Links()) && old(Ordered())
      ensures Links()
    {
      forall n | n in nodes
        ensures Linked(n)
      {
        if n == old(u.parent) {
          UnlinkedParent(u, v);
        } else if n == v {
          UnlinkedChild(u, v);
        } else {
          assert old(order)[old(n.pos)] == n;
          assert old(n.left) in old(nodes) ==> old(order)[old(n.left.pos)] == old(n.left);
          assert old(n.right) in old(nodes) ==> old(order)[old(n.right.pos)] == old(n.right);
          UnlinkedOther(u, v, n);
        }
      }
      UnlinkedRoot(u, v);
    }

    twostate lemma UnlinkedPaint(u: Node<K, V>, new v: Node<K, V>, new n: Node<K, V>)
      requires Unlinked(u, v) && old(Links()) && old(Balanced(nil, nil, true))
      requires unchanged(nodes`isRed, nodes`bh) && n in nodes
      ensures old(u.isRed) ==> Painted(n, nil, nil, true)
      ensures old(!u.isRed) ==> Painted(n, v, old(u.parent), old(u.parent.left) == u)
    {
      assert old(Painted(n, nil, nil, true)) && old(Painted(u, nil, nil, true));
      assert v in nodes ==> old(Painted(v, nil, nil, true));
      assert old(Linked(n)) && old(Linked(u));
    }

    twostate lemma UnlinkedShort(u: Node<K, V>, new v: Node<K, V>)
      requires Unlinked(u, v) && old(RedBlack()) && !nil.isRed && unchanged(nodes`isRed, nodes`bh)
      ensures Links() && Ordered()
      ensures old(u.isRed) ==> Balanced(nil, nil, true) && Black(root)
      ensures old(!u.isRed) ==> ShortAt(v, old(u.parent), old(u.parent.left) == u)
    {
      UnlinkedLinks(u, v);
      UnlinkedOrdered(u, v);
      assert old(Linked(u)) && old(Painted(u, nil, nil, true));
      assert old(u.parent) in old(nodes) ==> old(Linked(u.parent));
      assert root in nodes ==> Linked(root);
      forall n | n in nodes
        ensures old(u.isRed) ==> Painted(n, nil, nil, true)
        ensures old(!u.isRed) ==> Painted(n, v, old(u.parent), old(u.parent.left) == u)
      {
        UnlinkedPaint(u, v, n);
      }
    }

    // ---------- erasing: a detached node takes the place of another ----------

    twostate predicate Replaced(z: Node<K, V>, y: Node<K, V>)
      reads this, nodes
    {
      var p := old(z.parent);
      && z in old(nodes) && y !in old(nodes) && y != nil && nil !in old(nodes) && nodes == old(nodes) - {z} + {y} &&
         p != z
      && 0 <= old(z.pos) < |old(order)| && order == old(order)[old(z.pos) := y]
      && y.left == old(z.left) && y.right == old(z.right) && y.parent == p
      && y.lo == old(z.lo) && y.pos == old(z.pos) && y.hi == old(z.hi) && y.isRed == old(z.isRed) && y.bh == old(z.bh)
      && root == (if p == nil then y else old(root))
      && (p in nodes && p != y ==> p.left == (if old(p.left) == z then y else old(p.left)))
      && (p in nodes && p != y ==> p.right == (if old(p.left) == z then old(p.right) else y))
      && var rest := old(nodes) - {z};
      && unchanged((rest - {p})`left, (rest - {p})`right)
      && (y.left in nodes ==> y.left.parent == y) && (y.right in nodes ==> y.right.parent == y)
      && unchanged((rest - {y.left, y.right})`parent, rest`lo, rest`pos, rest`hi, rest`isRed, rest`bh)
    }

    twostate lemma ReplacedSelf(z: Node<K, V>, new y: Node<K, V>)
      requires old(allocated(y)) && Replaced(z, y) && old(Links())
      ensures Linked(y)
    {
      assert old(Linked(z));
      assert old(z.left) in old(nodes) ==> old(Linked(z.left));
      assert old(z.right) in old(nodes) ==> old(Linked(z.right));
      assert old(z.parent) in old(nodes) ==> old(Linked(z.parent));
    }

    twostate lemma ReplacedParent(z: Node<K, V>, new y: Node<K, V>)
      requires old(allocated(y)) && Replaced(z, y) && old(Links()) && old(z.parent) in old(nodes)
      ensures Linked(old(z.parent))
    {
      var n := old(z.parent);
      assert old(Linked(z)) && old(Linked(n));
      assert old(z.left) in old(nodes) ==> old(Linked(z.left));
      assert old(z.right) in old(nodes) ==> old(Linked(z.right));
      assert old(n.left) in old(nodes) ==> old(Linked(n.left));
      assert old(n.right) in old(nodes) ==> old(Linked(n.right));
      assert old(n.parent) in old(nodes) ==> old(Linked(n.parent));
    }

    twostate lemma ReplacedChild(z: Node<K, V>, new y: Node<K, V>, new n: Node<K, V>)
      requires old(allocated(y)) && Replaced(z, y) && old(Links()) && n in nodes && (n == y.left || n == y.right)
      ensures Linked(n)
    {
      assert old(Linked(z)) && old(Linked(n));
      assert old(n.left) in old(nodes) ==> old(Linked(n.left));
      assert old(n.right) in old(nodes) ==> old(Linked(n.right));
      assert old(z.parent) in old(nodes) ==> old(Linked(z.parent));
    }

    twostate lemma ReplacedOther(z: Node<K, V>, new y: Node<K, V>, new n: Node<K, V>)
      requires old(allocated(y)) && Replaced(z, y) && old(Links())
      requires n in nodes - {y, y.left, y.right, old(z.parent)}
      ensures Linked(n)
    {
      assert old(Linked(z)) && old(Linked(n));
      assert old(n.left) in old(nodes) ==> old(Linked(n.left));
      assert old(n.right) in old(nodes) ==> old(Linked(n.right));
      assert old(n.parent) in old(nodes) ==> old(Linked(n.parent));
    }

    twostate lemma ReplacedLinks(z: Node<K, V>, new y: Node<K, V>)
      requires old(allocated(y)) && Replaced(z, y) && old(Links())
      ensures Links()
    {
      assert old(Linked(z));
      forall n | n in nodes
        ensures Linked(n)
      {
        if n == y {
          ReplacedSelf(z, y);
        } else if n == old(z.parent) {
          ReplacedParent(z, y);
        } else if n == y.left || n == y.right {
          ReplacedChild(z, y, n);
        } else {
          ReplacedOther(z, y, n);
        }
      }
    }

    twostate lemma ReplacedOrdered(z: Node<K, V>, new y: Node<K, V>)
      requires old(allocated(y)) && Replaced(z, y) && old(Ordered())
      ensures Ordered()
    {
    }

    twostate lemma ReplacedPaint(z: Node<K, V>, new y: Node<K, V>, new n: Node<K, V>,
                                 new ex: Node<K, V>, new short: Node<K, V>, new side: bool)
      requires old(allocated(y) && allocated(ex) && allocated(short))
      requires Replaced(z, y) && old(Links()) && old(Balanced(ex, short, side)) && n in nodes
      requires ex != z && ex != y && short != z && short != y
      ensures Painted(n, ex, short, side)
    {
      assert old(Painted(z, ex, short, side));
      assert old(Linked(z));
      if n != y {
        assert old(Painted(n, ex, short, side));
        assert old(Linked(n));
      }
    }

    twostate lemma ReplacedShort(z: Node<K, V>, new y: Node<K, V>, new x: Node<K, V>, new p: Node<K, V>, new side: bool)
      requires old(allocated(y) && allocated(x) && allocated(p)) && Replaced(z, y) && Links()
      requires old(ShortAt(x, p, side)) && p in old(nodes) && p != z && x != z && x != y && !nil.isRed
      requires x == nil ==> nil.parent == p
      ensures ShortAt(x, p, side)
    {
      assert old(Linked(z)) && old(Linked(p));
      assert x in old(nodes) ==> old(Linked(x));
      assert old(root) in old(nodes) ==> old(Linked(root));
      forall n | n in nodes
        ensures Painted(n, x, p, side)
      {
        ReplacedPaint(z, y, n, x, p, side);
      }
    }

    // y was z's right child without a left child of its own; it took z's place.
    twostate predicate Promoted(z: Node<K, V>, new y: Node<K, V>)
      reads this, nodes, y, y.right
    {
      var p, k := old(z.parent), old(z.pos);
      && z in old(nodes) && y == old(z.right) && y in nodes && old(y.left) == nil && nil !in old(nodes)
      && nodes == old(nodes) - {z} && p != z && p != y
      && 0 <= k < |old(order)| && order == old(order)[..k] + old(order)[k + 1..]
      && y.left == old(z.left) && y.right == old(y.right) && y.parent == p
      && y.lo == old(z.lo) && y.pos == k && y.hi == old(z.hi) - 1 && y.isRed == old(z.isRed) && y.bh == old(z.bh)
      && root == (if p == nil then y else old(root))
      && (p in nodes ==> p.left == (if old(p.left) == z then y else old(p.left)))
      && (p in nodes ==> p.right == (if old(p.left) == z then old(p.right) else y))
      && Closed(old(y.pos), nodes - {y})
      && unchanged((nodes - {y, p})`left, (nodes - {y, p})`right)
      && (y.left in nodes ==> y.left.parent == y) && y.right.parent == y
      && unchanged((nodes - {y, y.left, y.right})`parent, (nodes - {y})`isRed, (nodes - {y})`bh)
    }

    twostate lemma PromotedSelf(z: Node<K, V>, new y: Node<K, V>)
      requires Promoted(z, y) && old(Links())
      ensures Linked(y)
    {
      assert old(Linked(z)) && old(Linked(y));
      assert old(z.left) in old(nodes) ==> old(Linked(z.left));
      assert old(y.right) in old(nodes) ==> old(Linked(y.right));
      assert old(z.parent) in old(nodes) ==> old(Linked(z.parent));
    }

    twostate lemma PromotedParent(z: Node<K, V>, new y: Node<K, V>)
      requires Promoted(z, y) && old(Links()) && old(z.parent) in old(nodes)
      requires old(y.pos) == old(z.pos) + 1 && old(y.pos) < old(z.hi)
      requires old(z.parent) != y.left && old(z.parent) != y.right
      requires y.right in nodes ==> old(y.right.parent) == y
      ensures Linked(old(z.parent))
    {
      var n := old(z.parent);
      assert old(Linked(z)) && old(Linked(n));
      assert old(n.left) in old(nodes) ==> old(Linked(n.left));
      assert old(n.right) in old(nodes) ==> old(Linked(n.right));
    }

    twostate lemma PromotedChild(z: Node<K, V>, new y: Node<K, V>, new n: Node<K, V>)
      requires Promoted(z, y) && old(Links()) && n in nodes && (n == y.left || n == y.right)
      ensures Linked(n)
    {
      assert old(Linked(z)) && old(Linked(y)) && old(Linked(n));
      assert old(n.left) in old(nodes) ==> old(Linked(n.left));
      assert old(n.right) in old(nodes) ==> old(Linked(n.right));
      assert old(z.parent) in old(nodes) ==> old(Linked(z.parent));
    }

    twostate lemma PromotedOther(z: Node<K, V>, new y: Node<K, V>, new n: Node<K, V>)
      requires Promoted(z, y) && old(Links()) && n in nodes - {y, y.left, y.right, old(z.parent)}
      requires old(n.pos) != old(y.pos)
      requires old(n.left) in old(nodes) ==> old(n.left) == y || old(n.left.pos) != old(y.pos)
      requires old(n.right) in old(nodes) ==> old(n.right) == y || old(n.right.pos) != old(y.pos)
      ensures Linked(n)
    {
      assert old(Linked(z)) && old(Linked(y)) && old(Linked(n));
      assert old(n.left) in old(nodes) ==> old(Linked(n.left));
      assert old(n.right) in old(nodes) ==> old(Linked(n.right));
      assert old(n.parent) in old(nodes) ==> old(Linked(n.parent));
    }

    twostate lemma PromotedLinks(z: Node<K, V>, new y: Node<K, V>)
      requires Promoted(z, y) && old(Links()) && old(Ordered())
      ensures Links()
    {
      assert old(Linked(z)) && old(Linked(y));
      forall n | n in nodes
        ensures Linked(n)
      {
        if n == y {
          PromotedSelf(z, y);
        } else if n == old(z.parent) {
          assert old(Linked(n));
          assert old(z.left) in nodes ==> old(Linked(z.left));
          assert old(y.right) in nodes ==> old(Linked(y.right));
          PromotedParent(z, y);
        } else if n == y.left || n == y.right {
          PromotedChild(z, y, n);
        } else {
          assert old(order)[old(n.pos)] == n;
          assert old(n.left) in old(nodes) ==> old(order)[old(n.left.pos)] == old(n.left);
          assert old(n.right) in old(nodes) ==> old(order)[old(n.right.pos)] == old(n.right);
          PromotedOther(z, y, n);
        }
      }
    }

    twostate lemma PromotedOrdered(z: Node<K, V>, new y: Node<K, V>)
      requires Promoted(z, y) && old(Links()) && old(Ordered())
      ensures Ordered()
    {
      assert old(Linked(z)) && old(Linked(y));
      ghost var k := old(z.pos);
      forall i | 0 <= i < |order|
        ensures order[i] in nodes && order[i].pos == i
      {
        assert order[i] == old(order)[if i < k then i else i + 1];
      }
    }

    twostate lemma PromotedPaint(z: Node<K, V>, new y: Node<K, V>, new n: Node<K, V>)
      requires Promoted(z, y) && old(Links()) && old(Balanced(nil, nil, true)) && n in nodes
      ensures old(y.isRed) ==> Painted(n, nil, nil, true)
      ensures old(!y.isRed) ==> Painted(n, y.right, y, false)
    {
      assert old(Painted(n, nil, nil, true)) && old(Painted(z, nil, nil, true)) && old(Painted(y, nil, nil, true));
      assert old(y.right) in old(nodes) ==> old(Painted(y.right, nil, nil, true));
      assert old(Linked(n)) && old(Linked(z)) && old(Linked(y));
      assert old(y.right) in old(nodes) ==> old(Linked(y.right));
    }

    twostate lemma PromotedShort(z: Node<K, V>, new y: Node<K, V>)
      requires Promoted(z, y) && old(RedBlack()) && !nil.isRed
      ensures Links() && Ordered()
      ensures old(y.isRed) ==> Balanced(nil, nil, true) && Black(root)
      ensures old(!y.isRed) ==> ShortAt(y.right, y, false)
    {
      PromotedLinks(z, y);
      PromotedOrdered(z, y);
      assert Linked(y);
      assert Linked(root);
      assert old(Linked(z));
      forall n | n in nodes
        ensures old(y.isRed) ==> Painted(n, nil, nil, true)
        ensures old(!y.isRed) ==> Painted(n, y.right, y, false)
      {
        PromotedPaint(z, y, n);
      }
    }

    // z has a free side: its other child x takes its place.
    method DetachSimple(z: Node<K, V>, x: Node<K, V>)
      requires RedBlack() && z in nodes
      requires (z.left == nil && x == z.right) || (z.right == nil && x == z.left)
      modifies this`root, this`nodes, this`order, nodes`left, nodes`right, nodes`parent, nodes`lo, nodes`pos, nodes`hi
      modifies nil`parent
      ensures Links() && Ordered() && Unlinked(z, x) && (x != nil ==> nil.parent == old(nil.parent))
      ensures old(z.isRed) ==> Balanced(nil, nil, true) && Black(root)
      ensures old(!z.isRed) ==> ShortAt(x, old(z.parent), old(z.parent.left) == z)
    {
      Family(z);
      CutOut(z, x);
      UnlinkedShort(z, x);
    }

    ghost method Promotion(z: Node<K, V>, y: Node<K, V>)
      requires y in nodes && z in nodes && y != z && 0 <= z.pos < |order|
      modifies this`nodes, this`order, (nodes - {z})`lo, (nodes - {z})`pos, (nodes - {z})`hi, y`bh
      ensures nodes == old(nodes) - {z} && order == old(order)[..z.pos] + old(order)[z.pos + 1..]
      ensures Closed(old(y.pos), nodes - {y})
      ensures y.lo == z.lo && y.pos == z.pos && y.hi == z.hi - 1 && y.bh == z.bh
    {
      CloseSlot(y.pos, nodes - {y, z});
      y.lo, y.pos, y.hi, y.bh := z.lo, z.pos, z.hi - 1, z.bh;
      nodes, order := nodes - {z}, order[..z.pos] + order[z.pos + 1..];
    }

    // The tail both cases of Erase share: y comes in under z's parent and over z's left child.
    method TakePlace(z: Node<K, V>, y: Node<K, V>)
      requires nil !in nodes && z in nodes && z.left in nodes && z.left != z && z.left != y && y != z && y != nil
      requires (z.parent == nil || z.parent in nodes) && z.parent != y && z.parent != z
      modifies this`root, (nodes * {z.parent})`left, (nodes * {z.parent})`right, z.left`parent, y`parent, y`left,
               y`isRed
      ensures root == (if z.parent == nil then y else old(root))
      ensures z.parent in nodes ==>
        && z.parent.left == (if old(z.parent.left) == z then y else old(z.parent.left))
        && z.parent.right == (if old(z.parent.left) == z then old(z.parent.right) else y)
      ensures y.parent == z.parent && y.left == z.left && z.left.parent == y && y.isRed == z.isRed
      ensures z.left == old(z.left) && z.parent == old(z.parent) && z.isRed == old(z.isRed)
    {
      Transplant(z, y);
      y.left := z.left;
      y.left.parent := y;
      y.isRed := z.isRed;
    }

    method Promote(z: Node<K, V>, y: Node<K, V>, x: Node<K, V>)
      requires nil !in nodes && z in nodes && y in nodes && y == z.right && x == y.right && y.left == nil &&
               z.left in nodes
      requires 0 <= z.pos < |order| && z.parent != z && z.parent != y && (z.parent == nil || z.parent in nodes)
      requires z != y && x != z && x != y && (x == nil || x in nodes) && z.left != y && z.left != z && z.left != x
      modifies this`root, this`nodes, this`order, nodes`left, nodes`right, nodes`parent, nodes`lo, nodes`pos, nodes`hi
      modifies nodes`isRed, nodes`bh, nil`parent
      ensures Promoted(z, y) && nil.parent == (if x == nil then y else old(nil.parent))
    {
      x.parent := y;
      TakePlace(z, y);
      Promotion(z, y);
    }

    ghost method Substitution(z: Node<K, V>, y: Node<K, V>)
      requires z in nodes && y != z && 0 <= z.pos < |order|
      modifies this`nodes, this`order, y`lo, y`pos, y`hi, y`bh
      ensures nodes == old(nodes) - {z} + {y} && order == old(order)[z.pos := y]
      ensures y.lo == z.lo && y.pos == z.pos && y.hi == z.hi && y.bh == z.bh
    {
      y.lo, y.pos, y.hi, y.bh := z.lo, z.pos, z.hi, z.bh;
      nodes, order := nodes - {z} + {y}, order[z.pos := y];
    }

    method Replace(z: Node<K, V>, y: Node<K, V>)
      requires nil !in nodes && z in nodes && y !in nodes && y != nil && z.left in nodes && z.right in nodes
      requires 0 <= z.pos < |order| && z.parent != z && (z.parent == nil || z.parent in nodes)
      requires z.left != z && z.right != z && z.left != z.right
      modifies this`root, this`nodes, this`order, nodes`left, nodes`right, nodes`parent
      modifies y`left, y`right, y`parent, y`lo, y`pos, y`hi, y`isRed, y`bh
      ensures Replaced(z, y)
    {
      y.right := z.right;
      y.right.parent := y;
      TakePlace(z, y);
      Substitution(z, y);
    }

    // On an empty map these are called on the sentinel, whose links lead back to itself.
    method Minimum(n: Node<K, V>) returns (m: Node<K, V>)
      requires Links() && (n in nodes || (n == nil && nil.left == nil))
      ensures if n == nil then m == nil else m in nodes && m.left == nil && m.pos == n.lo
    {
      m := n;
      assert n in nodes ==> Linked(n);
      while m.left != nil
        invariant n == nil ==> m == nil
        invariant n != nil ==> m in nodes && Linked(m) && m.lo == n.lo
        decreases Width(m)
      {
        m := m.left;
        assert Linked(m);
      }
    }

    method Maximum(n: Node<K, V>) returns (m: Node<K, V>)
      requires Links() && (n in nodes || (n == nil && nil.right == nil))
      ensures if n == nil then m == nil else m in nodes && m.right == nil && m.pos == n.hi - 1
    {
      m := n;
      assert n in nodes ==> Linked(n);
      while m.right != nil
        invariant n == nil ==> m == nil
        invariant n != nil ==> m in nodes && Linked(m) && m.hi == n.hi
        decreases Width(m)
      {
        m := m.right;
        assert Linked(m);
      }
    }

    // The node one place on in the order, found by climbing parent links when there is no right child.
    method Successor(n: Node<K, V>) returns (y: Node<K, V>)
      requires Links() && Ordered() && n in nodes
      ensures y == if n.pos + 1 < |order| then order[n.pos + 1] else nil
    {
      assert Linked(n);
      if n.right != nil {
        assert Linked(n.right);
        y := Minimum(n.right);
        return;
      }
      var node := n;
      y := node.parent;
      while y != nil && node == y.right
        invariant node in nodes && Linked(node) && y == node.parent && node.hi == n.pos + 1
        decreases |order| - Width(node)
      {
        assert Linked(y);
        node := y;
        y := y.parent;
      }
      assert y in nodes ==> Linked(y);
    }

    method Predecessor(n: Node<K, V>) returns (y: Node<K, V>)
      requires Links() && Ordered() && n in nodes
      ensures y == if n.pos > 0 then order[n.pos - 1] else nil
    {
      assert Linked(n);
      if n.left != nil {
        assert Linked(n.left);
        y := Maximum(n.left);
        return;
      }
      var node := n;
      y := node.parent;
      while y != nil && node == y.left
        invariant node in nodes && Linked(node) && y == node.parent && node.lo == n.pos
        decreases |order| - Width(node)
      {
        assert Linked(y);
        node := y;
        y := y.parent;
      }
      assert y in nodes ==> Linked(y);
    }

    // The node after z in the order has no left child; it is z's right child or lies below it.
    lemma NextBelow(z: Node<K, V>, y: Node<K, V>)
      requires RedBlack() && z in nodes && z.left != nil && z.right != nil
      requires y in nodes && y.left == nil && y.pos == z.right.lo
      ensures y.pos == z.pos + 1 < |order| && order[z.pos + 1] == y && y != z && z.left in nodes && z.right in nodes
      ensures y.parent in nodes && y.parent != y && (y.parent == z <==> y == z.right) && z.parent != y && z.parent != z
      ensures z.parent == nil || z.parent in nodes
      ensures z.left != y && z.left != z && z.left != z.right && z.right != z
      ensures y.right == nil || (y.right in nodes && y.right != z && y.right != y && y.right != z.left)
    {
      assert Linked(z);
      assert Linked(y);
      assert Linked(z.left);
      assert Linked(z.right);
      assert z.parent in nodes ==> Linked(z.parent);
      assert y.right in nodes ==> Linked(y.right);
      assert y.parent in nodes ==> Linked(y.parent);
    }

    method DetachNext(z: Node<K, V>, y: Node<K, V>, x: Node<K, V>)
      requires RedBlack() && z in nodes && z.left != nil && z.right != nil
      requires y in nodes && y.left == nil && y.pos == z.right.lo && x == y.right && y.parent == z
      modifies this`root, this`nodes, this`order, nodes`left, nodes`right, nodes`parent, nodes`lo, nodes`pos, nodes`hi
      modifies nodes`isRed, nodes`bh, nil`parent
      ensures Links() && Ordered() && Detached(z) && nil.parent == (if x == nil then y else old(nil.parent)) &&
              y in nodes
      ensures old(y.isRed) ==> Balanced(nil, nil, true) && Black(root)
      ensures old(!y.isRed) ==> ShortAt(x, y, false)
    {
      NextBelow(z, y);
      Promote(z, y, x);
      PromotedShort(z, y);
    }

    twostate predicate Detached(z: Node<K, V>)
      reads this
    {
      && z in old(nodes) && nodes == old(nodes) - {z}
      && 0 <= old(z.pos) < |old(order)|
      && order == old(order)[..old(z.pos)] + old(order)[old(z.pos) + 1..]
    }

    // y, already cut out, takes z's place; the shortage below p, if there is one, stays where it is.
    method TakeOver(z: Node<K, V>, y: Node<K, V>, ghost x: Node<K, V>, ghost p: Node<K, V>, ghost side: bool,
                    ghost red: bool)
      requires Links() && Ordered() && !nil.isRed && z in nodes && z.left != nil && z.right != nil && y !in nodes &&
               y != nil
      requires red ==> Balanced(nil, nil, true) && Black(root)
      requires !red ==> ShortAt(x, p, side) && p in nodes && p != z && x != z && x != y
      modifies this`root, this`nodes, this`order, nodes`left, nodes`right, nodes`parent
      modifies y`left, y`right, y`parent, y`lo, y`pos, y`hi, y`isRed, y`bh
      ensures Links() && Ordered() && Replaced(z, y)
      ensures red ==> Balanced(nil, nil, true) && Black(root)
      ensures !red ==> ShortAt(x, p, side)
    {
      assert Linked(z);
      Family(z);
      Replace(z, y);
      ReplacedLinks(z, y);
      ReplacedOrdered(z, y);
      if red {
        forall n | n in nodes
          ensures Painted(n, nil, nil, true)
        {
          ReplacedPaint(z, y, n, nil, nil, true);
        }
      } else {
        ReplacedShort(z, y, x, p, side);
      }
    }

    // Taking out the entry after k and putting it over k is taking out k.
    static lemma NextTakesPlace<T>(s: seq<T>, k: nat)
      requires k + 1 < |s|
      ensures (s[..k + 1] + s[k + 2..])[k := s[k + 1]] == s[..k] + s[k + 1..]
    {
    }

    // The node after z in the order is cut out first.
    method CutNext(z: Node<K, V>, y: Node<K, V>, x: Node<K, V>)
      requires RedBlack() && z in nodes && z.left != nil && z.right != nil
      requires y in nodes && y.left == nil && y.pos == z.right.lo && x == y.right && y.parent != z
      modifies this`root, this`nodes, this`order, nodes`left, nodes`right, nodes`parent, nodes`lo, nodes`pos, nodes`hi
      modifies nil`parent
      ensures Links() && Ordered() && nodes == old(nodes) - {y} && z in nodes && z.left != nil && z.right != nil
      ensures z.pos == old(z.pos) && z.pos + 1 < |old(order)| && old(order)[z.pos + 1] == y && y != z
      ensures order == old(order)[..z.pos + 1] + old(order)[z.pos + 2..]
      ensures nil.parent == (if x == nil then old(y.parent) else old(nil.parent))
      ensures old(y.isRed) ==> Balanced(nil, nil, true) && Black(root)
      ensures old(!y.isRed) ==> ShortAt(x, old(y.parent), old(y.parent.left) == y)
      ensures old(y.parent) in nodes && old(y.parent) != z && x != z && x != y
    {
      NextBelow(z, y);
      DetachSimple(y, x);
    }

    method DetachDeep(z: Node<K, V>, y: Node<K, V>, x: Node<K, V>)
      requires RedBlack() && z in nodes && z.left != nil && z.right != nil
      requires y in nodes && y.left == nil && y.pos == z.right.lo && x == y.right && y.parent != z
      modifies this`root, this`nodes, this`order, nodes`left, nodes`right, nodes`parent, nodes`lo, nodes`pos, nodes`hi
      modifies nodes`isRed, nodes`bh, nil`parent
      ensures Links() && Ordered() && Detached(z) && nil.parent == (if x == nil then old(y.parent) else old(nil.parent))
      ensures old(y.isRed) ==> Balanced(nil, nil, true) && Black(root)
      ensures old(!y.isRed) ==> ShortAt(x, old(y.parent), old(y.parent.left) == y)
    {
      ghost var p, side, red := y.parent, y.parent.left == y, y.isRed;
      CutNext(z, y, x);
      TakeOver(z, y, x, p, side, red);
      NextTakesPlace(old(order), old(z.pos));
    }

    // ---------- erasing ----------

    lemma SortedRemoval(ord: seq<Node<K, V>>, k: int)
      requires SortedOrder(ord) && 0 <= k < |ord|
      ensures SortedOrder(ord[..k] + ord[k + 1..])
    {
    }

    twostate lemma DetachedMirrors(z: Node<K, V>, new k: int)
      requires old(SortedOrder(order) && Mirrors()) && Detached(z) && k == old(z.pos) && Ordered()
      requires entries == old(entries)[..k] + old(entries)[k + 1..]
      requires unchanged(old(nodes)`value)
      ensures SortedOrder(order) && Mirrors()
    {
      SortedRemoval(old(order), k);
    }

    // The node that takes the place left free by erasing z: the x of Erase, the sentinel when there is none.
    ghost function Filler(z: Node<K, V>): Node<K, V>
      requires RedBlack() && z in nodes
      reads this`nodes, this`root, this`order, nodes`left, nodes`right, nodes`parent, nodes`lo, nodes`pos, nodes`hi
      reads nodes`isRed, nodes`bh, nil`isRed
    {
      assert Linked(z);
      if z.left == nil then z.right
      else if z.right == nil then z.left
      else order[z.pos + 1].right
    }

    // The parent it comes under, which the sentinel borrows.
    ghost function Host(z: Node<K, V>): (p: Node<K, V>)
      requires RedBlack() && z in nodes
      reads this`nodes, this`root, this`order, nodes`left, nodes`right, nodes`parent, nodes`lo, nodes`pos, nodes`hi
      reads nodes`isRed, nodes`bh, nil`isRed
    {
      assert Linked(z);
      if z.left == nil || z.right == nil then z.parent
      else if order[z.pos + 1].parent == z then order[z.pos + 1]
      else order[z.pos + 1].parent
    }

    // The links are rearranged around z; black says whether a black node left its place.
    method Detach(z: Node<K, V>) returns (x: Node<K, V>, black: bool, ghost p: Node<K, V>, ghost side: bool)
      requires RedBlack() && z in nodes
      modifies this`root, this`nodes, this`order, nodes`left, nodes`right, nodes`parent, nodes`lo, nodes`pos, nodes`hi
      modifies nodes`isRed, nodes`bh, nil`parent
      ensures Links() && Ordered() && Detached(z)
      ensures !black ==> Balanced(nil, nil, true) && Black(root)
      ensures black ==> ShortAt(x, p, side)
      ensures x == old(Filler(z)) && nil.parent == (if x == nil then old(Host(z)) else old(nil.parent))
      ensures x == nil ==> nil.parent == nil || nil.parent in nodes
    {
      assert Linked(z);
      Family(z);
      black := !z.isRed;
      if z.left == nil {
        x, p, side := z.right, z.parent, z.parent.left == z;
        DetachSimple(z, x);
      } else if z.right == nil {
        x, p, side := z.left, z.parent, z.parent.left == z;
        DetachSimple(z, x);
      } else {
        var y := Minimum(z.right);
        black := !y.isRed;
        x := y.right;
        NextBelow(z, y);
        if y.parent == z {
          p, side := y, false;
          DetachNext(z, y, x);
        } else {
          p, side := y.parent, y.parent.left == y;
          DetachDeep(z, y, x);
        }
      }
    }

    // A tree but for one missing black below p, if `black` says so.
    ghost predicate RepairDue(x: Node<K, V>, black: bool, p: Node<K, V>, side: bool)
      reads this`nodes, this`root, this`order, nodes`left, nodes`right, nodes`parent, nodes`lo, nodes`pos, nodes`hi
      reads nodes`isRed, nodes`bh, nil`isRed, nil`left, nil`right, nil`parent, this`entries, nodes`value
    {
      && Links() && Ordered() && SortedOrder(order) && Mirrors() && StrictWeakOrder(less)
      && !nil.isRed && nil.left == nil && nil.right == nil
      && (!black ==> Balanced(nil, nil, true) && Black(root))
      && (black ==> ShortAt(x, p, side))
    }

    // Take z out of the tree and out of the entries; the repair may still be due.
    method DetachEntry(z: Node<K, V>) returns (x: Node<K, V>, black: bool, ghost p: Node<K, V>, ghost side: bool)
      requires Tree() && z in nodes
      modifies this`root, this`nodes, this`order, this`entries
      modifies nodes`left, nodes`right, nodes`parent, nodes`lo, nodes`pos, nodes`hi, nodes`isRed, nodes`bh, nil`parent
      ensures RepairDue(x, black, p, side) && Detached(z)
      ensures entries == old(entries)[..old(z.pos)] + old(entries)[old(z.pos) + 1..]
      ensures x == old(Filler(z)) && nil.parent == (if x == nil then old(Host(z)) else old(nil.parent))
      ensures x == nil ==> nil.parent == nil || nil.parent in nodes
    {
      ghost var k := z.pos;
      entries := entries[..k] + entries[k + 1..];
      x, black, p, side := Detach(z);
      DetachedMirrors(z, k);
    }

    method CountOut(ghost z: Node<K, V>)
      requires z in owned && z !in freed && size > 0
      modifies this`freed, this`size
      ensures freed == old(freed) + {z} && size == old(size) - 1
    {
      Free(z);
      size := size - 1;
    }

    // The end of Erase: z is freed first, and the repair, which cannot touch it, comes after.
    method FreeThenRepair(z: Node<K, V>, x: Node<K, V>, black: bool, ghost p: Node<K, V>, ghost side: bool)
      requires RepairDue(x, black, p, side) && z !in nodes && z in owned && z !in freed && size == |order| + 1
      modifies this`root, this`size, this`freed, nil`isRed
      modifies nodes`left, nodes`right, nodes`parent, nodes`lo, nodes`hi, nodes`isRed, nodes`bh
      ensures Tree() && freed == old(freed) + {z} && size == |order|
    {
      CountOut(z);
      if black {
        DeleteFixup(x, p, side);
      }
    }

    method Remove(z: Node<K, V>)
      requires Valid() && z in nodes
      modifies this`root, this`size, this`order, this`entries, this`nodes, this`freed
      modifies nodes`left, nodes`right, nodes`parent, nodes`lo, nodes`pos, nodes`hi, nodes`isRed, nodes`bh
      modifies nil`parent, nil`isRed
      ensures Valid() && nodes == old(nodes) - {z}
      ensures entries == old(entries)[..old(z.pos)] + old(entries)[old(z.pos) + 1..]
      ensures freed == old(freed) + {z} && size == old(size) - 1
      ensures nil.parent == old(if Filler(z) == nil then Host(z) else nil.parent)
      ensures old(Filler(z)) == nil ==> nil.parent == nil || nil.parent in nodes
    {
      var x, black;
      ghost var p, side;
      x, black, p, side := DetachEntry(z);
      FreeThenRepair(z, x, black, p, side);
    }

    // Erase(position): End() is left alone. Afterwards the sentinel's parent link names a freed node exactly when
    // a real node filled the free place, so that nothing was borrowed, and the link named z or was stale already.
    method EraseAt(z: Node<K, V>)
      requires Valid() && (z == nil || z in nodes)
      modifies this`root, this`size, this`order, this`entries, this`nodes, this`freed
      modifies nodes`left, nodes`right, nodes`parent, nodes`lo, nodes`pos, nodes`hi, nodes`isRed, nodes`bh
      modifies nil`parent, nil`isRed
      ensures Valid()
      ensures z == nil ==> entries == old(entries) && nodes == old(nodes) && freed == old(freed)
      ensures z == nil ==> nil.parent == old(nil.parent)
      ensures z != nil ==> entries == old(entries)[..old(z.pos)] + old(entries)[old(z.pos) + 1..]
      ensures z != nil ==> nodes == old(nodes) - {z} && freed == old(freed) + {z}
      ensures z != nil ==> nil.parent == old(if Filler(z) == nil then Host(z) else nil.parent)
      ensures z != nil ==>
        (nil.parent in freed <==> old(Filler(z)) != nil && (old(nil.parent) == z || old(nil.parent) in old(freed)))
    {
      if z == nil {
        return;
      }
      Remove(z);
    }

    // Erasing the key leaves the sentinel's parent link at a freed node, told before the erasure.
    ghost predicate GoesStale(key: K)
      requires Valid()
      reads this, nil, nodes
    {
      if Has(less, entries, key) then
        var z := order[LowerIndex(less, entries, key)];
        Filler(z) != nil && (nil.parent == z || nil.parent in freed)
      else nil.parent in freed
    }

    method EraseFound(key: K, z: Node<K, V>)
      requires Valid() && Has(less, entries, key) && z == order[LowerIndex(less, entries, key)]
      modifies this`root, this`size, this`order, this`entries, this`nodes, this`freed
      modifies nodes`left, nodes`right, nodes`parent, nodes`lo, nodes`pos, nodes`hi, nodes`isRed, nodes`bh
      modifies nil`parent, nil`isRed
      ensures Valid() && nodes == old(nodes) - {z} && freed == old(freed) + {z} && size == old(size) - 1
      ensures entries == Erased(less, old(entries), key)
      ensures old(GoesStale(key)) <==> nil.parent in freed
    {
      EraseAt(z);
    }

    // Erase(key): 1 when the key was there, 0 when not.
    method Erase(key: K) returns (count: nat)
      requires Valid()
      modifies this`root, this`size, this`order, this`entries, this`nodes, this`freed
      modifies nodes`left, nodes`right, nodes`parent, nodes`lo, nodes`pos, nodes`hi, nodes`isRed, nodes`bh
      modifies nil`parent, nil`isRed
      ensures Valid()
      ensures entries == Erased(less, old(entries), key)
      ensures count == (if Has(less, old(entries), key) then 1 else 0) && size == old(size) - count
      ensures nodes <= old(nodes) && freed == old(freed) + (old(nodes) - nodes)
      ensures old(GoesStale(key)) <==> nil.parent in freed
    {
      var it, _ := Find(key);
      if it != nil {
        EraseFound(key, it);
        return 1;
      }
      return 0;
    }

    // ---------- clearing ----------

    ghost function Subtree(n: Node<K, V>): set<Node<K, V>>
      reads this`nodes, nodes`lo, nodes`hi, nodes`pos
    {
      if n in nodes then set m | m in nodes && n.lo <= m.pos < n.hi else {}
    }

    lemma SubtreeSplits(n: Node<K, V>)
      requires Links() && Ordered() && n in nodes
      ensures Subtree(n) == Subtree(n.left) + {n} + Subtree(n.right)
      ensures n !in Subtree(n.left) && n !in Subtree(n.right) && Subtree(n.left) !! Subtree(n.right)
    {
      assert Linked(n);
      forall m | m in Subtree(n)
        ensures m in Subtree(n.left) + {n} + Subtree(n.right)
      {
        assert m.pos == n.pos ==> m == n;
      }
      assert n.left in nodes ==> Linked(n.left);
      assert n.right in nodes ==> Linked(n.right);
    }

    // Children first, each node of the subtree once.
    method ClearFrom(n: Node<K, V>)
      requires Links() && Ordered() && (n == nil || n in nodes) && nodes <= owned && Subtree(n) !! freed
      modifies this`freed
      ensures freed == old(freed) + Subtree(n)
      decreases Width(n)
    {
      if n != nil {
        assert Linked(n);
        SubtreeSplits(n);
        ClearFrom(n.left);
        ClearFrom(n.right);
        Free(n);
      }
    }

    method Clear()
      requires Valid()
      modifies this`root, this`size, this`order, this`entries, this`nodes, this`freed
      ensures Valid() && entries == [] && size == 0 && nodes == {} && root == nil
      ensures freed == old(freed) + old(nodes)
      ensures nil.parent == old(nil.parent) && (nil.parent in freed <==> nil.parent != nil)
    {
      assert Subtree(root) == nodes by {
        assert root in nodes ==> Linked(root);
      }
      ClearFrom(root);
      root := nil;
      size := 0;
      order, entries, nodes := [], [], {};
    }

    // ---------- ownership ----------

    // When a real node fills the place of an erased one, told before the erasure.
    lemma FillerIsReal(z: Node<K, V>)
      requires RedBlack() && z in nodes
      ensures z.left != nil && z.right != nil ==> z.pos + 1 < |order|
      ensures Filler(z) != nil <==>
        if z.left != nil && z.right != nil then order[z.pos + 1].right != nil else z.left != nil || z.right != nil
    {
      assert Linked(z);
    }

    // No link of the tree, and neither child link of the sentinel, leads to a freed node.
    lemma LinksLive()
      requires Valid()
      ensures root !in freed && nil.left !in freed && nil.right !in freed
      ensures forall n :: n in nodes ==> n.left !in freed && n.right !in freed && n.parent !in freed
      ensures forall n :: n in owned <==> (n in nodes) != (n in freed) && (n in nodes || n in freed)
    {
      forall n | n in nodes
        ensures n.left !in freed && n.right !in freed && n.parent !in freed
      {
        Family(n);
      }
    }
  }
}
