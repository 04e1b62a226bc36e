/** The shapes a red-black tree can have. */
module RedBlack {

  /** The tree's current shape. Its nodes hold a queue in order, so a node is a position
      in the queue; rebalancing changes only the shape. */
  datatype Shape = Leaf | Node(left: Shape, right: Shape)

  function Size(sh: Shape): nat {
    match sh
    case Leaf => 0
    case Node(l, r) => Size(l) + 1 + Size(r)
  }

  /** The nodes can be coloured, with a red or a black root, so that no red node has a
      red child and every path down to a leaf meets `bh` black nodes. */
  predicate Coloured(sh: Shape, bh: nat, red: bool) {
    match sh
    case Leaf => bh == 0 && !red
    case Node(l, r) =>
      if red then Coloured(l, bh, false) && Coloured(r, bh, false)
      else
        && bh > 0
        && (Coloured(l, bh - 1, false) || Coloured(l, bh - 1, true))
        && (Coloured(r, bh - 1, false) || Coloured(r, bh - 1, true))
  }

  /** A valid red-black tree: coloured, with a black root. */
  ghost predicate Balanced(sh: Shape) {
    exists bh: nat :: Coloured(sh, bh, false)
  }

  /** Node i is an ancestor of node i + 1. */
  predicate Above(sh: Shape, i: nat) {
    match sh
    case Leaf => false
    case Node(l, r) =>
      if i < Size(l) then Above(l, i) else if i == Size(l) then r.Node? else Above(r, i - Size(l) - 1)
  }

  /** The last node is an ancestor of no later one. */
  lemma {:induction false} LastIsNotAbove(sh: Shape)
    requires sh.Node?
    ensures !Above(sh, Size(sh) - 1)
  {
    if sh.right.Node? { LastIsNotAbove(sh.right); }
  }

  // ---- Which shapes there are ----

  const ONE: Shape := Node(Leaf, Leaf)

  function Pow2(h: nat): (p: nat)
    ensures p > 0
  {
    if h == 0 then 1 else 2 * Pow2(h - 1)
  }

  /** The root's colour can be red only for four nodes over one black level. */
  predicate Grown(sh: Shape, h: nat, n: nat, red: bool) {
    Size(sh) == n && Coloured(sh, h, red) && (red ==> h == 1 && n == 4)
  }

  lemma {:induction false} SomeTree(h: nat, n: nat) returns (sh: Shape, red: bool)
    requires h >= 1 && Pow2(h) - 1 <= n <= 2 * Pow2(h)
    ensures Grown(sh, h, n, red)
    decreases h
  {
    if h == 1 {
      red := n == 4;
      sh := if n == 1 then ONE else if n == 2 then Node(Leaf, ONE) else if n == 3 then Node(ONE, ONE)
            else Node(ONE, Node(Leaf, ONE));
      assert Coloured(ONE, 1, false) && Coloured(ONE, 0, true);
    } else {
      var a := (n - 1) / 2;
      var l, rl := SomeTree(h - 1, a);
      var r, rr := SomeTree(h - 1, n - 1 - a);
      sh, red := Node(l, r), false;
    }
  }

  /** The small trees with node i above node i + 1. */
  lemma SmallTreeAbove(n: nat, i: nat) returns (sh: Shape, red: bool)
    requires 2 <= n <= 4 && i + 2 <= n && !(n == 3 && i == 0)
    ensures Grown(sh, 1, n, red) && Above(sh, i)
  {
    red := n == 4;
    sh := if n == 2 then Node(Leaf, ONE) else if n == 3 then Node(ONE, ONE)
          else if i == 1 then Node(ONE, Node(Leaf, ONE)) else Node(Node(Leaf, ONE), ONE);
    assert Coloured(ONE, 1, false) && Coloured(ONE, 0, true);
  }

  /** How many nodes go left, when h levels of black hold n nodes. */
  predicate Splits(h: nat, n: nat, a: nat) {
    h >= 2 && Pow2(h - 1) - 1 <= a <= Pow2(h) && Pow2(h - 1) - 1 <= n - 1 - a <= Pow2(h)
  }

  /** From four nodes on, every node but the last can be above its successor. */
  lemma {:induction false} TreeAbove(h: nat, n: nat, i: nat) returns (sh: Shape, red: bool)
    requires h >= 1 && Pow2(h) <= n <= 2 * Pow2(h) && i + 2 <= n && !(n == 3 && i == 0)
    ensures Grown(sh, h, n, red) && Above(sh, i)
    decreases h
  {
    if h == 1 {
      sh, red := SmallTreeAbove(n, i);
    } else {
      var lo, hi := Pow2(h - 1) - 1, Pow2(h);
      var min := if n - 1 - hi > lo then n - 1 - hi else lo;
      var max := if n - 1 - lo < hi then n - 1 - lo else hi;
      assert Splits(h, n, min) && Splits(h, n, max);
      if i < min {
        var a := if max == 3 then 2 else max;
        var l, rl := TreeAbove(h - 1, a, i);
        var r, rr := SomeTree(h - 1, n - 1 - a);
        sh, red := Node(l, r), false;
      } else if i > max {
        var l, rl := SomeTree(h - 1, min);
        var r, rr := TreeAbove(h - 1, n - 1 - min, i - min - 1);
        sh, red := Node(l, r), false;
      } else {
        var l, rl := SomeTree(h - 1, i);
        var r, rr := SomeTree(h - 1, n - 1 - i);
        sh, red := Node(l, r), false;
      }
    }
  }

  lemma {:induction false} LevelOf(n: nat, h: nat) returns (k: nat)
    requires h >= 1 && Pow2(h) <= n
    ensures k >= 1 && Pow2(k) <= n <= 2 * Pow2(k)
    decreases n - Pow2(h)
  {
    if n <= 2 * Pow2(h) { k := h; } else { k := LevelOf(n, h + 1); }
  }

  /** A tree of any size with node i above node i + 1, but for the first of three nodes. */
  lemma BalancedAbove(n: nat, i: nat) returns (sh: Shape)
    requires i + 2 <= n && !(n == 3 && i == 0)
    ensures Balanced(sh) && Size(sh) == n && Above(sh, i)
  {
    var red;
    if n == 4 {
      assert Pow2(2) == 4;
      sh, red := TreeAbove(2, 4, i);
    } else {
      var h := LevelOf(n, 1);
      sh, red := TreeAbove(h, n, i);
      assert h == 1 ==> n < 4;
    }
    assert !red;
  }

  /** There is a tree of every size. */
  lemma AnySize(n: nat) returns (sh: Shape)
    ensures Balanced(sh) && Size(sh) == n
  {
    if n < 2 {
      sh := if n == 0 then Leaf else ONE;
      assert Coloured(Leaf, 0, false) && Coloured(ONE, 1, false);
    } else {
      sh := BalancedAbove(n, n - 2);
    }
  }

  /** Three nodes make one tree only, in which the second is above both others. */
  lemma ThreeNodes(sh: Shape)
    requires Balanced(sh) && Size(sh) == 3
    ensures sh == Node(ONE, ONE)
  {
    var bh: nat :| Coloured(sh, bh, false);
    var Node(l, r) := sh;
    TwoLevels(l);
    TwoLevels(r);
    InARow(l, bh - 1);
    InARow(r, bh - 1);
  }

  /** Two nodes in a row are no tree of height zero, and an empty tree is one of no other. */
  lemma InARow(sh: Shape, bh: nat)
    requires Coloured(sh, bh, false) || Coloured(sh, bh, true)
    ensures sh == Leaf ==> bh == 0
    ensures sh == Node(ONE, Leaf) || sh == Node(Leaf, ONE) ==> bh > 0
  {
    assert !Coloured(ONE, 0, false);
  }

  lemma TwoLevels(sh: Shape)
    ensures Size(sh) == 0 <==> sh == Leaf
    ensures Size(sh) == 1 <==> sh == ONE
    ensures Size(sh) == 2 ==> (sh == Node(ONE, Leaf) || sh == Node(Leaf, ONE))
  {
    if sh.Node? {
      assert Size(sh.left) == 0 ==> sh.left == Leaf;
      assert Size(sh.right) == 0 ==> sh.right == Leaf;
    }
  }
}
