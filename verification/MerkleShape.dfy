/** The shape of the Merkle tree over n leaves: node positions, levels and the leaves below a node. */
module MerkleShape {
  import opened Numbers

  /** The number of nodes at a height over `n` leaves: each level has half the nodes of the one below, rounded up. */
  function Width(n: nat, h: nat): nat {
    if h == 0 then n else (Width(n, h - 1) + 1) / 2
  }

  ghost function CeilDiv(n: nat, p: nat): nat
    requires p >= 1
  {
    (n + p - 1) / p
  }

  lemma CeilDivHalves(n: nat, p: nat)
    requires p >= 1
    ensures CeilDiv(n, 2 * p) == (CeilDiv(n, p) + 1) / 2
  {
    var a := n + p - 1;
    var q, r := a / p, a % p;
    assert a == q * p + r;
    var c, b := (q + 1) / 2, (q + 1) % 2;
    assert q + 1 == 2 * c + b;
    assert n + 2 * p - 1 == (q + 1) * p + r by { assert (q + 1) * p == q * p + p; }
    assert (2 * c + b) * p == c * (2 * p) + b * p;
    assert b * p + r < 2 * p;
    DivModUnique(n + 2 * p - 1, 2 * p, c, b * p + r);
  }

  lemma {:induction false} WidthIsCeilDiv(n: nat, h: nat)
    ensures Width(n, h) == CeilDiv(n, Pow2(h))
  {
    if h > 0 {
      WidthIsCeilDiv(n, h - 1);
      CeilDivHalves(n, Pow2(h - 1));
    }
  }

  /** The expression (n + 2^h - 1) >> h counts the nodes of a level. */
  lemma CalcTreeWidthFormula(n: nat, h: nat)
    ensures Width(n, h) == (n + Pow2(h) - 1) / Pow2(h)
  {
    WidthIsCeilDiv(n, h);
  }

  /** A node of the tree over `n` leaves. */
  ghost predicate IsNode(n: nat, h: nat, pos: nat) { pos < Width(n, h) }

  /** The left child of a node exists; without a right child, the node's leaves are all its left child's. */
  lemma Children(n: nat, h: nat, pos: nat)
    requires h > 0 && IsNode(n, h, pos)
    ensures IsNode(n, h - 1, 2 * pos)
    ensures IsNode(n, h - 1, 2 * pos + 1) || Width(n, h - 1) == 2 * pos + 1
  {
  }

  /** The first leaf below a node, and the leaf after the last one below it. */
  ghost function First(h: nat, pos: nat): nat { pos * Pow2(h) }
  ghost function End(n: nat, h: nat, pos: nat): nat { if (pos + 1) * Pow2(h) < n then (pos + 1) * Pow2(h) else n }

  /** In terms of leaves, a level has a node at `pos` exactly when it has a leaf there. */
  lemma NodeHasLeaf(n: nat, h: nat, pos: nat)
    ensures IsNode(n, h, pos) <==> First(h, pos) < n
  {
    CalcTreeWidthFormula(n, h);
    var p := Pow2(h);
    var a := n + p - 1;
    var q, r := a / p, a % p;
    assert a == q * p + r;
    if pos < q {
      MulStep(pos, q, p);
    } else if q < pos {
      MulStep(q, pos, p);
    }
  }

  lemma LeavesOfNode(n: nat, h: nat, pos: nat)
    requires IsNode(n, h, pos)
    ensures First(h, pos) < End(n, h, pos) <= n
  {
    NodeHasLeaf(n, h, pos);
    assert (pos + 1) * Pow2(h) == pos * Pow2(h) + Pow2(h);
  }

  lemma LeavesOfChildren(n: nat, h: nat, pos: nat)
    requires h > 0 && IsNode(n, h, pos)
    ensures First(h - 1, 2 * pos) == First(h, pos)
    ensures if IsNode(n, h - 1, 2 * pos + 1)
            then End(n, h - 1, 2 * pos) == First(h - 1, 2 * pos + 1) && End(n, h - 1, 2 * pos + 1) == End(n, h, pos)
            else End(n, h - 1, 2 * pos) == End(n, h, pos) == n
  {
    var p := Pow2(h - 1);
    assert (2 * pos) * p == pos * (2 * p);
    assert (2 * pos + 2) * p == (pos + 1) * (2 * p);
    assert (2 * pos + 1) * p + p == (2 * pos + 2) * p;
    NodeHasLeaf(n, h - 1, 2 * pos + 1);
  }
}
