/** The Merkle root of a block as consensus computes it: rounds over a list of hashes, without a tree. */
module MerkleRoots {
  import opened Basics
  import opened MerkleTree

  /** The row with its last hash repeated if their number is odd. */
  function Padded(row: seq<Hash>): (r: seq<Hash>)
    ensures |r| % 2 == 0
  {
    if |row| % 2 == 1 then row + [row[|row| - 1]] else row
  }

  /** Neighbours paired. */
  function Paired(hs: Hasher, row: seq<Hash>): (r: seq<Hash>)
    requires |row| % 2 == 0
    ensures |r| == |row| / 2
  {
    seq(|row| / 2, i requires 0 <= i < |row| / 2 => hs.Pair(row[2 * i], row[2 * i + 1]))
  }

  function NextRow(hs: Hasher, row: seq<Hash>): (r: seq<Hash>)
    ensures |r| == (|row| + 1) / 2
  {
    Paired(hs, Padded(row))
  }

  /** Round after round until one is left. */
  function MerkleRoot(hs: Hasher, row: seq<Hash>): Hash
    decreases |row|
  {
    if row == [] then hs.zero
    else if |row| == 1 then row[0]
    else MerkleRoot(hs, NextRow(hs, row))
  }

  /** Two neighbours that are paired are equal. */
  ghost predicate Repeats(row: seq<Hash>) {
    exists i :: RepeatsAt(row, i)
  }

  ghost predicate RepeatsAt(row: seq<Hash>, i: int) {
    0 <= 2 * i < |row| - 1 && row[2 * i] == row[2 * i + 1]
  }

  /** This happens in some round. */
  ghost predicate Mutated(hs: Hasher, row: seq<Hash>)
    decreases |row|
  {
    |row| > 1 && (Repeats(row) || Mutated(hs, NextRow(hs, row)))
  }

  method FindRepeat(row: seq<Hash>) returns (found: bool)
    ensures found <==> Repeats(row)
  {
    found := false;
    var pos := 0;
    while pos + 1 < |row|
      invariant pos % 2 == 0
      invariant found <==> exists i :: 2 * i < pos && RepeatsAt(row, i)
      decreases |row| - pos
    {
      assert RepeatsAt(row, pos / 2) <==> row[pos] == row[pos + 1];
      if row[pos] == row[pos + 1] {
        found := true;
      }
      pos := pos + 2;
    }
  }

  method ComputeMerkleRoot(hs: Hasher, hashes: seq<Hash>) returns (root: Hash, mutated: bool)
    ensures root == MerkleRoot(hs, hashes)
    ensures mutated <==> Mutated(hs, hashes)
  {
    var row := hashes;
    mutated := false;
    while |row| > 1
      invariant MerkleRoot(hs, row) == MerkleRoot(hs, hashes)
      invariant Mutated(hs, hashes) <==> mutated || Mutated(hs, row)
      decreases |row|
    {
      var repeated := FindRepeat(row);
      mutated := mutated || repeated;
      row := NextRow(hs, row);
    }
    root := if |row| == 0 then hs.zero else row[0];
  }

  /** Repeating the last of an odd number of hashes does not change the root, but is reported. */
  lemma RepeatedTailIsReported(hs: Hasher, row: seq<Hash>)
    requires |row| > 1 && |row| % 2 == 1
    ensures var longer := row + [row[|row| - 1]];
            MerkleRoot(hs, longer) == MerkleRoot(hs, row) && Mutated(hs, longer)
  {
    var longer := row + [row[|row| - 1]];
    assert Padded(row) == Padded(longer) == longer;
    assert RepeatsAt(longer, |row| / 2);
  }

  lemma DistinctRows(hs: Hasher, row: seq<Hash>)
    requires hs.Injective() && Distinct(row)
    ensures Distinct(NextRow(hs, row))
  {
    var next := NextRow(hs, row);
    forall j, k | 0 <= j < k < |next|
      ensures next[j] != next[k]
    {
      assert Padded(row)[2 * j] == row[2 * j] && Padded(row)[2 * k] == row[2 * k];
    }
  }

  /** Nothing is reported for different transactions. */
  lemma {:induction false} DistinctIsNotMutated(hs: Hasher, row: seq<Hash>)
    requires hs.Injective() && Distinct(row)
    ensures !Mutated(hs, row)
    decreases |row|
  {
    if |row| > 1 {
      DistinctRows(hs, row);
      DistinctIsNotMutated(hs, NextRow(hs, row));
    }
  }

  ghost predicate IsNext(hs: Hasher, row: seq<Hash>, next: seq<Hash>) {
    |next| == (|row| + 1) / 2 && forall i :: 0 <= i < |next| ==> PairsAt(hs, row, next, i)
  }

  ghost predicate PairsAt(hs: Hasher, row: seq<Hash>, next: seq<Hash>, i: nat)
    requires i < |next| && |next| == (|row| + 1) / 2
  {
    next[i] == hs.Pair(row[2 * i], if 2 * i + 1 < |row| then row[2 * i + 1] else row[2 * i])
  }

  /** A last hash without a neighbour is paired with itself. */
  lemma NextRowIsNext(hs: Hasher, row: seq<Hash>)
    ensures IsNext(hs, row, NextRow(hs, row))
  {
  }

  lemma RootOfNext(hs: Hasher, row: seq<Hash>)
    requires |row| > 1
    ensures MerkleRoot(hs, NextRow(hs, row)) == MerkleRoot(hs, row)
  {
  }
}
