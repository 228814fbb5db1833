/** Where a file block hangs in an inode's pointer tree: direct slots, then one, two and three
    levels of indirect blocks. */
module LogfsPaths {
  const NDIR_BLOCKS: nat := 12
  const IND_BLOCK: nat := NDIR_BLOCKS
  const DIND_BLOCK: nat := IND_BLOCK + 1
  const TIND_BLOCK: nat := DIND_BLOCK + 1
  const N_BLOCKS: nat := TIND_BLOCK + 1
  /** 1024-byte blocks of 32-bit pointers. */
  const PTRS: nat := 256
  const PTRS_SQUARED: nat := 0x1_0000
  const MAX_FILE_BLOCKS: nat := NDIR_BLOCKS + PTRS + PTRS_SQUARED + PTRS * PTRS_SQUARED

  /** Number of pointers followed from an inode slot down to the data block. */
  function Depth(slot: nat): (d: nat)
    ensures 1 <= d <= 4
  {
    if slot < NDIR_BLOCKS then 1 else if slot == IND_BLOCK then 2 else if slot == DIND_BLOCK then 3 else 4
  }

  /** A path from an inode to any block of its tree. */
  predicate TreePath(p: seq<nat>) {
    && 1 <= |p|
    && p[0] < N_BLOCKS
    && |p| <= Depth(p[0])
    && forall k :: 1 <= k < |p| ==> p[k] < PTRS
  }

  /** A path that ends at an indirect block. */
  predicate NodePath(p: seq<nat>) {
    TreePath(p) && |p| < Depth(p[0])
  }

  /** A path that ends at a data block. */
  predicate LeafPath(p: seq<nat>) {
    TreePath(p) && |p| == Depth(p[0])
  }

  /** The node that holds a path's last pointer; the empty path is the inode itself. */
  function Parent(p: seq<nat>): seq<nat>
    requires |p| > 0
  {
    p[..|p| - 1]
  }

  /** The file block a data path stands for. */
  function LbnOf(p: seq<nat>): nat
    requires LeafPath(p)
  {
    if |p| == 1 then p[0]
    else if |p| == 2 then NDIR_BLOCKS + p[1]
    else if |p| == 3 then NDIR_BLOCKS + PTRS + PTRS * p[1] + p[2]
    else NDIR_BLOCKS + PTRS + PTRS_SQUARED + PTRS_SQUARED * p[1] + PTRS * p[2] + p[3]
  }

  /** The data path of a file block. */
  function PathOf(lbn: nat): (p: seq<nat>)
    requires lbn < MAX_FILE_BLOCKS
    ensures LeafPath(p) && LbnOf(p) == lbn
  {
    if lbn < NDIR_BLOCKS then [lbn]
    else if lbn < NDIR_BLOCKS + PTRS then [IND_BLOCK, lbn - NDIR_BLOCKS]
    else if lbn < NDIR_BLOCKS + PTRS + PTRS_SQUARED then
      var r := lbn - NDIR_BLOCKS - PTRS;
      [DIND_BLOCK, r / PTRS, r % PTRS]
    else
      var r := lbn - NDIR_BLOCKS - PTRS - PTRS_SQUARED;
      [TIND_BLOCK, r / PTRS_SQUARED, r / PTRS % PTRS, r % PTRS]
  }

  lemma QuotientIs(q: nat, rest: nat)
    requires rest < PTRS
    ensures (PTRS * q + rest) / PTRS == q && (PTRS * q + rest) % PTRS == rest
  {
  }

  lemma SquareIs(q: nat, rest: nat)
    requires rest < PTRS_SQUARED
    ensures (PTRS_SQUARED * q + rest) / PTRS_SQUARED == q
  {
  }

  /** Paths and file blocks correspond one to one. */
  lemma PathsAndBlocksBiject(p: seq<nat>)
    requires LeafPath(p)
    ensures LbnOf(p) < MAX_FILE_BLOCKS
    ensures PathOf(LbnOf(p)) == p
  {
    var lbn := LbnOf(p);
    if |p| == 3 {
      QuotientIs(p[1], p[2]);
    } else if |p| == 4 {
      SquareIs(p[1], PTRS * p[2] + p[3]);
      QuotientIs(p[1], p[2]);
      QuotientIs(PTRS * p[1] + p[2], p[3]);
      assert lbn - NDIR_BLOCKS - PTRS - PTRS_SQUARED == PTRS * (PTRS * p[1] + p[2]) + p[3];
    }
  }

  lemma DistinctBlocksDistinctPaths(a: nat, b: nat)
    requires a < MAX_FILE_BLOCKS && b < MAX_FILE_BLOCKS && a != b
    ensures PathOf(a) != PathOf(b)
  {
    assert LbnOf(PathOf(a)) != LbnOf(PathOf(b));
  }

  /** The pointers of each path: 12 direct ones, then one, two and three levels of 256. */
  lemma PathIs(lbn: nat)
    requires lbn < 16843020
    ensures var p := PathOf(lbn);
            if |p| == 1 then p[0] == lbn < 12
            else if |p| == 2 then p[0] == 12 && lbn == 12 + p[1] && p[1] < 256
            else if |p| == 3 then p[0] == 13 && lbn == 268 + 256 * p[1] + p[2] && p[1] < 256 && p[2] < 256
            else
              && |p| == 4 && p[0] == 14 && lbn == 65804 + 65536 * p[1] + 256 * p[2] + p[3]
              && p[1] < 256 && p[2] < 256 && p[3] < 256
  {
  }

  /** Paths come in the order of their file blocks: at the first pointer in which two differ, the earlier block's is
      the smaller. */
  lemma PathsInOrder(a: nat, b: nat) returns (k: nat)
    requires a < b < MAX_FILE_BLOCKS
    ensures k < |PathOf(a)| && k < |PathOf(b)|
    ensures PathOf(a)[..k] == PathOf(b)[..k] && PathOf(a)[k] < PathOf(b)[k]
  {
    var p, q := PathOf(a), PathOf(b);
    k := if p[0] != q[0] then 0 else if p[1] != q[1] then 1 else if p[2] != q[2] then 2 else 3;
    if k == 1 && |p| == 4 {
      assert a - 65804 == 65536 * p[1] + (256 * p[2] + p[3]) && b - 65804 == 65536 * q[1] + (256 * q[2] + q[3]);
    }
  }

  /** The last pointer of its parent: the twelfth direct slot, or slot 255 of an indirect block. */
  predicate LastInParent(p: seq<nat>)
    requires LeafPath(p)
  {
    if |p| == 1 then p[0] == NDIR_BLOCKS - 1 else p[|p| - 1] == PTRS - 1
  }

  /** The file block after the last one of a parent lives under another node, and only that one. */
  lemma LastInParentMeansNextMoves(lbn: nat)
    requires lbn + 1 < MAX_FILE_BLOCKS
    ensures LastInParent(PathOf(lbn)) <==> Parent(PathOf(lbn)) != Parent(PathOf(lbn + 1))
  {
    var p, q := PathOf(lbn), PathOf(lbn + 1);
    if |p| == |q| {
      if |p| == 3 {
        var r := lbn - NDIR_BLOCKS - PTRS;
        assert (r + 1) / PTRS == if r % PTRS == PTRS - 1 then r / PTRS + 1 else r / PTRS;
        assert p[..2] == [DIND_BLOCK, r / PTRS] && q[..2] == [DIND_BLOCK, (r + 1) / PTRS];
      } else if |p| == 4 {
        var r := lbn - NDIR_BLOCKS - PTRS - PTRS_SQUARED;
        assert (r + 1) / PTRS == if r % PTRS == PTRS - 1 then r / PTRS + 1 else r / PTRS;
        assert r / PTRS_SQUARED == r / PTRS / PTRS && (r + 1) / PTRS_SQUARED == (r + 1) / PTRS / PTRS;
        assert Parent(p)[1] == p[1] && Parent(p)[2] == p[2] && Parent(q)[1] == q[1] && Parent(q)[2] == q[2];
      }
    } else {
      assert |Parent(p)| != |Parent(q)|;
    }
  }

  /** Fills `offsets` with the path of `iblock` and returns its length, 0 when out of range. */
  method BlockToPath(iblock: int, offsets: array<nat>) returns (n: nat, boundary: bool)
    requires offsets.Length == 4
    modifies offsets
    ensures n > 0 <==> 0 <= iblock < MAX_FILE_BLOCKS
    ensures n > 0 ==> n <= 4 && LeafPath(offsets[..n]) && LbnOf(offsets[..n]) == iblock
    ensures n > 0 ==> offsets[..n] == PathOf(iblock)
    ensures n > 0 && iblock + 1 < MAX_FILE_BLOCKS ==>
              (boundary <==> Parent(PathOf(iblock)) != Parent(PathOf(iblock + 1)))
    ensures n == 0 ==> !boundary && offsets[..] == old(offsets[..])
  {
    hide LbnOf, Parent, LeafPath;
    var rest := iblock;
    var final: int := 0;
    n := 0;
    if rest < 0 {
    } else if rest < NDIR_BLOCKS {
      offsets[n] := rest; n := n + 1;
      final := NDIR_BLOCKS;
      assert offsets[..n] == [rest] == PathOf(iblock);
    } else {
      rest := rest - NDIR_BLOCKS;
      if rest < PTRS {
        offsets[n] := IND_BLOCK; n := n + 1;
        offsets[n] := rest; n := n + 1;
        final := PTRS;
        assert offsets[..n] == [IND_BLOCK, rest] == PathOf(iblock);
      } else {
        rest := rest - PTRS;
        if rest < PTRS_SQUARED {
          offsets[n] := DIND_BLOCK; n := n + 1;
          offsets[n] := rest / PTRS; n := n + 1;
          offsets[n] := rest % PTRS; n := n + 1;
          final := PTRS;
          assert offsets[..n] == [DIND_BLOCK, rest / PTRS, rest % PTRS] == PathOf(iblock);
        } else {
          rest := rest - PTRS_SQUARED;
          if rest / PTRS_SQUARED < PTRS {
            offsets[n] := TIND_BLOCK; n := n + 1;
            offsets[n] := rest / PTRS_SQUARED; n := n + 1;
            offsets[n] := rest / PTRS % PTRS; n := n + 1;
            offsets[n] := rest % PTRS; n := n + 1;
            final := PTRS;
            assert offsets[..n] == PathOf(iblock);
          }
        }
      }
    }
    boundary := rest % PTRS == final - 1;
    if n > 0 {
      assert boundary == LastInParent(PathOf(iblock));
      hide PathOf, LastInParent;
      if iblock + 1 < MAX_FILE_BLOCKS {
        LastInParentMeansNextMoves(iblock);
      }
    }
  }
}
