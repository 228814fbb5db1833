/** What readers see of the file system, and how it moves over a whole run of writes. */
module LogfsHistory {
  import opened Common
  import opened LogfsPaths
  import opened LogfsTree

  /** The data block a reader of file block `lbn` gets; None for a hole. */
  function ReadBlock(fs: Fs, i: nat, lbn: nat): Option<Block>
    requires i < |fs.roots| && lbn < MAX_FILE_BLOCKS
  {
    var b := At(fs, i, PathOf(lbn));
    if b == 0 then None else Some(Contents(fs.log, b))
  }

  /** The block a pointer leads to, through block `b`; nothing is behind a missing block. */
  function Through(l: Log, b: nat, slot: nat): nat
    requires slot < PTRS
  {
    if b == 0 then 0 else if b in l.store then l.store[b][slot] else 0
  }

  /** The `n`-th pointer of a path is found in the block that the one before leads to. */
  lemma NextPointer(fs: Fs, i: nat, p: seq<nat>, n: nat)
    requires i < |fs.roots| && TreePath(p) && n < |p|
    ensures TreePath(p[..n + 1]) && p[..1] == [p[0]] && p[..|p|] == p
    ensures n == 0 ==> At(fs, i, p[..1]) == fs.roots[i][p[0]]
    ensures n > 0 ==> TreePath(p[..n]) && At(fs, i, p[..n + 1]) == Through(fs.log, At(fs, i, p[..n]), p[n])
  {
    assert Parent(p[..n + 1]) == p[..n];
  }

  /** The walk to a file block, spelled out: 12 direct pointers, then through one, two and three blocks of 256. */
  lemma WalkIs(fs: Fs, i: nat, lbn: nat)
    requires i < |fs.roots| && lbn < MAX_FILE_BLOCKS
    ensures var r, n := fs.roots[i], At(fs, i, PathOf(lbn));
            if lbn < 12 then n == r[lbn]
            else if lbn < 268 then n == Through(fs.log, r[12], lbn - 12)
            else if lbn < 65804 then
              n == Through(fs.log, Through(fs.log, r[13], (lbn - 268) / 256), (lbn - 268) % 256)
            else
              n == Through(fs.log, Through(fs.log, Through(fs.log, r[14], (lbn - 65804) / 65536),
                                           (lbn - 65804) / 256 % 256), (lbn - 65804) % 256)
  {
    var p := PathOf(lbn);
    NextPointer(fs, i, p, 0);
    if |p| > 1 {
      NextPointer(fs, i, p, 1);
    }
    if |p| > 2 {
      NextPointer(fs, i, p, 2);
    }
    if |p| > 3 {
      NextPointer(fs, i, p, 3);
    }
    hide At, Through;
  }

  /** Log activity that hands out blocks without linking them moves no pointer of any tree. */
  lemma {:induction false} GrowthMovesNoPointer(a: Fs, b: Fs, i: nat, p: seq<nat>)
    requires Separated(a) && b.roots == a.roots && Grows(a.log, b.log, {})
    requires i < |a.roots| && TreePath(p)
    ensures At(b, i, p) == At(a, i, p)
    decreases |p|
  {
    if |p| > 1 {
      GrowthMovesNoPointer(a, b, i, Parent(p));
    }
  }

  lemma GrowthKeepsSeparated(a: Fs, b: Fs)
    requires Separated(a) && b.roots == a.roots && Grows(a.log, b.log, {})
    ensures Separated(b)
  {
    forall i: nat, p: seq<nat> | i < |a.roots| && TreePath(p)
      ensures At(b, i, p) == At(a, i, p)
    {
      GrowthMovesNoPointer(a, b, i, p);
    }
  }

  /** Everyone reads on as before, except that `lbn` of inode `i` now reads as `data`. */
  ghost predicate Wrote(a: Fs, b: Fs, i: nat, lbn: nat, data: Block) {
    && i < |a.roots| == |b.roots|
    && lbn < MAX_FILE_BLOCKS
    && forall j: nat, k: nat | j < |a.roots| && k < MAX_FILE_BLOCKS ::
         ReadBlock(b, j, k) == if j == i && k == lbn then Some(data) else ReadBlock(a, j, k)
  }

  ghost predicate Undisturbed(a: Fs, b: Fs) {
    && |a.roots| == |b.roots|
    && forall j: nat, k: nat | j < |a.roots| && k < MAX_FILE_BLOCKS :: ReadBlock(b, j, k) == ReadBlock(a, j, k)
  }

  lemma GrowthDisturbsNoReader(a: Fs, b: Fs)
    requires Separated(a) && b.roots == a.roots && Grows(a.log, b.log, {})
    ensures Undisturbed(a, b)
  {
    forall j: nat, k: nat | j < |a.roots| && k < MAX_FILE_BLOCKS
      ensures ReadBlock(b, j, k) == ReadBlock(a, j, k)
    {
      GrowthMovesNoPointer(a, b, j, PathOf(k));
    }
  }

  lemma LeafPrefixIsWhole(q: seq<nat>, path: seq<nat>)
    requires LeafPath(q) && LeafPath(path) && q <= path
    ensures q == path
  {
    assert q[0] == path[0];
  }

  /** After a splice, file block `lbn` of inode `i` resolves to the new block and every other
      file block of every inode resolves as before. */
  lemma SpliceMovesOneFileBlock(a: Fs, b: Fs, i: nat, lbn: nat, g: seq<nat>, j: nat, k: nat)
    requires Separated(a) && lbn < MAX_FILE_BLOCKS && Spliced(a, b, i, PathOf(lbn), g)
    requires j < |a.roots| && k < MAX_FILE_BLOCKS
    ensures At(b, j, PathOf(k)) == if j == i && k == lbn then g[|g| - 1] else At(a, j, PathOf(k))
  {
    SpliceMovesOnePath(a, b, i, PathOf(lbn), g, j, PathOf(k));
    if PathOf(k) <= PathOf(lbn) {
      LeafPrefixIsWhole(PathOf(k), PathOf(lbn));
      assert LbnOf(PathOf(k)) == k;
    }
  }

  /** No write of a splice lands on a data block. */
  lemma DataOffPath(a: Fs, i: nat, path: seq<nat>, x: nat)
    requires Separated(a) && i < |a.roots| && LeafPath(path) && x != 0
    requires DataBlock(a, x) || exists j: nat, q: seq<nat> :: j < |a.roots| && LeafPath(q) && At(a, j, q) == x
    ensures Settled(a.log, x) && x !in OnPath(a, i, path, 0)
  {
    forall n: nat | n < |path| - 1 ensures Prior(a, i, path, n) != x {
      PrefixPath(path, n + 1);
    }
  }

  /** A splice of block `v` is a write of what `v` holds. */
  lemma SpliceIsWrite(a: Fs, b: Fs, i: nat, lbn: nat, g: seq<nat>, v: nat)
    requires Separated(a) && lbn < MAX_FILE_BLOCKS && Spliced(a, b, i, PathOf(lbn), g)
    requires v != 0 && DataBlock(a, v) && g[|g| - 1] == v
    ensures Wrote(a, b, i, lbn, Contents(a.log, v))
  {
    forall j: nat, k: nat | j < |a.roots| && k < MAX_FILE_BLOCKS
      ensures ReadBlock(b, j, k) == if j == i && k == lbn then Some(Contents(a.log, v)) else ReadBlock(a, j, k)
    {
      SpliceMovesOneFileBlock(a, b, i, lbn, g, j, k);
      var x := At(b, j, PathOf(k));
      if x != 0 {
        assert x == v || x == At(a, j, PathOf(k));
        DataOffPath(a, i, PathOf(lbn), x);
      }
    }
  }

  /** A block just handed out is in no tree. */
  lemma FreshIsDataBlock(a: Fs, b: Fs, blk: nat)
    requires Separated(a) && b.roots == a.roots && Handed(a.log, b.log, blk)
    ensures DataBlock(b, blk)
  {
    forall j: nat, q: seq<nat> | j < |b.roots| && NodePath(q) ensures At(b, j, q) == blk ==> blk == 0 {
      GrowthMovesNoPointer(a, b, j, q);
    }
  }

  lemma UndisturbedThenWrote(a: Fs, b: Fs, c: Fs, i: nat, lbn: nat, data: Block)
    requires Undisturbed(a, b) && Wrote(b, c, i, lbn, data)
    ensures Wrote(a, c, i, lbn, data)
  {
  }

  /** A step of a run: a file write, or log activity on behalf of something else. */
  datatype Step = Write(i: nat, lbn: nat, data: Block) | Activity

  ghost predicate Takes(a: Fs, b: Fs, s: Step) {
    match s
    case Write(i, lbn, data) => Wrote(a, b, i, lbn, data)
    case Activity => Undisturbed(a, b)
  }

  /** What the last write to `lbn` of inode `i` stored, or what was there before the run. */
  function LastWritten(steps: seq<Step>, i: nat, lbn: nat, initial: Option<Block>): Option<Block> {
    if steps == [] then initial
    else
      var s := steps[|steps| - 1];
      if s.Write? && s.i == i && s.lbn == lbn then Some(s.data)
      else LastWritten(steps[..|steps| - 1], i, lbn, initial)
  }

  /** Over any run, each file block reads as what was last written to it. */
  lemma {:induction false} RunReadsBackLastWrites(states: seq<Fs>, steps: seq<Step>, i: nat, lbn: nat)
    requires |states| == |steps| + 1
    requires forall k :: 0 <= k < |steps| ==> Takes(states[k], states[k + 1], steps[k])
    requires i < |states[0].roots| && lbn < MAX_FILE_BLOCKS
    ensures i < |states[|steps|].roots|
    ensures ReadBlock(states[|steps|], i, lbn) == LastWritten(steps, i, lbn, ReadBlock(states[0], i, lbn))
  {
    if |steps| > 0 {
      var n := |steps| - 1;
      RunReadsBackLastWrites(states[..n + 1], steps[..n], i, lbn);
      assert Takes(states[n], states[n + 1], steps[n]);
    }
  }

  /** Inodes without any pointer are where every run may start: all their blocks are holes. */
  lemma EmptyInodesSeparated(fs: Fs)
    requires forall i :: 0 <= i < |fs.roots| ==> fs.roots[i] == Zeros(N_BLOCKS)
    ensures Separated(fs)
    ensures forall i: nat, lbn: nat :: i < |fs.roots| && lbn < MAX_FILE_BLOCKS ==> ReadBlock(fs, i, lbn) == None
  {
    forall i: nat, p: seq<nat> | i < |fs.roots| && TreePath(p)
      ensures At(fs, i, p) == 0
    {
      MissingBelow(fs, i, p, 1);
    }
  }

  /** Over any run of allocations the block numbers handed out strictly increase, and none of them is a summary block,
      whatever the log does in between: blocks are written, the one just handed out among them, edited in place, or
      appended. Allocation `n` takes the log from `before[n]` to `after[n]`, and `touched[n]` is written before it. */
  lemma {:induction false} HandedOutBlocksIncrease(before: seq<Log>, after: seq<Log>, touched: seq<set<nat>>,
                                                   blks: seq<nat>, k: nat, m: nat)
    requires |before| == |after| == |touched| == |blks|
    requires forall n :: 0 <= n < |blks| ==> Handed(before[n], after[n], blks[n])
    requires forall n :: 0 < n < |blks| ==> Grows(after[n - 1], before[n], touched[n])
    requires k <= m < |blks|
    ensures k < m ==> blks[k] < blks[m]
    ensures !(blks[k] >= 4 && (blks[k] - 4) % 512 == 0) && !(blks[m] >= 4 && (blks[m] - 4) % 512 == 0)
    decreases m - k
  {
    assert Handed(before[k], after[k], blks[k]);
    assert Handed(before[m], after[m], blks[m]);
    if k < m {
      assert Handed(before[m - 1], after[m - 1], blks[m - 1]) && Grows(after[m - 1], before[m], touched[m]);
      HandedOutBlocksIncrease(before, after, touched, blks, k, m - 1);
    }
  }

  /** What a log has handed out: numbers that increase, behind its head, none of them a summary block. */
  ghost predicate InOrder(handed: seq<nat>, head: nat) {
    && (forall k, m :: 0 <= k < m < |handed| ==> handed[k] < handed[m])
    && (forall k :: 0 <= k < |handed| ==> handed[k] < head && !SummaryBlock(handed[k]))
  }

  lemma OneMoreHanded(handed: seq<nat>, blk: nat, head: nat)
    requires InOrder(handed, blk) && blk < head && !SummaryBlock(blk)
    ensures InOrder(handed + [blk], head)
  {
  }
}
