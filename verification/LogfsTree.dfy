/** Values of the log and of the inode trees that live in it, what separates the trees, and the
    theorem that one spliced branch moves exactly one pointer. */
module LogfsTree {
  import opened Common
  import opened LogfsPaths

  type Block = b: seq<nat> | |b| == PTRS witness Zeros(PTRS)

  const ZERO_BLOCK: Block := Zeros(PTRS)
  /** Blocks of a segment, and the block where the first segment starts. */
  const SEGMENT_BLOCKS: nat := 512
  const FIRST_SEGMENT: nat := 4

  /** Block contents, the current segment, and the blocks the usage table owns. */
  datatype Log = Log(store: map<nat, Block>, start: nat, offset: nat, usage: set<nat>)

  /** Block numbers run from segment to segment; the head is the next one to be handed out. */
  function Head(l: Log): nat {
    l.start + l.offset
  }

  /** The first block of every segment holds its summary. */
  predicate SummaryBlock(b: nat) {
    b >= FIRST_SEGMENT && (b - FIRST_SEGMENT) % SEGMENT_BLOCKS == 0
  }

  /** A segment boundary is in place and the offset stays inside the segment, past the summary. */
  predicate LogOk(l: Log) {
    && SummaryBlock(l.start)
    && 1 <= l.offset < SEGMENT_BLOCKS
    && forall u :: u in l.usage ==> u < Head(l)
  }

  /** The head is never a summary block, and a segment is followed by another. */
  lemma InsideSegment(l: Log)
    requires LogOk(l)
    ensures !SummaryBlock(Head(l)) && SummaryBlock(l.start + SEGMENT_BLOCKS)
  {
    var q := (l.start - FIRST_SEGMENT) / SEGMENT_BLOCKS;
    assert l.start - FIRST_SEGMENT == SEGMENT_BLOCKS * q;
    assert (SEGMENT_BLOCKS * q + l.offset) % SEGMENT_BLOCKS == l.offset;
    assert (SEGMENT_BLOCKS * (q + 1)) % SEGMENT_BLOCKS == 0;
  }

  function Contents(l: Log, b: nat): Block {
    if b in l.store then l.store[b] else ZERO_BLOCK
  }

  /** Handed out to a file: behind the head, not a summary, not the usage table's. */
  predicate Settled(l: Log, b: nat) {
    b < Head(l) && !SummaryBlock(b) && b !in l.usage
  }

  /** From `a` to `b` the log only moved on: settled blocks other than `touched` keep their
      contents, and the usage table took only blocks the log had not handed out. */
  ghost predicate Grows(a: Log, b: Log, touched: set<nat>) {
    && Head(a) <= Head(b)
    && (forall u :: u in b.usage ==> u in a.usage || Head(a) <= u)
    && (forall x :: Settled(a, x) && x !in touched ==> Contents(b, x) == Contents(a, x))
  }

  lemma GrowsKeepsSettled(a: Log, b: Log, touched: set<nat>, x: nat)
    requires Grows(a, b, touched) && Settled(a, x)
    ensures Settled(b, x)
  {
  }

  lemma GrowsTransitive(a: Log, b: Log, c: Log, s: set<nat>, t: set<nat>)
    requires Grows(a, b, s) && Grows(b, c, t)
    ensures Grows(a, c, s + t)
  {
    forall x | Settled(a, x) && x !in s + t ensures Contents(c, x) == Contents(a, x) {
      GrowsKeepsSettled(a, b, s, x);
    }
  }

  /** One block handed out: the old head, now behind the new one and kept from then on. */
  ghost predicate Handed(a: Log, b: Log, blk: nat) {
    && LogOk(a) && LogOk(b)
    && blk == Head(a)
    && Settled(b, blk)
    && Grows(a, b, {})
  }

  type Root = r: seq<nat> | |r| == N_BLOCKS witness Zeros(N_BLOCKS)

  /** The log and the pointer arrays of the inodes over it. */
  datatype Fs = Fs(log: Log, roots: seq<Root>)

  /** The block number found by following `p` from inode `i`; 0 where a pointer is missing. */
  function At(fs: Fs, i: nat, p: seq<nat>): nat
    requires i < |fs.roots| && TreePath(p)
    decreases |p|
  {
    if |p| == 1 then fs.roots[i][p[0]]
    else
      var b := At(fs, i, Parent(p));
      if b == 0 then 0 else Contents(fs.log, b)[p[|p| - 1]]
  }

  /** Every indirect block has exactly one parent slot in all the trees, no data pointer names
      one, and everything a tree reaches was handed out by the log. */
  ghost predicate Separated(fs: Fs) {
    && (forall i: nat, p: seq<nat> ::
          i < |fs.roots| && TreePath(p) && At(fs, i, p) != 0 ==> Settled(fs.log, At(fs, i, p)))
    && (forall i: nat, p: seq<nat>, j: nat, q: seq<nat>
          | i < |fs.roots| && j < |fs.roots| && TreePath(p) && NodePath(q) ::
          At(fs, i, p) != 0 && At(fs, i, p) == At(fs, j, q) ==> i == j && p == q)
  }

  /** Prefixes of a path are paths of the same tree. */
  lemma PrefixPath(p: seq<nat>, n: nat)
    requires TreePath(p) && 1 <= n <= |p|
    ensures TreePath(p[..n]) && (n < |p| ==> NodePath(p[..n]))
  {
  }

  /** Below a missing pointer everything is missing. */
  lemma {:induction false} MissingBelow(fs: Fs, i: nat, p: seq<nat>, n: nat)
    requires i < |fs.roots| && TreePath(p) && 1 <= n <= |p|
    requires TreePath(p[..n]) && At(fs, i, p[..n]) == 0
    ensures At(fs, i, p) == 0
    decreases |p|
  {
    if n == |p| {
      assert p[..n] == p;
    } else {
      assert Parent(p)[..n] == p[..n];
      MissingBelow(fs, i, Parent(p), n);
    }
  }

  /** The `n`-th indirect block that was on `path`, 0 if there was none. */
  function Prior(fs: Fs, i: nat, path: seq<nat>, n: nat): nat
    requires i < |fs.roots| && LeafPath(path) && n + 1 < |path|
  {
    assert TreePath(path[..n + 1]);
    At(fs, i, path[..n + 1])
  }

  /** What pointer `o` of the `n`-th block on `path` should be: the new link on the path itself,
      elsewhere what was there before, or nothing where there was no such block. */
  ghost function Slot(was: Fs, i: nat, path: seq<nat>, g: seq<nat>, n: nat, o: nat): nat
    requires i < |was.roots| && LeafPath(path) && |g| == |path| && n + 1 < |path| && o < PTRS
  {
    if o == path[n + 1] then g[n + 1] else At(was, i, path[..n + 1] + [o])
  }

  /** `g[n]` is the block number that the `n`-th pointer of `path` should hold. */
  ghost predicate Linked(was: Fs, log: Log, i: nat, path: seq<nat>, g: seq<nat>, from: nat)
    requires i < |was.roots| && LeafPath(path) && |g| == |path|
  {
    forall n: nat, o: nat :: from <= n < |path| - 1 && o < PTRS ==>
                     Contents(log, g[n])[o] == Slot(was, i, path, g, n, o)
  }

  /** Each block of the new branch is either the one that was there or fresh from the log, and
      no two are the same. */
  ghost predicate Placed(was: Fs, log: Log, i: nat, path: seq<nat>, g: seq<nat>, from: nat)
    requires i < |was.roots| && LeafPath(path) && |g| == |path|
  {
    && (forall n: nat :: from <= n < |path| - 1 ==>
          && g[n] != 0
          && Settled(log, g[n])
          && (g[n] == Prior(was, i, path, n) || Head(was.log) <= g[n]))
    && (forall n: nat, m: nat :: from <= n < m < |path| - 1 ==> g[n] != g[m])
  }

  /** The indirect blocks that were on the path, from its `from`-th pointer down. */
  ghost function OnPath(fs: Fs, i: nat, path: seq<nat>, from: nat): set<nat>
    requires i < |fs.roots| && LeafPath(path)
  {
    set n: nat | from <= n < |path| - 1 :: Prior(fs, i, path, n)
  }

  /** The branch is in order from its `from`-th block down; nothing above it was touched yet. */
  ghost predicate Partial(was: Fs, log: Log, i: nat, path: seq<nat>, g: seq<nat>, from: nat)
    requires i < |was.roots| && LeafPath(path) && |g| == |path|
  {
    && Grows(was.log, log, OnPath(was, i, path, from))
    && Linked(was, log, i, path, g, from)
    && Placed(was, log, i, path, g, from)
  }

  /** A complete splice of `g` along `path`. */
  ghost predicate Spliced(a: Fs, b: Fs, i: nat, path: seq<nat>, g: seq<nat>) {
    && i < |a.roots| && LeafPath(path) && |g| == |path|
    && b.roots == a.roots[i := a.roots[i][path[0] := g[0]]]
    && Partial(a, b.log, i, path, g, 0)
  }

  /** Where inode `j`'s path `q` should lead after the splice. */
  ghost function After(a: Fs, i: nat, path: seq<nat>, g: seq<nat>, j: nat, q: seq<nat>): nat
    requires i < |a.roots| && LeafPath(path) && |g| == |path| && j < |a.roots| && TreePath(q)
  {
    if j == i && q <= path then g[|q| - 1] else At(a, j, q)
  }

  lemma PrefixGoesOn(path: seq<nat>, q: seq<nat>)
    requires 1 < |q| <= |path| && Parent(q) <= path
    ensures path[..|q| - 1] == Parent(q) && Parent(q) + [q[|q| - 1]] == q
    ensures q <= path <==> q[|q| - 1] == path[|q| - 1]
  {
    var n := |q| - 1;
    if q[n] == path[n] {
      assert path[..n + 1] == path[..n] + [path[n]];
    }
  }

  /** Below a spliced block the link leads on along the path; its other pointers are unchanged. */
  lemma StepOnPath(a: Fs, b: Fs, i: nat, path: seq<nat>, g: seq<nat>, q: seq<nat>)
    requires Spliced(a, b, i, path, g)
    requires TreePath(q) && |q| > 1 && Parent(q) <= path
    requires At(b, i, Parent(q)) == g[|q| - 2]
    ensures At(b, i, q) == After(a, i, path, g, i, q)
  {
    var o, n := q[|q| - 1], |q| - 2;
    assert path[0] == q[0];
    PrefixGoesOn(path, q);
    assert g[n] != 0 && Contents(b.log, g[n])[o] == Slot(a, i, path, g, n, o);
    hide Spliced, Grows, Placed, Settled, Linked, LeafPath;
  }

  /** A node off the path is none of the blocks the splice writes. */
  lemma UntouchedNode(a: Fs, i: nat, path: seq<nat>, j: nat, r: seq<nat>)
    requires Separated(a) && i < |a.roots| && j < |a.roots| && LeafPath(path) && NodePath(r)
    requires !(j == i && r <= path)
    requires At(a, j, r) != 0
    ensures At(a, j, r) !in OnPath(a, i, path, 0)
  {
    forall n: nat | n < |path| - 1 ensures Prior(a, i, path, n) != At(a, j, r) {
      PrefixPath(path, n + 1);
      assert path[..n + 1] <= path;
    }
  }

  /** Off the path a step reads the same pointer before and after. */
  lemma StepOffPath(a: Fs, b: Fs, i: nat, path: seq<nat>, g: seq<nat>, j: nat, q: seq<nat>)
    requires Separated(a) && Spliced(a, b, i, path, g)
    requires j < |a.roots| && TreePath(q) && |q| > 1 && !(j == i && Parent(q) <= path)
    requires At(b, j, Parent(q)) == At(a, j, Parent(q))
    ensures At(b, j, q) == At(a, j, q)
  {
    var r := Parent(q);
    if At(a, j, r) != 0 {
      UntouchedNode(a, i, path, j, r);
      assert Settled(a.log, At(a, j, r));
    }
  }

  /** A splice redirects the pointers on its own path and no other pointer of any tree. */
  lemma {:induction false} SpliceMovesOnePath(a: Fs, b: Fs, i: nat, path: seq<nat>, g: seq<nat>, j: nat, q: seq<nat>)
    requires Separated(a) && Spliced(a, b, i, path, g)
    requires j < |a.roots| && TreePath(q)
    ensures At(b, j, q) == After(a, i, path, g, j, q)
    decreases |q|
  {
    if |q| == 1 {
      assert j == i && q[0] == path[0] ==> q <= path;
    } else {
      SpliceMovesOnePath(a, b, i, path, g, j, Parent(q));
      if j == i && Parent(q) <= path {
        StepOnPath(a, b, i, path, g, q);
      } else {
        StepOffPath(a, b, i, path, g, j, q);
        assert q <= path ==> Parent(q) <= path;
      }
    }
  }

  /** One more block joins the branch: `blk` is the block that was at level `n`, edited in place,
      or a block fresh from the log, and it holds what the level should hold. */
  ghost predicate Joins(was: Fs, log: Log, next: Log, i: nat, path: seq<nat>, g: seq<nat>, n: nat, blk: nat)
    requires i < |was.roots| && LeafPath(path) && |g| == |path| && n + 1 < |path|
  {
    && Partial(was, log, i, path, g, n + 1)
    && Grows(log, next, {Prior(was, i, path, n)})
    && blk != 0 && Settled(next, blk)
    && (blk == Prior(was, i, path, n) || Head(log) <= blk)
    && forall o: nat :: o < PTRS ==> Contents(next, blk)[o] == Slot(was, i, path, g, n, o)
  }

  lemma JoinMissesBelow(was: Fs, log: Log, next: Log, i: nat, path: seq<nat>, g: seq<nat>, n: nat, blk: nat, k: nat)
    requires Separated(was) && i < |was.roots| && LeafPath(path) && |g| == |path| && n < k < |path| - 1
    requires Joins(was, log, next, i, path, g, n, blk)
    ensures g[k] != blk && Settled(next, g[k]) && Contents(next, g[k]) == Contents(log, g[k])
  {
    PrefixPath(path, n + 1);
    PrefixPath(path, k + 1);
    assert path[..k + 1] != path[..n + 1];
    var c := Prior(was, i, path, n);
    assert g[k] != c;
    GrowsKeepsSettled(log, next, {c}, g[k]);
  }

  lemma JoinGrows(was: Fs, log: Log, next: Log, i: nat, path: seq<nat>, g: seq<nat>, n: nat, blk: nat)
    requires i < |was.roots| && LeafPath(path) && |g| == |path| && n + 1 < |path|
    requires Joins(was, log, next, i, path, g, n, blk)
    ensures Grows(was.log, next, OnPath(was, i, path, n))
  {
    var c := Prior(was, i, path, n);
    GrowsTransitive(was.log, log, next, OnPath(was, i, path, n + 1), {c});
    assert OnPath(was, i, path, n + 1) + {c} == OnPath(was, i, path, n);
  }

  lemma Place(was: Fs, log: Log, next: Log, i: nat, path: seq<nat>, g: seq<nat>, n: nat, blk: nat)
    requires Separated(was) && i < |was.roots| && LeafPath(path) && |g| == |path| && n + 1 < |path|
    requires Joins(was, log, next, i, path, g, n, blk)
    ensures Partial(was, next, i, path, g[n := blk], n)
  {
    var h := g[n := blk];
    forall k: nat, o: nat | n <= k < |path| - 1 && o < PTRS
      ensures Contents(next, h[k])[o] == Slot(was, i, path, h, k, o)
    {
      if k != n {
        JoinMissesBelow(was, log, next, i, path, g, n, blk, k);
        assert Contents(log, g[k])[o] == Slot(was, i, path, g, k, o);
      }
    }
    assert Placed(was, next, i, path, h, n) by {
      forall k: nat | n < k < |path| - 1
        ensures h[k] == g[k] && g[k] != blk && Settled(next, g[k])
      {
        JoinMissesBelow(was, log, next, i, path, g, n, blk, k);
      }
    }
    JoinGrows(was, log, next, i, path, g, n, blk);
  }

  /** Under a missing block every pointer is missing. */
  lemma SlotUnderMissing(was: Fs, i: nat, path: seq<nat>, g: seq<nat>, n: nat, o: nat)
    requires i < |was.roots| && LeafPath(path) && |g| == |path| && n + 1 < |path| && o < PTRS
    requires Prior(was, i, path, n) == 0
    ensures Slot(was, i, path, g, n, o) == if o == path[n + 1] then g[n + 1] else 0
  {
    assert Parent(path[..n + 1] + [o]) == path[..n + 1];
  }

  /** Under a block that was there, every pointer but the one on the path is as it was. */
  lemma SlotUnderPresent(was: Fs, i: nat, path: seq<nat>, g: seq<nat>, n: nat, o: nat)
    requires i < |was.roots| && LeafPath(path) && |g| == |path| && n + 1 < |path| && o < PTRS
    requires Prior(was, i, path, n) != 0
    ensures Slot(was, i, path, g, n, o)
            == if o == path[n + 1] then g[n + 1] else Contents(was.log, Prior(was, i, path, n))[o]
  {
    assert Parent(path[..n + 1] + [o]) == path[..n + 1];
  }

  /** While the branch is in order from level `n + 1` down, the block at level `n` is untouched. */
  lemma NotYetTouched(was: Fs, log: Log, i: nat, path: seq<nat>, g: seq<nat>, n: nat)
    requires Separated(was) && i < |was.roots| && LeafPath(path) && |g| == |path| && n + 1 < |path|
    requires Partial(was, log, i, path, g, n + 1)
    requires Prior(was, i, path, n) != 0
    ensures Settled(was.log, Prior(was, i, path, n)) && Settled(log, Prior(was, i, path, n))
    ensures Contents(log, Prior(was, i, path, n)) == Contents(was.log, Prior(was, i, path, n))
  {
    var c := Prior(was, i, path, n);
    PrefixPath(path, n + 1);
    forall k: nat | n < k < |path| - 1 ensures Prior(was, i, path, k) != c {
      PrefixPath(path, k + 1);
      assert |path[..k + 1]| != |path[..n + 1]|;
    }
    GrowsKeepsSettled(was.log, log, OnPath(was, i, path, n + 1), c);
  }

  /** A value the last pointer may take without joining two trees: nothing, or a block the log
      handed out that no tree uses as an indirect block. */
  ghost predicate DataBlock(fs: Fs, v: nat) {
    v != 0 ==>
      && Settled(fs.log, v)
      && forall j: nat, q: seq<nat> | j < |fs.roots| && NodePath(q) :: At(fs, j, q) != v
  }

  lemma AfterSettled(a: Fs, b: Fs, i: nat, path: seq<nat>, g: seq<nat>, j: nat, p: seq<nat>)
    requires Separated(a) && Spliced(a, b, i, path, g) && DataBlock(a, g[|path| - 1])
    requires j < |a.roots| && TreePath(p) && After(a, i, path, g, j, p) != 0
    ensures Settled(b.log, After(a, i, path, g, j, p))
  {
    var v := After(a, i, path, g, j, p);
    if !(j == i && p <= path && |p| < |path|) {
      assert Settled(a.log, v);
      GrowsKeepsSettled(a.log, b.log, OnPath(a, i, path, 0), v);
    }
  }

  lemma AfterNotShared(a: Fs, b: Fs, i: nat, path: seq<nat>, g: seq<nat>, j: nat, p: seq<nat>, k: nat, q: seq<nat>)
    requires Separated(a) && Spliced(a, b, i, path, g) && DataBlock(a, g[|path| - 1])
    requires j < |a.roots| && k < |a.roots| && TreePath(p) && NodePath(q)
    requires After(a, i, path, g, j, p) != 0 && After(a, i, path, g, j, p) == After(a, i, path, g, k, q)
    ensures j == k && p == q
  {
    var pOn, qOn := j == i && p <= path, k == i && q <= path;
    if pOn {
      assert path[..|p|] == p;
    }
    if qOn {
      assert path[..|q|] == q && path[0] == q[0];
    }
  }

  /** Splicing keeps every tree apart from every other. */
  lemma SpliceKeepsSeparated(a: Fs, b: Fs, i: nat, path: seq<nat>, g: seq<nat>)
    requires Separated(a) && Spliced(a, b, i, path, g) && DataBlock(a, g[|path| - 1])
    ensures Separated(b)
  {
    forall j: nat, p: seq<nat> | j < |b.roots| && TreePath(p)
      ensures At(b, j, p) == After(a, i, path, g, j, p)
      ensures At(b, j, p) != 0 ==> Settled(b.log, At(b, j, p))
    {
      SpliceMovesOnePath(a, b, i, path, g, j, p);
      if At(b, j, p) != 0 {
        AfterSettled(a, b, i, path, g, j, p);
      }
    }
    forall j: nat, p: seq<nat>, k: nat, q: seq<nat> | j < |b.roots| && k < |b.roots| && TreePath(p) && NodePath(q)
      ensures At(b, j, p) != 0 && At(b, j, p) == At(b, k, q) ==> j == k && p == q
    {
      if At(b, j, p) != 0 && At(b, j, p) == At(b, k, q) {
        AfterNotShared(a, b, i, path, g, j, p, k, q);
      }
    }
  }
}
