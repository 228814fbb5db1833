/** The file system as the driver runs it: one mutable store of blocks, a current segment that
    hands blocks out, and inode pointer arrays that are updated in place. */
module LogfsDriver {
  import opened Common
  import opened LogfsPaths
  import opened LogfsTree
  import opened LogfsHistory

  /** What one call of the usage accounting does: rewrite blocks of its own table in place, or
      append new ones to the log. */
  datatype UsageOp = Edit(block: nat, data: Block) | Append(data: Block)

  /** The log once its head was handed out: the last block of a segment of 512 brings the segment's summary to its first
      block, and the next segment begins behind it. */
  function Advanced(l: Log, summaries: nat -> Block): Log {
    if l.offset == 511 then Log(l.store[l.start := summaries(l.start)], l.start + 512, 1, l.usage)
    else Log(l.store, l.start, l.offset + 1, l.usage)
  }

  /** What one step of the accounting makes of the log: it edits only blocks it owns, and owns what it appends. */
  function Applied(l: Log, op: UsageOp, summaries: nat -> Block): Log {
    match op
    case Edit(b, data) => if b in l.usage then l.(store := l.store[b := data]) else l
    case Append(data) =>
      var next, blk := Advanced(l, summaries), l.start + l.offset;
      next.(store := next.store[blk := data], usage := next.usage + {blk})
  }

  /** What its first `n` steps make of the log. */
  function Accounted(l: Log, ops: seq<UsageOp>, n: nat, summaries: nat -> Block): Log
    requires n <= |ops|
  {
    if n == 0 then l else Applied(Accounted(l, ops, n - 1, summaries), ops[n - 1], summaries)
  }

  lemma MissingPrior(was: Fs, i: nat, path: seq<nat>, base: nat, level: nat)
    requires i < |was.roots| && LeafPath(path) && base <= level && level + 1 < |path|
    requires Prior(was, i, path, base) == 0
    ensures Prior(was, i, path, level) == 0
  {
    assert path[..level + 1][..base + 1] == path[..base + 1];
    MissingBelow(was, i, path[..level + 1], base + 1);
  }

  /** What a complete splice at file block `iblock` means for all file blocks, and for the trees. */
  lemma SpliceMeans(was: Fs, now: Fs, i: nat, iblock: nat, g: seq<nat>, block: nat)
    requires Separated(was) && i < |was.roots| && iblock < MAX_FILE_BLOCKS
    requires Spliced(was, now, i, PathOf(iblock), g) && g[|g| - 1] == block
    ensures forall j: nat, k: nat | j < |was.roots| && k < MAX_FILE_BLOCKS ::
              At(now, j, PathOf(k)) == if j == i && k == iblock then block else At(was, j, PathOf(k))
    ensures DataBlock(was, block) ==> Separated(now)
  {
    assert |g| == |PathOf(iblock)| && |now.roots| == |was.roots|;
    hide Separated, Spliced, DataBlock, PathOf, LbnOf;
    forall j: nat, k: nat | j < |was.roots| && k < MAX_FILE_BLOCKS
      ensures At(now, j, PathOf(k)) == if j == i && k == iblock then block else At(was, j, PathOf(k))
    {
      SpliceMovesOneFileBlock(was, now, i, iblock, g, j, k);
    }
    if DataBlock(was, block) {
      SpliceKeepsSeparated(was, now, i, PathOf(iblock), g);
    }
  }

  class LogFs {
    var store: map<nat, Block>
    var segStart: nat
    var segEnd: nat
    var segOffset: nat
    var usageBlocks: set<nat>
    var inodes: seq<Root>
    /** Every block handed out since the file system was mounted, oldest first. */
    ghost var handed: seq<nat>
    /** Calls of the usage accounting so far, what the n-th call does, and what is written as the
        summary of the segment that starts at a block. */
    var usageCalls: nat
    const accounting: nat -> seq<UsageOp>
    const summaries: nat -> Block

    function Now(): Log
      reads this
    {
      Log(store, segStart, segOffset, usageBlocks)
    }

    function State(): Fs
      reads this
    {
      Fs(Now(), inodes)
    }

    ghost predicate Valid()
      reads this
    {
      LogOk(Now()) && segEnd == segStart + SEGMENT_BLOCKS && InOrder(handed, segStart + segOffset)
    }

    constructor (start: nat, offset: nat, roots: seq<Root>, disk: map<nat, Block>, usage: set<nat>,
                 accounting: nat -> seq<UsageOp>, summaries: nat -> Block)
      requires LogOk(Log(disk, start, offset, usage))
      ensures Valid() && State() == Fs(Log(disk, start, offset, usage), roots) && handed == []
    {
      this.store, this.segStart, this.segEnd, this.segOffset := disk, start, start + SEGMENT_BLOCKS, offset;
      this.usageBlocks, this.inodes, this.usageCalls := usage, roots, 0;
      this.accounting, this.summaries, this.handed := accounting, summaries, [];
    }

    /** However many writes and accounting calls there were: the blocks handed out so far strictly increase, and none of
        them is a summary block. */
    lemma HandedOutInOrder(k: nat, m: nat)
      requires Valid() && k <= m < |handed|
      ensures k < m ==> handed[k] < handed[m]
      ensures !(handed[k] >= 4 && (handed[k] - 4) % 512 == 0) && !(handed[m] >= 4 && (handed[m] - 4) % 512 == 0)
    {
    }

    /** Takes the block at the head; a full segment gets its summary and the next one begins. */
    method Advance() returns (blk: nat, rolled: bool)
      requires Valid()
      modifies this`store, this`segStart, this`segEnd, this`segOffset
      modifies this`handed
      ensures Valid() && Handed(old(Now()), Now(), blk) && handed == old(handed) + [blk]
      ensures Contents(Now(), blk) == Contents(old(Now()), blk)
      ensures blk == old(segStart + segOffset) && (rolled <==> old(segOffset) == 511)
      ensures Now() == Advanced(old(Now()), summaries)
      ensures if rolled then store[old(segStart)] == summaries(old(segStart)) && segStart == old(segStart) + 512
              else store == old(store) && segStart == old(segStart) && segOffset == old(segOffset) + 1
    {
      InsideSegment(Now());
      hide SummaryBlock, InOrder;
      blk := segStart + segOffset;
      rolled := segStart + segOffset == segEnd - 1;
      if rolled {
        store := store[segStart := summaries(segStart)];
        segStart, segEnd, segOffset := segEnd, segEnd + SEGMENT_BLOCKS, 1;
      } else {
        segOffset := segOffset + 1;
      }
      OneMoreHanded(handed, blk, segStart + segOffset);
      handed := handed + [blk];
    }

    /** One step of the usage accounting. */
    method Apply(op: UsageOp)
      requires Valid()
      modifies this`store, this`segStart, this`segEnd, this`segOffset, this`usageBlocks
      modifies this`handed
      ensures Valid() && Grows(old(Now()), Now(), {}) && old(handed) <= handed
      ensures Now() == Applied(old(Now()), op, summaries)
    {
      hide InOrder;
      match op {
        case Edit(b, data) =>
          if b in usageBlocks {
            store := store[b := data];
          }
        case Append(data) =>
          var blk, _ := Advance();
          store, usageBlocks := store[blk := data], usageBlocks + {blk};
      }
    }

    /** One call of the usage accounting. */
    method Account()
      requires Valid()
      modifies this`store, this`segStart, this`segEnd, this`segOffset, this`usageBlocks, this`usageCalls
      modifies this`handed
      ensures Valid() && Grows(old(Now()), Now(), {}) && old(handed) <= handed
      ensures var ops := accounting(old(usageCalls));
              usageCalls == old(usageCalls) + 1 && Now() == Accounted(old(Now()), ops, |ops|, summaries)
    {
      hide InOrder, LogOk, Applied;
      var ops := accounting(usageCalls);
      usageCalls := usageCalls + 1;
      for k := 0 to |ops|
        invariant Valid() && Grows(old(Now()), Now(), {}) && old(handed) <= handed
        invariant usageCalls == old(usageCalls) + 1 && Now() == Accounted(old(Now()), ops, k, summaries)
      {
        ghost var before := Now();
        Apply(ops[k]);
        GrowsTransitive(old(Now()), before, Now(), {}, {});
      }
    }

    /** Hands out a block without writing it. */
    method GetNextBlock() returns (blk: nat)
      requires Valid()
      modifies this`store, this`segStart, this`segEnd, this`segOffset, this`usageBlocks, this`usageCalls
      modifies this`handed
      ensures Valid() && Handed(old(Now()), Now(), blk) && old(handed) + [blk] <= handed
      ensures var moved, ops := Advanced(old(Now()), summaries), accounting(old(usageCalls));
              if old(segOffset) == 511 then
                Now() == Accounted(moved, ops, |ops|, summaries) && usageCalls == old(usageCalls) + 1
              else Now() == moved && usageCalls == old(usageCalls)
    {
      hide InOrder, Accounted;
      var rolled;
      blk, rolled := Advance();
      if rolled {
        ghost var before := Now();
        Account();
        GrowsTransitive(old(Now()), before, Now(), {}, {});
      }
    }

    /** Appends a block at the head of the log. */
    method SegmentWriteBlock(data: Block) returns (blk: nat)
      requires Valid()
      modifies this`store, this`segStart, this`segEnd, this`segOffset, this`usageBlocks, this`usageCalls
      modifies this`handed
      ensures Valid() && Handed(old(Now()), Now(), blk) && old(handed) + [blk] <= handed
      ensures Contents(Now(), blk) == data
      ensures var written := old(Log(store[segStart + segOffset := data], segStart, segOffset, usageBlocks));
              var moved, ops := Advanced(written, summaries), accounting(old(usageCalls));
              if old(segOffset) == 511 then
                Now() == Accounted(moved, ops, |ops|, summaries) && usageCalls == old(usageCalls) + 1
              else Now() == moved && usageCalls == old(usageCalls)
    {
      hide InOrder, Accounted;
      store := store[segStart + segOffset := data];
      ghost var written := Now();
      var rolled;
      blk, rolled := Advance();
      ghost var before := Now();
      assert Contents(before, blk) == data;
      if rolled {
        Account();
      }
    }

    /** Follows `path` from inode `i` and stores the block numbers in `chain` up to the first
        missing one; returns the index of the last entry filled. */
    method GetBranch(i: nat, path: seq<nat>, chain: array<nat>) returns (last: nat)
      requires i < |inodes| && LeafPath(path) && chain.Length == 4
      modifies chain
      ensures last < |path|
      ensures forall n: nat {:trigger chain[n]} | n <= last :: chain[n] == At(State(), i, path[..n + 1])
      ensures forall n: nat | n < last :: chain[n] != 0
      ensures last < |path| - 1 ==> chain[last] == 0
    {
      chain[0] := inodes[i][path[0]];
      last := 0;
      while chain[last] != 0 && last + 1 < |path|
        invariant last < |path|
        invariant forall n: nat {:trigger chain[n]} | n <= last :: chain[n] == At(State(), i, path[..n + 1])
        invariant forall n: nat | n < last :: chain[n] != 0
        decreases |path| - last
      {
        assert Parent(path[..last + 2]) == path[..last + 1];
        chain[last + 1] := Contents(Now(), chain[last])[path[last + 1]];
        last := last + 1;
      }
    }

    /** The disk block of a file block, 0 for a hole. */
    method DiskBlock(i: nat, iblock: nat) returns (b: nat)
      requires i < |inodes| && iblock < MAX_FILE_BLOCKS
      ensures b == At(State(), i, PathOf(iblock))
    {
      var offsets, chain := new nat[4], new nat[4];
      var depth, _ := BlockToPath(iblock, offsets);
      var path := offsets[..depth];
      var last := GetBranch(i, path, chain);
      assert path[..|path|] == path;
      if last == depth - 1 && chain[last] != 0 {
        return chain[depth - 1];
      } else {
        if last < depth - 1 {
          assert TreePath(path[..last + 1]);
          MissingBelow(State(), i, path, last + 1);
        }
        return 0;
      }
    }

    method ReadFileBlock(i: nat, iblock: nat) returns (r: Option<Block>)
      requires i < |inodes| && iblock < MAX_FILE_BLOCKS
      ensures r == ReadBlock(State(), i, iblock)
    {
      var b := DiskBlock(i, iblock);
      r := if b > 0 then Some(Contents(Now(), b)) else None;
    }

    /** A zeroed block with one link. */
    method NewNode(at: nat, link: nat) returns (nr: nat)
      requires Valid() && at < PTRS
      modifies this`store, this`segStart, this`segEnd, this`segOffset, this`usageBlocks, this`usageCalls
      modifies this`handed
      ensures Valid() && old(handed) + [nr] <= handed
      ensures Grows(old(Now()), Now(), {}) && nr != 0 && Settled(Now(), nr) && Head(old(Now())) <= nr
      ensures Contents(Now(), nr) == ZERO_BLOCK[at := link]
      ensures nr == old(segStart + segOffset) && nr in store && store[nr] == ZERO_BLOCK[at := link]
      ensures usageCalls == old(usageCalls) + if old(segOffset) == 511 then 2 else 1
    {
      hide InOrder, Accounted, Advanced;
      ghost var before := Now();
      nr := GetNextBlock();
      ghost var handedOut := Now();
      Account();
      GrowsTransitive(before, handedOut, Now(), {}, {});
      store := store[nr := ZERO_BLOCK[at := link]];
    }

    /** Builds the missing part of a branch bottom up: one zeroed block for each level from
        `base` to the last but one, each holding just the link to the next. */
    method AllocBranch(ghost i: nat, num: nat, target: nat, path: seq<nat>, base: nat, chain: array<nat>)
      requires Valid() && Separated(State())
      requires i < |inodes| && LeafPath(path) && chain.Length == 4
      requires num >= 1 && base + num == |path|
      requires num > 1 ==> Prior(State(), i, path, base) == 0
      modifies this`store, this`segStart, this`segEnd, this`segOffset, this`usageBlocks, this`usageCalls, chain
      modifies this`handed
      ensures Valid() && old(handed) <= handed
      ensures chain[|path| - 1] == target
      ensures forall k | 0 <= k < base :: chain[k] == old(chain[k])
      ensures Partial(old(State()), Now(), i, path, chain[..|path|], base)
    {
      hide InOrder, Separated;
      ghost var was := State();
      var goal := target;
      var n := num - 1;
      ghost var g := chain[..|path|][base + n := goal];
      while n > 0
        invariant 0 <= n < num
        invariant Valid() && old(handed) <= handed && |g| == |path|
        invariant g == chain[..|path|][base + n := goal] && g[|path| - 1] == target
        invariant forall k | 0 <= k < base :: chain[k] == old(chain[k])
        invariant Partial(was, Now(), i, path, g, base + n)
      {
        chain[base + n] := goal;
        ghost var before := Now();
        var nr := NewNode(path[base + n], chain[base + n]);
        goal := nr;
        n := n - 1;
        ghost var level := base + n;
        MissingPrior(was, i, path, base, level);
        assert Joins(was, before, Now(), i, path, g, level, nr) by {
          forall o: nat | o < PTRS ensures Contents(Now(), nr)[o] == Slot(was, i, path, g, level, o) {
            SlotUnderMissing(was, i, path, g, level, o);
          }
        }
        Place(was, before, Now(), i, path, g, level, nr);
        g := g[level := nr];
      }
      chain[base] := goal;
      assert chain[..|path|] == g;
    }

    /** Appends a copy of a block, and accounts for it. */
    method CopyUp(data: Block) returns (blk: nat)
      requires Valid()
      modifies this`store, this`segStart, this`segEnd, this`segOffset, this`usageBlocks, this`usageCalls
      modifies this`handed
      ensures Valid() && old(handed) + [blk] <= handed
      ensures Grows(old(Now()), Now(), {}) && blk != 0 && Settled(Now(), blk) && Head(old(Now())) <= blk
      ensures Contents(Now(), blk) == data && blk == old(segStart + segOffset)
      ensures usageCalls == old(usageCalls) + if old(segOffset) == 511 then 2 else 1
    {
      hide InOrder, Accounted, Advanced;
      ghost var before := Now();
      blk := SegmentWriteBlock(data);
      ghost var appended := Now();
      Account();
      GrowsTransitive(before, appended, Now(), {}, {});
    }

    /** Changes a block where it is cached, and copies it to the head of the log unless the current segment holds it. */
    method EditOrCopy(c: nat, buf: Block) returns (blk: nat)
      requires Valid() && c != 0 && Settled(Now(), c)
      modifies this`store, this`segStart, this`segEnd, this`segOffset, this`usageBlocks, this`usageCalls
      modifies this`handed
      ensures Valid() && old(handed) <= handed
      ensures Grows(old(Now()), Now(), {c}) && blk != 0 && Settled(Now(), blk)
      ensures Contents(Now(), blk) == buf
      ensures if old(segStart <= c < segEnd) then blk == c && usageCalls == old(usageCalls)
              else blk == old(segStart + segOffset) && usageCalls > old(usageCalls)
    {
      hide InOrder;
      ghost var before := Now();
      var inSegment := segStart <= c < segEnd;
      store := store[c := buf];
      ghost var edited := Now();
      assert Grows(before, edited, {c});
      blk := c;
      if !inSegment {
        blk := CopyUp(buf);
        GrowsTransitive(before, edited, Now(), {c}, {});
        assert {c} + {} == {c};
      }
    }

    /** Stores the link to level `n + 1` in the block at level `n`, and copies that block to the
        head of the log unless the current segment already holds it. */
    method Relink(ghost was: Fs, ghost i: nat, path: seq<nat>, n: nat, chain: array<nat>)
      requires Valid() && Separated(was)
      requires i < |was.roots| && LeafPath(path) && n + 1 < |path| && chain.Length == 4
      requires chain[n] == Prior(was, i, path, n) != 0
      requires Partial(was, Now(), i, path, chain[..|path|], n + 1)
      modifies this`store, this`segStart, this`segEnd, this`segOffset, this`usageBlocks, this`usageCalls, chain
      modifies this`handed
      ensures Valid() && old(handed) <= handed
      ensures forall k | 0 <= k < 4 && k != n :: chain[k] == old(chain[k])
      ensures chain[n] == if old(segStart <= chain[n] < segEnd) then old(chain[n]) else old(segStart + segOffset)
      ensures Partial(was, Now(), i, path, chain[..|path|], n)
    {
      hide InOrder;
      ghost var before, g := Now(), chain[..|path|];
      NotYetTouched(was, before, i, path, g, n);
      var buf: Block := Contents(Now(), chain[n])[path[n + 1] := chain[n + 1]];
      forall o: nat | o < PTRS ensures buf[o] == Slot(was, i, path, g, n, o) {
        SlotUnderPresent(was, i, path, g, n, o);
      }
      hide Grows, LogOk, Slot, Contents;
      chain[n] := EditOrCopy(chain[n], buf);
      assert Joins(was, before, Now(), i, path, g, n, chain[n]);
      Place(was, before, Now(), i, path, g, n, chain[n]);
      assert chain[..|path|] == g[n := chain[n]];
    }

    /** The update below an indirect slot: extend the branch, then relink up to the inode. */
    method UpdateBranch(i: nat, path: seq<nat>, block: nat) returns (ghost g: seq<nat>)
      requires Valid() && Separated(State())
      requires i < |inodes| && LeafPath(path)
      modifies this`store, this`segStart, this`segEnd, this`segOffset, this`usageBlocks, this`usageCalls, this`inodes
      modifies this`handed
      ensures Valid() && old(handed) <= handed
      ensures Spliced(old(State()), State(), i, path, g) && g[|path| - 1] == block
    {
      hide InOrder, Separated, Partial;
      ghost var was := State();
      var chain := new nat[4];
      var last := GetBranch(i, path, chain);
      AllocBranch(i, |path| - last, block, path, last, chain);
      var n := last;
      while n > 0
        invariant 0 <= n <= last
        invariant Valid() && old(handed) <= handed && inodes == was.roots
        invariant chain[|path| - 1] == block
        invariant forall k: nat {:trigger chain[k]} | k < n :: chain[k] == Prior(was, i, path, k) != 0
        invariant Partial(was, Now(), i, path, chain[..|path|], n)
      {
        n := n - 1;
        ghost var links := chain[..];
        Relink(was, i, path, n, chain);
        forall k: nat | k < n ensures chain[k] == Prior(was, i, path, k) != 0 {
          assert chain[k] == links[k];
        }
      }
      g := chain[..|path|];
      inodes := inodes[i := inodes[i][path[0] := chain[0]]];
    }

    /** A direct pointer is set in the inode itself. */
    method UpdatePath(i: nat, path: seq<nat>, block: nat) returns (ghost g: seq<nat>)
      requires Valid() && Separated(State())
      requires i < |inodes| && LeafPath(path)
      modifies this`store, this`segStart, this`segEnd, this`segOffset, this`usageBlocks, this`usageCalls, this`inodes
      modifies this`handed
      ensures Valid() && old(handed) <= handed
      ensures Spliced(old(State()), State(), i, path, g) && g[|path| - 1] == block
    {
      hide InOrder;
      if path[0] < NDIR_BLOCKS {
        inodes := inodes[i := inodes[i][path[0] := block]];
        g := [block];
      } else {
        g := UpdateBranch(i, path, block);
      }
    }

    /** Makes disk block `block` the one behind file block `iblock` of inode `i`. */
    method UpdateInode(i: nat, iblock: int, block: nat) returns (ok: bool, ghost g: seq<nat>)
      requires Valid() && Separated(State())
      requires i < |inodes|
      modifies this`store, this`segStart, this`segEnd, this`segOffset, this`usageBlocks, this`usageCalls, this`inodes
      modifies this`handed
      ensures Valid() && old(handed) <= handed
      ensures ok <==> 0 <= iblock < MAX_FILE_BLOCKS
      ensures !ok ==> State() == old(State())
      ensures ok ==> Spliced(old(State()), State(), i, PathOf(iblock), g) && g[|g| - 1] == block
      ensures ok ==> forall j: nat, k: nat | j < |inodes| && k < MAX_FILE_BLOCKS ::
                At(State(), j, PathOf(k)) == if j == i && k == iblock then block else At(old(State()), j, PathOf(k))
      ensures ok && DataBlock(old(State()), block) ==> Separated(State())
    {
      hide InOrder;
      ghost var was := State();
      var offsets := new nat[4];
      var depth, _ := BlockToPath(iblock, offsets);
      if depth == 0 {
        return false, [];
      }
      var path := offsets[..depth];
      hide Separated, Spliced, DataBlock, LeafPath, PathOf, LbnOf, At, LogOk;
      g := UpdatePath(i, path, block);
      SpliceMeans(was, State(), i, iblock, g, block);
      return true, g;
    }

    /** Appends `data` to the log and makes it file block `iblock` of inode `i`. */
    method WriteFileBlock(i: nat, iblock: nat, data: Block)
      requires Valid() && Separated(State())
      requires i < |inodes| && iblock < MAX_FILE_BLOCKS
      modifies this`store, this`segStart, this`segEnd, this`segOffset, this`usageBlocks, this`usageCalls, this`inodes
      modifies this`handed
      ensures Valid() && Separated(State()) && old(handed) <= handed
      ensures Wrote(old(State()), State(), i, iblock, data)
      ensures At(State(), i, PathOf(iblock)) == old(segStart + segOffset)
    {
      hide InOrder;
      ghost var was := State();
      var blk := SegmentWriteBlock(data);
      ghost var appended := State();
      GrowthKeepsSeparated(was, appended);
      GrowthDisturbsNoReader(was, appended);
      FreshIsDataBlock(was, appended, blk);
      ghost var ok, g := UpdateInode(i, iblock, blk);
      SpliceIsWrite(appended, State(), i, iblock, g, blk);
      UndisturbedThenWrote(was, appended, State(), i, iblock, data);
    }

    /** Any run of writes, with activity of other trees in between: at its end every file block of every inode reads
        as what was last written to it, and the trees are still separated. */
    method Run(steps: seq<Step>)
      requires Valid() && Separated(State())
      requires forall s :: s in steps && s.Write? ==> s.i < |inodes| && s.lbn < MAX_FILE_BLOCKS
      modifies this`store, this`segStart, this`segEnd, this`segOffset, this`usageBlocks, this`usageCalls, this`inodes
      modifies this`handed
      ensures Valid() && Separated(State()) && |inodes| == |old(inodes)| && old(handed) <= handed
      ensures forall i: nat, lbn: nat | i < |inodes| && lbn < MAX_FILE_BLOCKS ::
                ReadBlock(State(), i, lbn) == LastWritten(steps, i, lbn, ReadBlock(old(State()), i, lbn))
    {
      hide InOrder, Separated, Grows, ReadBlock, LogOk;
      ghost var states := [State()];
      for k := 0 to |steps|
        invariant Valid() && old(handed) <= handed && Separated(State()) && |inodes| == |old(inodes)|
        invariant |states| == k + 1 && states[0] == old(State()) && states[k] == State()
        invariant forall n :: 0 <= n < k ==> Takes(states[n], states[n + 1], steps[n])
      {
        ghost var before := State();
        match steps[k] {
          case Write(i, lbn, data) =>
            WriteFileBlock(i, lbn, data);
          case Activity =>
            Account();
            GrowthKeepsSeparated(before, State());
            GrowthDisturbsNoReader(before, State());
        }
        assert Takes(before, State(), steps[k]);
        states := states + [State()];
      }
      forall i: nat, lbn: nat | i < |inodes| && lbn < MAX_FILE_BLOCKS
        ensures ReadBlock(State(), i, lbn) == LastWritten(steps, i, lbn, ReadBlock(old(State()), i, lbn))
      {
        RunReadsBackLastWrites(states, steps, i, lbn);
      }
    }
  }
}
