/** The segment summary: which blocks of which files a segment holds. Its one-block encoding, and
    the per-file lists that grow as the segment fills. */
module LogfsSummary {
  import opened Common

  /** Words of one 1024-byte block. */
  const BLOCK_WORDS: nat := 256
  const MAX_FIS: nat := 64
  const MAX_FI_BLOCKS: nat := 511
  const MAX_INO_BLOCKS: nat := 511

  /** One file's entry: file block `lbn[k]` is stored in disk block `blocks[k]`. */
  datatype Finfo = Finfo(version: Word, ino: Word, lastLength: Word, lbn: seq<Word>, blocks: seq<Word>)

  predicate FinfoOk(f: Finfo) {
    |f.lbn| == |f.blocks| < 0x1_0000_0000
  }

  /** The header's own fields; the two counts it also stores are those of the lists. */
  datatype Summary = Summary(sumSum: Word, dataSum: Word, magic: Word, next: Word, create: Word,
                             inos: seq<Word>, fis: seq<Finfo>)

  predicate SummaryOk(s: Summary) {
    |s.inos| < 0x1_0000_0000 && |s.fis| < 0x1_0000_0000 && forall f :: f in s.fis ==> FinfoOk(f)
  }

  function EncodeFinfo(f: Finfo): seq<Word>
    requires FinfoOk(f)
  {
    [|f.lbn|, f.version, f.ino, f.lastLength] + f.lbn + f.blocks
  }

  function EncodeFinfos(fis: seq<Finfo>): seq<Word>
    requires forall f :: f in fis ==> FinfoOk(f)
  {
    if fis == [] then [] else EncodeFinfos(fis[..|fis| - 1]) + EncodeFinfo(fis[|fis| - 1])
  }

  function Header(s: Summary): seq<Word>
    requires SummaryOk(s)
  {
    [s.sumSum, s.dataSum, s.magic, s.next, s.create, |s.fis|, |s.inos|]
  }

  function Encode(s: Summary): seq<Word>
    requires SummaryOk(s)
  {
    Header(s) + s.inos + EncodeFinfos(s.fis)
  }

  /** Number of (file block, disk block) pairs in all entries. */
  function PairCount(fis: seq<Finfo>): nat {
    if fis == [] then 0 else PairCount(fis[..|fis| - 1]) + |fis[|fis| - 1].lbn|
  }

  lemma {:induction false} EncodedFinfosSize(fis: seq<Finfo>)
    requires forall f :: f in fis ==> FinfoOk(f)
    ensures |EncodeFinfos(fis)| == 4 * |fis| + 2 * PairCount(fis)
  {
    if fis != [] {
      var rest, f := fis[..|fis| - 1], fis[|fis| - 1];
      EncodedFinfosSize(rest);
      assert f in fis;
      assert |EncodeFinfo(f)| == 4 + 2 * |f.lbn|;
    }
  }

  /** How long an encoded summary is: the assumption that it fits one block bounds the pairs. */
  lemma {:induction false} EncodedSize(s: Summary)
    requires SummaryOk(s)
    ensures |Encode(s)| == 7 + |s.inos| + 4 * |s.fis| + 2 * PairCount(s.fis)
  {
    EncodedFinfosSize(s.fis);
  }

  /** Every prefix of the entries encodes to a prefix of the words. */
  lemma {:induction false} FinfoPrefix(fis: seq<Finfo>, n: nat)
    requires n <= |fis| && forall f :: f in fis ==> FinfoOk(f)
    ensures EncodeFinfos(fis[..n]) <= EncodeFinfos(fis)
    ensures n < |fis| ==> EncodeFinfos(fis[..n + 1]) == EncodeFinfos(fis[..n]) + EncodeFinfo(fis[n])
  {
    if n < |fis| {
      assert fis[..n + 1][..n] == fis[..n];
    }
    if n == |fis| {
      assert fis[..n] == fis;
    } else {
      FinfoPrefix(fis[..|fis| - 1], n);
      assert fis[..|fis| - 1][..n] == fis[..n];
    }
  }

  /** Copies words into the block at `at`. */
  method CopyOut(data: array<Word>, at: nat, src: seq<Word>) returns (next: nat)
    requires at + |src| <= data.Length
    modifies data
    ensures next == at + |src|
    ensures data[..next] == old(data[..at]) + src
    ensures forall k | next <= k < data.Length :: data[k] == old(data[k])
  {
    for k := 0 to |src|
      invariant data[..at + k] == old(data[..at]) + src[..k]
      invariant forall j | at + k <= j < data.Length :: data[j] == old(data[j])
    {
      data[at + k] := src[k];
    }
    next := at + |src|;
  }

  /** The words up to and without entry `i`. */
  function EncodeUpTo(s: Summary, i: nat): seq<Word>
    requires SummaryOk(s) && i <= |s.fis|
  {
    Header(s) + s.inos + EncodeFinfos(s.fis[..i])
  }

  /** The next entry still fits when the whole summary does. */
  lemma RoomForNext(s: Summary, i: nat)
    requires SummaryOk(s) && i < |s.fis|
    ensures EncodeUpTo(s, i + 1) == EncodeUpTo(s, i) + EncodeFinfo(s.fis[i])
    ensures |EncodeUpTo(s, i + 1)| <= |Encode(s)|
  {
    FinfoPrefix(s.fis, i);
    FinfoPrefix(s.fis, i + 1);
  }

  method WriteFinfo(f: Finfo, data: array<Word>, start: nat) returns (at: nat)
    requires FinfoOk(f) && start + |EncodeFinfo(f)| <= data.Length
    modifies data
    ensures at == start + |EncodeFinfo(f)|
    ensures data[..at] == old(data[..start]) + EncodeFinfo(f)
    ensures forall k | at <= k < data.Length :: data[k] == old(data[k])
  {
    ghost var before := data[..start];
    var head := [|f.lbn|, f.version, f.ino, f.lastLength];
    at := CopyOut(data, start, head);
    at := CopyOut(data, at, f.lbn);
    at := CopyOut(data, at, f.blocks);
    assert data[..at] == before + head + f.lbn + f.blocks;
    assert before + head + f.lbn + f.blocks == before + (head + f.lbn + f.blocks);
  }

  /** Where the header's words and the inode blocks are. */
  lemma HeaderWords(s: Summary, words: seq<Word>)
    requires SummaryOk(s) && Encode(s) <= words
    ensures 7 + |s.inos| <= |words|
    ensures words[0] == s.sumSum && words[1] == s.dataSum && words[2] == s.magic && words[3] == s.next
    ensures words[4] == s.create && words[5] == |s.fis| && words[6] == |s.inos|
    ensures words[7..7 + |s.inos|] == s.inos
  {
    assert Header(s) + s.inos <= words;
    assert words[..7] == Header(s);
  }

  /** Writes the summary into the first block of its segment. */
  method WriteSegsum(s: Summary, data: array<Word>)
    requires SummaryOk(s) && |Encode(s)| <= data.Length
    modifies data
    ensures Encode(s) <= data[..]
    ensures 7 + |s.inos| <= data.Length && data[7..7 + |s.inos|] == s.inos
    ensures data[..7] == [s.sumSum, s.dataSum, s.magic, s.next, s.create, |s.fis|, |s.inos|]
    ensures forall k | |Encode(s)| <= k < data.Length :: data[k] == old(data[k])
  {
    var at := CopyOut(data, 0, Header(s));
    at := CopyOut(data, at, s.inos);
    assert data[..at] == EncodeUpTo(s, 0);
    for i := 0 to |s.fis|
      invariant at == |EncodeUpTo(s, i)| <= data.Length && data[..at] == EncodeUpTo(s, i)
      invariant forall k | at <= k < data.Length :: data[k] == old(data[k])
    {
      RoomForNext(s, i);
      at := WriteFinfo(s.fis[i], data, at);
    }
    assert s.fis[..|s.fis|] == s.fis;
    HeaderWords(s, data[..]);
  }

  lemma MiddlePart(head: seq<Word>, x: seq<Word>, y: seq<Word>, tail: seq<Word>)
    requires x + y <= tail
    ensures |head| + |x| + |y| <= |head + tail|
    ensures (head + tail)[|head| + |x|..][..|y|] == y
  {
    assert (x + y)[|x|..] == y;
  }

  lemma NextWords(s: Summary, i: nat)
    requires SummaryOk(s) && i < |s.fis|
    ensures |EncodeUpTo(s, i)| + |EncodeFinfo(s.fis[i])| <= |Encode(s)|
    ensures Encode(s)[|EncodeUpTo(s, i)|..][..|EncodeFinfo(s.fis[i])|] == EncodeFinfo(s.fis[i])
  {
    RoomForNext(s, i);
    FinfoPrefix(s.fis, i);
    FinfoPrefix(s.fis, i + 1);
    MiddlePart(Header(s) + s.inos, EncodeFinfos(s.fis[..i]), EncodeFinfo(s.fis[i]), EncodeFinfos(s.fis));
  }

  lemma SliceOfSlice(w: seq<Word>, a: nat, b: nat, c: nat, d: nat)
    requires a <= b <= |w| && c <= d <= b - a
    ensures w[a..b][c..d] == w[a + c..a + d]
  {
    var x, y := w[a..b][c..d], w[a + c..a + d];
    assert |x| == |y|;
    assert forall k | 0 <= k < |x| :: x[k] == w[a..b][c + k] == w[a + c + k] == y[k];
  }

  /** Where the words of an entry are. */
  lemma FinfoWords(f: Finfo, words: seq<Word>, start: nat)
    requires FinfoOk(f) && start + |EncodeFinfo(f)| <= |words|
    requires words[start..start + |EncodeFinfo(f)|] == EncodeFinfo(f)
    ensures |f.blocks| == |f.lbn| && start + 4 + 2 * |f.lbn| == start + |EncodeFinfo(f)|
    ensures words[start] == |f.lbn| && f == Finfo(words[start + 1], words[start + 2], words[start + 3], f.lbn, f.blocks)
    ensures words[start + 4..start + 4 + |f.lbn|] == f.lbn
    ensures words[start + 4 + |f.lbn|..start + 4 + 2 * |f.lbn|] == f.blocks
  {
    var e, n := EncodeFinfo(f), |f.lbn|;
    SliceOfSlice(words, start, start + |e|, 0, 4);
    assert words[start..start + 4] == e[..4];
    SliceOfSlice(words, start, start + |e|, 4, 4 + n);
    SliceOfSlice(words, start, start + |e|, 4 + n, |e|);
    assert e[4..4 + n] == f.lbn && e[4 + n..] == f.blocks;
  }

  method ReadFinfo(data: array<Word>, start: nat, ghost f: Finfo) returns (r: Finfo, at: nat)
    requires FinfoOk(f) && start + |EncodeFinfo(f)| <= data.Length
    requires data[start..start + |EncodeFinfo(f)|] == EncodeFinfo(f)
    ensures r == f && at == start + |EncodeFinfo(f)|
  {
    FinfoWords(f, data[..], start);
    hide EncodeFinfo;
    var n: nat := data[start];
    at := start + 4;
    var lbn := data[at..at + n];
    at := at + n;
    var blocks := data[at..at + n];
    at := at + n;
    r := Finfo(data[start + 1], data[start + 2], data[start + 3], lbn, blocks);
  }

  /** Reads a summary back; `s` is the one that was written, and only the proof looks at it. */
  method ReadSegsum(data: array<Word>, ghost s: Summary) returns (r: Summary)
    requires SummaryOk(s) && Encode(s) <= data[..]
    ensures r == s
  {
    HeaderWords(s, data[..]);
    var nfi: nat, nino: nat := data[5], data[6];
    var inos := data[7..7 + nino];
    var at: nat := 7 + nino;
    var fis: seq<Finfo> := [];
    for i := 0 to nfi
      invariant at == |EncodeUpTo(s, i)|
      invariant fis == s.fis[..i]
    {
      RoomForNext(s, i);
      NextWords(s, i);
      ghost var size := |EncodeFinfo(s.fis[i])|;
      assert data[at..at + size] == Encode(s)[at..][..size];
      var f;
      f, at := ReadFinfo(data, at, s.fis[i]);
      fis := fis + [f];
    }
    r := Summary(data[0], data[1], data[2], data[3], data[4], inos, fis);
  }

  /** Position of the first entry of file `ino`; the number of entries when it has none. */
  function Find(fis: seq<Finfo>, ino: Word): (k: nat)
    ensures k <= |fis|
    ensures k < |fis| ==> fis[k].ino == ino
    ensures forall j | 0 <= j < k :: fis[j].ino != ino
  {
    if fis == [] then 0 else if fis[0].ino == ino then 0 else 1 + Find(fis[1..], ino)
  }

  /** At most one entry for each file. */
  predicate OneEntryEach(fis: seq<Finfo>) {
    forall j, k | 0 <= j < k < |fis| :: fis[j].ino != fis[k].ino
  }

  /** The entry list after file block `lbn` of `ino` went to `block`, by plain linear search. */
  function Record(fis: seq<Finfo>, ino: Word, lbn: Word, block: Word): seq<Finfo> {
    var k := Find(fis, ino);
    if k < |fis| then fis[k := fis[k].(lbn := fis[k].lbn + [lbn], blocks := fis[k].blocks + [block])]
    else fis + [Finfo(1, ino, 0, [lbn], [block])]
  }

  function Zip(a: seq<Word>, b: seq<Word>): seq<(Word, Word)>
    requires |a| == |b|
  {
    seq(|a|, n requires 0 <= n < |a| => (a[n], b[n]))
  }

  /** The pairs recorded for a file, oldest first. */
  function PairsOf(fis: seq<Finfo>, ino: Word): seq<(Word, Word)>
    requires forall f :: f in fis ==> FinfoOk(f)
  {
    var k := Find(fis, ino);
    assert k < |fis| ==> fis[k] in fis && FinfoOk(fis[k]);
    if k < |fis| then Zip(fis[k].lbn, fis[k].blocks) else []
  }

  lemma RecordKeepsEntries(fis: seq<Finfo>, ino: Word, lbn: Word, block: Word)
    requires OneEntryEach(fis)
    ensures OneEntryEach(Record(fis, ino, lbn, block))
    ensures Find(fis, ino) < |Record(fis, ino, lbn, block)|
  {
  }

  /** A file that has an entry gets the pair behind the others in it; one that has none gets a new entry at the end. */
  lemma RecordIs(fis: seq<Finfo>, ino: Word, lbn: Word, block: Word)
    requires OneEntryEach(fis)
    ensures var r := Record(fis, ino, lbn, block);
            if forall k | 0 <= k < |fis| :: fis[k].ino != ino then r == fis + [Finfo(1, ino, 0, [lbn], [block])]
            else
              && |r| == |fis|
              && forall k | 0 <= k < |fis| ::
                   r[k] == if fis[k].ino != ino then fis[k]
                           else Finfo(fis[k].version, ino, fis[k].lastLength,
                                      fis[k].lbn + [lbn], fis[k].blocks + [block])
  {
  }

  /** Each call adds exactly one pair to its own file's list, at the end, and keeps the lists of
      all other files and one entry for each file. */
  lemma RecordAddsOnePair(fis: seq<Finfo>, ino: Word, lbn: Word, block: Word, other: Word)
    requires OneEntryEach(fis) && forall f :: f in fis ==> FinfoOk(f) && |f.lbn| < MAX_FI_BLOCKS
    ensures OneEntryEach(Record(fis, ino, lbn, block))
    ensures forall f :: f in Record(fis, ino, lbn, block) ==> FinfoOk(f)
    ensures PairsOf(Record(fis, ino, lbn, block), other)
            == PairsOf(fis, other) + if other == ino then [(lbn, block)] else []
  {
    var after := Record(fis, ino, lbn, block);
    var k, m := Find(fis, other), Find(after, other);
    if other != ino {
      assert k < |fis| ==> after[k].ino == other;
    } else if k < |fis| {
      assert after[k].ino == other;
      assert m == k;
      assert Zip(after[k].lbn, after[k].blocks) == Zip(fis[k].lbn, fis[k].blocks) + [(lbn, block)];
    } else {
      assert after[|fis|].ino == other;
      assert Zip([lbn], [block]) == [(lbn, block)];
    }
  }

  /** What a run of calls, each (file, file block, disk block), records. */
  function RecordAll(calls: seq<(Word, Word, Word)>): seq<Finfo> {
    if calls == [] then []
    else
      var c := calls[|calls| - 1];
      Record(RecordAll(calls[..|calls| - 1]), c.0, c.1, c.2)
  }

  /** The pairs a run of calls gave for one file. */
  function CallsFor(calls: seq<(Word, Word, Word)>, ino: Word): seq<(Word, Word)> {
    if calls == [] then []
    else
      var c := calls[|calls| - 1];
      CallsFor(calls[..|calls| - 1], ino) + if c.0 == ino then [(c.1, c.2)] else []
  }

  /** Over a run that fits a segment, each file's entry holds its own calls in order. */
  lemma {:induction false} RunRecordsEveryCall(calls: seq<(Word, Word, Word)>, ino: Word)
    requires |calls| <= MAX_FI_BLOCKS
    ensures OneEntryEach(RecordAll(calls))
    ensures forall f :: f in RecordAll(calls) ==> FinfoOk(f) && |f.lbn| <= |calls|
    ensures PairsOf(RecordAll(calls), ino) == CallsFor(calls, ino)
  {
    if calls != [] {
      var n := |calls| - 1;
      RunRecordsEveryCall(calls[..n], ino);
      RecordAddsOnePair(RecordAll(calls[..n]), calls[n].0, calls[n].1, calls[n].2, ino);
    }
  }

  /** The files a run of calls is about. */
  function FilesOf(calls: seq<(Word, Word, Word)>): set<Word> {
    set c | c in calls :: c.0
  }

  lemma {:induction false} PairCountUpdate(fis: seq<Finfo>, k: nat, f: Finfo)
    requires k < |fis|
    ensures PairCount(fis[k := f]) == PairCount(fis) - |fis[k].lbn| + |f.lbn|
  {
    var n := |fis| - 1;
    if k < n {
      assert fis[k := f][..n] == fis[..n][k := f];
      PairCountUpdate(fis[..n], k, f);
    } else {
      assert fis[k := f][..n] == fis[..n];
    }
  }

  lemma {:induction false} RecordCounts(fis: seq<Finfo>, ino: Word, lbn: Word, block: Word)
    ensures PairCount(Record(fis, ino, lbn, block)) == PairCount(fis) + 1
  {
    var k := Find(fis, ino);
    if k < |fis| {
      PairCountUpdate(fis, k, fis[k].(lbn := fis[k].lbn + [lbn], blocks := fis[k].blocks + [block]));
    } else {
      assert (fis + [Finfo(1, ino, 0, [lbn], [block])])[..|fis|] == fis;
    }
  }

  lemma OneMoreFile(calls: seq<(Word, Word, Word)>, c: (Word, Word, Word))
    ensures FilesOf(calls + [c]) == FilesOf(calls) + {c.0}
    ensures |FilesOf(calls + [c])| == |FilesOf(calls)| + if c.0 in FilesOf(calls) then 0 else 1
  {
    var files := FilesOf(calls);
    assert FilesOf(calls + [c]) == files + {c.0} by {
      assert forall x :: x in calls + [c] <==> x in calls || x == c;
    }
    if c.0 in files {
      assert files + {c.0} == files;
    }
  }

  lemma RecordFinds(fis: seq<Finfo>, ino: Word, lbn: Word, block: Word)
    ensures var r := Record(fis, ino, lbn, block);
            && |r| == |fis| + (if Find(fis, ino) < |fis| then 0 else 1)
            && forall other: Word :: Find(r, other) < |r| <==> other == ino || Find(fis, other) < |fis|
  {
    var r, k := Record(fis, ino, lbn, block), Find(fis, ino);
    assert k < |r| && r[k].ino == ino;
    forall other: Word
      ensures Find(r, other) < |r| <==> other == ino || Find(fis, other) < |fis|
    {
      var m, l := Find(fis, other), Find(r, other);
      assert m < |fis| ==> r[m].ino == other;
      assert l < |r| && l < |fis| ==> fis[l].ino == other;
    }
  }

  /** A run of calls records one pair for each call and one entry for each file. */
  lemma {:induction false} RunCounts(calls: seq<(Word, Word, Word)>)
    ensures PairCount(RecordAll(calls)) == |calls|
    ensures OneEntryEach(RecordAll(calls)) && |RecordAll(calls)| == |FilesOf(calls)|
    ensures forall ino: Word :: Find(RecordAll(calls), ino) < |RecordAll(calls)| <==> ino in FilesOf(calls)
  {
    if calls == [] {
      assert RecordAll(calls) == [] && FilesOf(calls) == {};
    } else {
      hide Find, Record, OneEntryEach, PairCount;
      var n := |calls| - 1;
      var rest, c := calls[..n], calls[n];
      var fis := RecordAll(rest);
      RunCounts(rest);
      RecordCounts(fis, c.0, c.1, c.2);
      RecordKeepsEntries(fis, c.0, c.1, c.2);
      RecordFinds(fis, c.0, c.1, c.2);
      OneMoreFile(rest, c);
      assert calls == rest + [c];
      assert RecordAll(calls) == Record(fis, c.0, c.1, c.2);
      hide RecordAll, FilesOf;
    }
  }

  /** The source assumes that a summary fits its block. What a run of calls leaves does exactly when the header, the
      inode blocks, four words for each file and two for each call do. */
  lemma RunFitsExactly(calls: seq<(Word, Word, Word)>, s: Summary)
    requires SummaryOk(s) && s.fis == RecordAll(calls)
    ensures |Encode(s)| <= BLOCK_WORDS <==> 7 + |s.inos| + 4 * |FilesOf(calls)| + 2 * |calls| <= 256
  {
    EncodedSize(s);
    RunCounts(calls);
  }

  /** The arrays of a segment have room for one more block of a file. Nothing checks that. */
  predicate RoomFor(fis: seq<Finfo>, ino: Word) {
    var k := Find(fis, ino);
    if k < |fis| then |fis[k].lbn| < MAX_FI_BLOCKS else k < MAX_FIS
  }

  /** There was room at each call of a run. */
  predicate AllFit(calls: seq<(Word, Word, Word)>) {
    calls == []
    || (AllFit(calls[..|calls| - 1]) && RoomFor(RecordAll(calls[..|calls| - 1]), calls[|calls| - 1].0))
  }

  function CountOf(fis: seq<Finfo>, ino: Word): nat {
    var k := Find(fis, ino);
    if k < |fis| then |fis[k].lbn| else 0
  }

  lemma RecordCountsFor(fis: seq<Finfo>, ino: Word, lbn: Word, block: Word, other: Word)
    ensures CountOf(Record(fis, ino, lbn, block), other) == CountOf(fis, other) + if other == ino then 1 else 0
  {
    var after := Record(fis, ino, lbn, block);
    var k, m := Find(fis, other), Find(after, other);
    if k < |fis| {
      assert after[k].ino == other;
    } else if other == ino {
      assert after[|fis|].ino == other;
    }
  }

  lemma {:induction false} RunCountsFor(calls: seq<(Word, Word, Word)>, ino: Word)
    ensures CountOf(RecordAll(calls), ino) == |CallsFor(calls, ino)|
  {
    if calls != [] {
      var n := |calls| - 1;
      RunCountsFor(calls[..n], ino);
      RecordCountsFor(RecordAll(calls[..n]), calls[n].0, calls[n].1, calls[n].2, ino);
    }
  }

  /** No more files than a segment has entries for, and no more blocks of a file than its entry has room for. */
  predicate FewEnough(calls: seq<(Word, Word, Word)>) {
    |FilesOf(calls)| <= 64 && forall ino: Word :: |CallsFor(calls, ino)| <= 511
  }

  lemma FewEnoughStep(rest: seq<(Word, Word, Word)>, c: (Word, Word, Word))
    ensures FewEnough(rest + [c]) <==> FewEnough(rest) && RoomFor(RecordAll(rest), c.0)
  {
    var calls := rest + [c];
    assert calls[..|rest|] == rest && calls[|rest|] == c;
    hide RecordAll, FilesOf, Find;
    RunCounts(rest);
    RunCountsFor(rest, c.0);
    OneMoreFile(rest, c);
    assert forall ino: Word ::
        |CallsFor(calls, ino)| == |CallsFor(rest, ino)| + (if ino == c.0 then 1 else 0);
    if FewEnough(calls) {
      assert forall ino: Word :: |CallsFor(rest, ino)| <= |CallsFor(calls, ino)| <= MAX_FI_BLOCKS;
    }
    assert |CallsFor(calls, c.0)| == |CallsFor(rest, c.0)| + 1;
  }

  /** The arrays are never overrun exactly when the files and their blocks are few enough. */
  lemma {:induction false} AllFitExactly(calls: seq<(Word, Word, Word)>)
    ensures AllFit(calls) <==> FewEnough(calls)
  {
    if calls != [] {
      var n := |calls| - 1;
      AllFitExactly(calls[..n]);
      assert calls[..n] + [calls[n]] == calls;
      FewEnoughStep(calls[..n], calls[n]);
    } else {
      assert FilesOf(calls) == {};
    }
  }

  /** Each of `n` files stores one block. */
  function ManyFiles(n: nat): (calls: seq<(Word, Word, Word)>)
    requires n < 0x1_0000_0000
  {
    if n == 0 then [] else ManyFiles(n - 1) + [(n, 0, n)]
  }

  lemma {:induction false} ManyFilesCount(n: nat)
    requires n < 0x1_0000_0000
    ensures |FilesOf(ManyFiles(n))| == n && forall c :: c in ManyFiles(n) ==> c.0 <= n
    ensures forall ino: Word :: |CallsFor(ManyFiles(n), ino)| <= if ino <= n then 1 else 0
  {
    if n > 0 {
      var rest, c := ManyFiles(n - 1), (n, 0, n);
      ManyFilesCount(n - 1);
      OneMoreFile(rest, c);
      assert (rest + [c])[..|rest|] == rest;
    } else {
      assert FilesOf([]) == {};
    }
  }

  /** The 65th file of a segment is written behind the entries there are. */
  lemma SixtyFifthFile(n: nat)
    requires n < 0x1_0000_0000
    ensures AllFit(ManyFiles(n)) <==> n <= 64
  {
    AllFitExactly(ManyFiles(n));
    ManyFilesCount(n);
  }

  /** One file storing its blocks one after the other, from disk block `start` on. */
  function OneFile(ino: Word, start: nat, n: nat): (calls: seq<(Word, Word, Word)>)
    requires start + n < 0x1_0000_0000
    ensures |calls| == n && forall c :: c in calls ==> c.0 == ino
  {
    seq(n, k requires 0 <= k < n => (ino, k, start + k))
  }

  /** 123 blocks of one file, in a segment of 512, are too many for the block: 122 is the most. */
  lemma SummaryOverflowsBlock(ino: Word, start: nat, n: nat, s: Summary)
    requires 0 < n <= MAX_FI_BLOCKS && start + n < 0x1_0000_0000
    requires s.inos == [] && s.fis == RecordAll(OneFile(ino, start, n))
    ensures SummaryOk(s) && (|Encode(s)| <= BLOCK_WORDS <==> n <= 122)
  {
    var calls := OneFile(ino, start, n);
    RunRecordsEveryCall(calls, ino);
    RunCounts(calls);
    assert calls[0] in calls;
    assert FilesOf(calls) == {ino};
    RunFitsExactly(calls, s);
  }

  /** In-memory segments share one remembered entry across calls. */
  class SegmentInfo {
    var segnum: int
    var fis: seq<Finfo>
    var inos: seq<Word>

    constructor ()
      ensures fis == [] && inos == [] && segnum == -1
    {
      segnum, fis, inos := -1, [], [];
    }

    /** Notes an inode block once. */
    method AddInob(block: Word)
      requires |inos| < MAX_INO_BLOCKS || block in inos
      modifies this`inos
      ensures inos == if block in old(inos) then old(inos) else old(inos) + [block]
    {
      for i := 0 to |inos|
        invariant block !in inos[..i]
      {
        if inos[i] == block {
          return;
        }
      }
      inos := inos + [block];
    }
  }

  /** A step of a mount: a segment is re-assigned, or a block stored in it is noted. */
  datatype Use = NewSegment(j: nat, segnum: int) | Block(j: nat, ino: Word, lbn: Word, block: Word)

  /** The number given last. */
  function LastNumber(uses: seq<Use>): int {
    if uses == [] then -1
    else
      var u := uses[|uses| - 1];
      if u.NewSegment? then u.segnum else LastNumber(uses[..|uses| - 1])
  }

  predicate Started(uses: seq<Use>, j: nat) {
    exists n :: 0 <= n < |uses| && uses[n].NewSegment? && uses[n].j == j
  }

  /** The calls for a segment since it was last re-assigned. */
  function CallsSince(uses: seq<Use>, j: nat): seq<(Word, Word, Word)> {
    if uses == [] then []
    else
      var u, rest := uses[|uses| - 1], uses[..|uses| - 1];
      if u.j != j then CallsSince(rest, j)
      else if u.NewSegment? then []
      else CallsSince(rest, j) + [(u.ino, u.lbn, u.block)]
  }

  /** Segment numbers grow and blocks go to segments that have one, as callers see to, and the arrays of the segment
      have room for them, which nobody checks: `AllFitExactly` says when they do. */
  predicate RunOk(uses: seq<Use>, segments: nat) {
    uses == [] ||
    var u, rest := uses[|uses| - 1], uses[..|uses| - 1];
    && RunOk(rest, segments)
    && u.j < segments
    && match u
       case NewSegment(j, segnum) => LastNumber(rest) < segnum && 0 <= segnum
       case Block(j, ino, lbn, block) =>
         Started(rest, j) && RoomFor(RecordAll(CallsSince(rest, j)), ino)
  }

  lemma OneMoreUse(done: seq<Use>, u: Use, j: nat)
    ensures LastNumber(done + [u]) == if u.NewSegment? then u.segnum else LastNumber(done)
    ensures Started(done + [u], j) <==> Started(done, j) || (u.NewSegment? && u.j == j)
    ensures CallsSince(done + [u], j)
            == if u.j != j then CallsSince(done, j)
               else if u.NewSegment? then []
               else CallsSince(done, j) + [(u.ino, u.lbn, u.block)]
    ensures u.Block? ==>
              RecordAll(CallsSince(done, j) + [(u.ino, u.lbn, u.block)])
              == Record(RecordAll(CallsSince(done, j)), u.ino, u.lbn, u.block)
    ensures RecordAll([]) == []
  {
    hide Record;
    var all := done + [u];
    assert all[|all| - 1] == u && all[..|all| - 1] == done;
    assert forall n :: 0 <= n < |done| ==> all[n] == done[n];
    if u.Block? {
      var calls, c := CallsSince(done, j), (u.ino, u.lbn, u.block);
      assert (calls + [c])[..|calls|] == calls;
    }
  }

  lemma RunOkLast(done: seq<Use>, u: Use, segments: nat)
    requires RunOk(done + [u], segments)
    ensures RunOk(done, segments) && u.j < segments
    ensures match u
            case NewSegment(j, segnum) => LastNumber(done) < segnum && 0 <= segnum
            case Block(j, ino, lbn, block) =>
              Started(done, j) && RoomFor(RecordAll(CallsSince(done, j)), ino)
  {
    assert (done + [u])[..|done|] == done;
  }

  lemma {:induction false} RunOkSoFar(uses: seq<Use>, segments: nat, n: nat)
    requires RunOk(uses, segments) && n <= |uses|
    ensures RunOk(uses[..n], segments)
    decreases |uses|
  {
    if n < |uses| {
      RunOkSoFar(uses[..|uses| - 1], segments, n);
      assert uses[..|uses| - 1][..n] == uses[..n];
    } else {
      assert uses[..n] == uses;
    }
  }

  /** The segments of one mount with the entry the last call used. */
  class Mount {
    const segments: seq<SegmentInfo>
    var storeSegnum: int
    var store: SegmentInfo?
    var storeIndex: nat
    /** Segment numbers up to this one have been used. */
    var lastSegnum: int

    /** Segments in use carry different numbers, and the remembered entry, when its number is in
        use, still is an entry of that very segment. */
    ghost predicate Valid()
      reads this, segments
    {
      && (forall j, k | 0 <= j < k < |segments| :: segments[j] != segments[k])
      && (forall j, k | 0 <= j < k < |segments| && segments[j].segnum >= 0 :: segments[j].segnum != segments[k].segnum)
      && (forall s | s in segments :: s.segnum <= lastSegnum && OneEntryEach(s.fis))
      && storeSegnum <= lastSegnum
      && (storeSegnum >= 0 ==> store != null && store in segments)
      && (forall s | s in segments && s.segnum == storeSegnum && s.segnum >= 0 :: store == s && storeIndex < |s.fis|)
    }

    constructor (segments: seq<SegmentInfo>)
      requires forall j, k | 0 <= j < k < |segments| :: segments[j] != segments[k]
      requires forall s | s in segments :: s.fis == [] && s.segnum == -1
      ensures Valid() && this.segments == segments
    {
      this.segments, this.storeSegnum, this.store, this.storeIndex, this.lastSegnum := segments, -1, null, 0, -1;
    }

    /** A segment is reused for the next stretch of the log. */
    method Reassign(s: SegmentInfo, segnum: int)
      requires Valid() && s in segments && 0 <= segnum && lastSegnum < segnum
      modifies this`lastSegnum, s
      ensures Valid() && s.fis == [] && s.inos == [] && s.segnum == segnum == lastSegnum
    {
      s.segnum, s.fis, s.inos, lastSegnum := segnum, [], [], segnum;
    }

    /** The entry to use: the remembered one when it fits, else the first that search finds. */
    method Locate(s: SegmentInfo, ino: Word) returns (k: nat)
      requires Valid() && s in segments && s.segnum >= 0
      ensures k == Find(s.fis, ino)
    {
      if storeSegnum == s.segnum && store != null && store.fis[storeIndex].ino == ino {
        return storeIndex;
      }
      k := 0;
      while k < |s.fis| && s.fis[k].ino != ino
        invariant k <= |s.fis| && forall j | 0 <= j < k :: s.fis[j].ino != ino
      {
        k := k + 1;
      }
    }

    /** The pair goes into the entry at `k`, or into a new one behind the others. */
    method Put(s: SegmentInfo, k: nat, ino: Word, lbn: Word, block: Word)
      requires k == Find(s.fis, ino)
      modifies s`fis
      ensures s.fis == Record(old(s.fis), ino, lbn, block)
    {
      if k < |s.fis| {
        var f := s.fis[k];
        s.fis := s.fis[k := f.(lbn := f.lbn + [lbn], blocks := f.blocks + [block])];
      } else {
        s.fis := s.fis + [Finfo(1, ino, 0, [lbn], [block])];
      }
    }

    /** Notes that file block `lbn` of `ino` is stored in `block` of segment `s`. The remembered
        entry is tried before the search and never changes what is recorded. */
    method UpdateFinfo(s: SegmentInfo, ino: Word, lbn: Word, block: Word)
      requires Valid() && s in segments && s.segnum >= 0
      requires RoomFor(s.fis, ino)
      modifies this`storeSegnum, this`store, this`storeIndex, s`fis
      ensures Valid()
      ensures s.fis == Record(old(s.fis), ino, lbn, block)
    {
      hide Record, Find;
      var k := Locate(s, ino);
      RecordKeepsEntries(s.fis, ino, lbn, block);
      Put(s, k, ino, lbn, block);
      store, storeIndex, storeSegnum := s, k, s.segnum;
    }

    /** Each segment has a number once it was re-assigned, and holds what plain search records for the calls since. */
    ghost predicate Tracks(done: seq<Use>)
      reads this, segments
    {
      && lastSegnum == LastNumber(done)
      && forall j: nat | j < |segments| ::
           && (segments[j].segnum >= 0 <==> Started(done, j))
           && segments[j].fis == RecordAll(CallsSince(done, j))
    }

    /** One step of a run. */
    method Do(u: Use)
      requires Valid() && u.j < |segments|
      requires match u
               case NewSegment(j, segnum) => lastSegnum < segnum && 0 <= segnum
               case Block(j, ino, lbn, block) => segments[j].segnum >= 0 && RoomFor(segments[j].fis, ino)
      modifies this`lastSegnum, this`storeSegnum, this`store, this`storeIndex, segments[u.j]
      ensures Valid() && lastSegnum == if u.NewSegment? then u.segnum else old(lastSegnum)
      ensures segments[u.j].segnum == if u.NewSegment? then u.segnum else old(segments[u.j].segnum)
      ensures segments[u.j].fis ==
              if u.NewSegment? then [] else Record(old(segments[u.j].fis), u.ino, u.lbn, u.block)
    {
      hide Valid, Record, RoomFor;
      match u {
        case NewSegment(j, segnum) =>
          Reassign(segments[j], segnum);
        case Block(j, ino, lbn, block) =>
          UpdateFinfo(segments[j], ino, lbn, block);
      }
    }

    method Take(u: Use, ghost done: seq<Use>)
      requires Valid() && Tracks(done) && RunOk(done + [u], |segments|)
      modifies this`lastSegnum, this`storeSegnum, this`store, this`storeIndex, segments
      ensures Valid() && Tracks(done + [u])
    {
      hide RecordAll, Find, Record, OneEntryEach, CallsSince, Started, LastNumber, RoomFor;
      RunOkLast(done, u, |segments|);
      OneMoreUse(done, u, u.j);
      forall j: nat | j < |segments| && j != u.j
        ensures Started(done + [u], j) == Started(done, j) && CallsSince(done + [u], j) == CallsSince(done, j)
        ensures segments[j] != segments[u.j]
      {
        OneMoreUse(done, u, j);
      }
      hide RunOk, Valid;
      Do(u);
    }

    lemma AsTracked(uses: seq<Use>)
      requires Tracks(uses)
      ensures forall j: nat | j < |segments| :: segments[j].fis == RecordAll(CallsSince(uses, j))
    {
    }

    /** Any run over the segments of a mount: each ends up with what plain search records for the calls since it was
        last re-assigned, whatever entry was remembered in between. */
    method Run(uses: seq<Use>)
      requires Valid() && lastSegnum == -1 && forall s | s in segments :: s.segnum == -1 && s.fis == []
      requires RunOk(uses, |segments|)
      modifies this`lastSegnum, this`storeSegnum, this`store, this`storeIndex, segments
      ensures Valid()
      ensures forall j: nat | j < |segments| :: segments[j].fis == RecordAll(CallsSince(uses, j))
    {
      assert Tracks(uses[..0]);
      hide Tracks, RunOk;
      for n := 0 to |uses|
        invariant Valid() && Tracks(uses[..n])
      {
        RunOkSoFar(uses, |segments|, n + 1);
        assert uses[..n + 1] == uses[..n] + [uses[n]];
        Take(uses[n], uses[..n]);
      }
      assert uses[..|uses|] == uses;
      AsTracked(uses);
    }
  }
}
