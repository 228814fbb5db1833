/** The answer to reset of a smart card (section 8.2 of ISO/IEC 7816-3:2006): a chain of levels of
    interface bytes in which each TD byte says which bytes the next level has, then the historical
    bytes and a check byte. */
module SmartcardAtr {
  import opened Common

  type Octet = bv8

  const MAX_SIZE: nat := 33
  const MAX_PROTOCOLS: nat := 7

  datatype Status = Ok | Malformed

  /** Which interface bytes a T0 or TD byte announces. */
  predicate HasTA(td: Octet) { td | 0xEF == 0xFF }

  predicate HasTB(td: Octet) { td | 0xDF == 0xFF }

  predicate HasTC(td: Octet) { td | 0xBF == 0xFF }

  predicate HasTD(td: Octet) { td | 0x7F == 0xFF }

  lemma LowerBits(td: Octet)
    ensures HasTA(td) <==> td as int / 16 % 2 == 1
    ensures HasTB(td) <==> td as int / 32 % 2 == 1
  {
  }

  lemma UpperBits(td: Octet)
    ensures HasTC(td) <==> td as int / 64 % 2 == 1
    ensures HasTD(td) <==> td as int / 128 % 2 == 1
  {
  }

  /** The four bits of the upper half announce TA, TB, TC and TD, from the lowest to the highest. */
  lemma BitsAnnounce(td: Octet)
    ensures HasTA(td) <==> td as int / 16 % 2 == 1
    ensures HasTB(td) <==> td as int / 32 % 2 == 1
    ensures HasTC(td) <==> td as int / 64 % 2 == 1
    ensures HasTD(td) <==> td as int / 128 % 2 == 1
  {
    LowerBits(td);
    UpperBits(td);
    hide HasTA, HasTB, HasTC, HasTD;
  }

  /** The two halves of a byte as numbers. */
  lemma HalvesAre(b: Octet)
    ensures (b & 0x0F) as int == b as int % 16 && ((b & 0xF0) >> 4) as int == b as int / 16
  {
  }

  function One(b: bool): nat {
    if b then 1 else 0
  }

  function Count(td: Octet): nat {
    One(HasTA(td)) + One(HasTB(td)) + One(HasTC(td)) + One(HasTD(td))
  }

  /** The table of how many bytes follow, by high nibble. */
  function NumIb(h: Octet): nat {
    match h
    case 0 => 0
    case 1 => 1 case 2 => 1 case 4 => 1 case 8 => 1
    case 3 => 2 case 5 => 2 case 6 => 2 case 9 => 2 case 10 => 2 case 12 => 2
    case 7 => 3 case 11 => 3 case 13 => 3 case 14 => 3
    case _ => 4
  }

  /** The table counts the presence bits. */
  lemma TableCountsBits(td: Octet)
    ensures NumIb((td & 0xF0) >> 4) == Count(td)
  {
  }

  /** Highest clock by the high nibble of TA1; 0 where that is reserved. */
  function Fs(h: Octet): nat {
    match h
    case 0 => 3570000 case 1 => 5000000 case 2 => 6000000 case 3 => 8000000
    case 4 => 12000000 case 5 => 16000000 case 6 => 20000000
    case 9 => 5000000 case 10 => 7500000 case 11 => 10000000 case 12 => 15000000 case 13 => 20000000
    case _ => 0
  }

  /** The inverse convention sends the bits complemented and last to first. */
  function Inverse(b: Octet): Octet {
    !(((b << 7) & 0x80) | ((b << 5) & 0x40) | ((b << 3) & 0x20) | ((b << 1) & 0x10)
      | ((b >> 1) & 0x08) | ((b >> 3) & 0x04) | ((b >> 5) & 0x02) | ((b >> 7) & 0x01))
  }

  /** Bit k of what is decoded is the complement of bit 7 - k of what was sent. */
  lemma InverseBits(b: Octet, k: nat)
    requires k < 8
    ensures (Inverse(b) >> k) & 1 == 1 - ((b >> (7 - k)) & 1)
  {
  }

  /** Decoding twice gives the byte back, and 3 stands for 0x3F. */
  lemma InverseIsInvolution(b: Octet)
    ensures Inverse(Inverse(b)) == b
    ensures Inverse(b) == 0x3F <==> b == 3
  {
  }

  function InverseAll(s: seq<Octet>): (t: seq<Octet>)
    ensures |t| == |s| && forall k :: 0 <= k < |s| ==> t[k] == Inverse(s[k])
  {
    seq(|s|, k requires 0 <= k < |s| => Inverse(s[k]))
  }

  /** The bytes a buffer stands for; a first byte of 3 marks the inverse convention. */
  function Decoded(raw: seq<Octet>): seq<Octet> {
    if |raw| > 0 && raw[0] == 3 then InverseAll(raw) else raw
  }

  /** Number of historical bytes. */
  function Hbn(t0: Octet): nat {
    (t0 & 0x0F) as nat
  }

  datatype Level = Level(ta: Option<Octet>, tb: Option<Octet>, tc: Option<Octet>, td: Option<Octet>)

  datatype Atr = Atr(ts: Octet, t0: Octet, ib: seq<Level>, hb: seq<Octet>, tck: Option<Octet>, length: nat)

  function Bytes(o: Option<Octet>): seq<Octet> {
    match o
    case None => []
    case Some(b) => [b]
  }

  function PrintLevel(l: Level): seq<Octet> {
    Bytes(l.ta) + Bytes(l.tb) + Bytes(l.tc) + Bytes(l.td)
  }

  function PrintLevels(ib: seq<Level>): seq<Octet> {
    if ib == [] then [] else PrintLevel(ib[0]) + PrintLevels(ib[1..])
  }

  function Print(a: Atr): seq<Octet> {
    [a.ts, a.t0] + PrintLevels(a.ib) + a.hb + Bytes(a.tck)
  }

  /** A level has exactly the bytes its predecessor announces. */
  predicate Announced(td: Octet, l: Level) {
    && (l.ta.Some? <==> HasTA(td))
    && (l.tb.Some? <==> HasTB(td))
    && (l.tc.Some? <==> HasTC(td))
    && (l.td.Some? <==> HasTD(td))
  }

  /** Each level follows from the one before; the last has no TD. */
  predicate Chained(td: Octet, ib: seq<Level>)
    decreases |ib|
  {
    && ib != []
    && Announced(td, ib[0])
    && (if |ib| == 1 then ib[0].td.None? else ib[0].td.Some? && Chained(ib[0].td.value, ib[1..]))
  }

  /** The protocol the last TD of a chain asks for; 0 without any. */
  function LastProtocol(ib: seq<Level>, before: Octet): Octet {
    if ib == [] || ib[0].td.None? then before else LastProtocol(ib[1..], ib[0].td.value & 0x0F)
  }

  /** The fields fit together; this is what the parser promises and the printer relies on. */
  predicate Consistent(a: Atr) {
    && Chained(a.t0, a.ib)
    && |a.hb| == Hbn(a.t0)
    && (a.tck.Some? <==> LastProtocol(a.ib, 0) != 0)
    && a.length == |Print(a)|
  }

  /** With a single level, TA1 must name a clock that is not reserved and TB1 be at most 0x80. */
  predicate Allowed(a: Atr) {
    |a.ib| == 1 ==>
      && (a.ib[0].ta.Some? ==> Fs((a.ib[0].ta.value & 0xF0) >> 4) != 0)
      && (a.ib[0].tb.Some? ==> a.ib[0].tb.value <= 0x80)
  }

  /** The level that starts behind position `p` of the buffer. */
  function LevelAt(d: seq<Octet>, p: nat, td: Octet): Level
    requires p + Count(td) < |d|
  {
    var a, b, c := One(HasTA(td)), One(HasTB(td)), One(HasTC(td));
    Level(if HasTA(td) then Some(d[p + 1]) else None,
          if HasTB(td) then Some(d[p + a + 1]) else None,
          if HasTC(td) then Some(d[p + a + b + 1]) else None,
          if HasTD(td) then Some(d[p + a + b + c + 1]) else None)
  }

  /** All the levels that start behind position `p` are there. */
  predicate Complete(d: seq<Octet>, p: nat, td: Octet)
    decreases |d| - p
  {
    p + Count(td) < |d| && (HasTD(td) ==> Complete(d, p + Count(td), d[p + Count(td)]))
  }

  function Levels(d: seq<Octet>, p: nat, td: Octet): (ib: seq<Level>)
    requires Complete(d, p, td)
    ensures |ib| > 0
    decreases |d| - p
  {
    var q := p + Count(td);
    [LevelAt(d, p, td)] + if HasTD(td) then Levels(d, q, d[q]) else []
  }

  /** Position of the last interface byte. */
  function Last(d: seq<Octet>, p: nat, td: Octet): (q: nat)
    requires Complete(d, p, td)
    ensures p <= q < |d|
    decreases |d| - p
  {
    var q := p + Count(td);
    if HasTD(td) then Last(d, q, d[q]) else q
  }

  /** The answer at the start of the decoded bytes. */
  function Parse(d: seq<Octet>): Option<Atr> {
    if |d| < 2 || !Complete(d, 1, d[1]) then None
    else
      var ib, last := Levels(d, 1, d[1]), Last(d, 1, d[1]);
      var hbn, tck := Hbn(d[1]), LastProtocol(ib, 0) != 0;
      var end := last + hbn + One(tck);
      if end >= |d| then None
      else
        var a := Atr(d[0], d[1], ib, d[last + 1..last + 1 + hbn], if tck then Some(d[end]) else None, end + 1);
        if Allowed(a) then Some(a) else None
  }

  lemma Join(d: seq<Octet>, x: seq<Octet>, y: seq<Octet>, a: nat, b: nat, c: nat)
    requires a <= b <= c <= |d| && x == d[a..b] && y == d[b..c]
    ensures x + y == d[a..c]
  {
  }

  lemma ByteAt(d: seq<Octet>, present: bool, at: nat)
    requires at + One(present) <= |d|
    ensures Bytes(if present then Some(d[at]) else None) == d[at..at + One(present)]
  {
  }

  lemma JoinFour(d: seq<Octet>, w: seq<Octet>, x: seq<Octet>, y: seq<Octet>, z: seq<Octet>,
                 p: nat, a: nat, b: nat, c: nat, e: nat)
    requires p <= a <= b <= c <= e <= |d| && w == d[p..a] && x == d[a..b] && y == d[b..c] && z == d[c..e]
    ensures w + x + y + z == d[p..e]
  {
    Join(d, w, x, p, a, b);
    Join(d, w + x, y, p, b, c);
    Join(d, w + x + y, z, p, c, e);
  }

  lemma LevelAnnounced(d: seq<Octet>, p: nat, td: Octet)
    requires p + Count(td) < |d|
    ensures Announced(td, LevelAt(d, p, td))
    ensures HasTD(td) ==> Count(td) > 0 && LevelAt(d, p, td).td == Some(d[p + Count(td)])
  {
    hide HasTA, HasTB, HasTC, HasTD;
  }

  lemma LevelBytes(d: seq<Octet>, p: nat, td: Octet, a: nat, b: nat, c: nat, e: nat)
    requires p + Count(td) < |d|
    requires a == p + 1 + One(HasTA(td)) && b == a + One(HasTB(td))
    requires c == b + One(HasTC(td)) && e == c + One(HasTD(td))
    ensures var l := LevelAt(d, p, td);
            && Bytes(l.ta) == d[p + 1..a] && Bytes(l.tb) == d[a..b]
            && Bytes(l.tc) == d[b..c] && Bytes(l.td) == d[c..e]
  {
    hide HasTA, HasTB, HasTC, HasTD;
    ByteAt(d, HasTA(td), p + 1);
    ByteAt(d, HasTB(td), a);
    ByteAt(d, HasTC(td), b);
    ByteAt(d, HasTD(td), c);
    assert e <= |d|;
    hide Bytes, One, Count;
  }

  lemma PrintLevelAt(d: seq<Octet>, p: nat, td: Octet)
    requires p + Count(td) < |d|
    ensures Announced(td, LevelAt(d, p, td))
    ensures HasTD(td) ==> Count(td) > 0 && LevelAt(d, p, td).td == Some(d[p + Count(td)])
    ensures PrintLevel(LevelAt(d, p, td)) == d[p + 1..p + Count(td) + 1]
  {
    hide HasTA, HasTB, HasTC, HasTD, LevelAt, Bytes, Announced;
    LevelAnnounced(d, p, td);
    var l, a := LevelAt(d, p, td), p + 1 + One(HasTA(td));
    var b := a + One(HasTB(td));
    var c := b + One(HasTC(td));
    var e := c + One(HasTD(td));
    LevelBytes(d, p, td, a, b, c, e);
    JoinFour(d, Bytes(l.ta), Bytes(l.tb), Bytes(l.tc), Bytes(l.td), p + 1, a, b, c, e);
  }

  /** One step along the chain. */
  lemma LevelsUnfold(d: seq<Octet>, p: nat, td: Octet)
    requires p + Count(td) < |d|
    ensures var q, l := p + Count(td), LevelAt(d, p, td);
            if HasTD(td) then
              && (Complete(d, p, td) <==> Complete(d, q, d[q]))
              && (Complete(d, p, td) ==>
                    Levels(d, p, td) == [l] + Levels(d, q, d[q]) && Last(d, p, td) == Last(d, q, d[q]))
            else Complete(d, p, td) && Levels(d, p, td) == [l] && Last(d, p, td) == q
  {
  }

  lemma CompleteHere(d: seq<Octet>, p: nat, td: Octet)
    requires Complete(d, p, td)
    ensures p + Count(td) < |d|
  {
  }

  lemma PrintLevelsCons(l: Level, rest: seq<Level>)
    ensures PrintLevels([l] + rest) == PrintLevel(l) + PrintLevels(rest)
    ensures PrintLevels([]) == []
  {
    hide PrintLevel;
    assert ([l] + rest)[1..] == rest;
  }

  /** What the levels print is what was read. */
  lemma {:induction false} PrintOfLevels(d: seq<Octet>, p: nat, td: Octet)
    requires Complete(d, p, td)
    ensures PrintLevels(Levels(d, p, td)) == d[p + 1..Last(d, p, td) + 1]
    decreases |d| - p
  {
    hide PrintLevel, PrintLevels, LevelAt, Count, HasTA, HasTB, HasTC, HasTD, Levels, Last, Complete, Announced;
    CompleteHere(d, p, td);
    PrintLevelAt(d, p, td);
    LevelsUnfold(d, p, td);
    var q, l, last := p + Count(td), LevelAt(d, p, td), Last(d, p, td);
    if HasTD(td) {
      PrintOfLevels(d, q, d[q]);
      PrintLevelsCons(l, Levels(d, q, d[q]));
      Join(d, PrintLevel(l), PrintLevels(Levels(d, q, d[q])), p + 1, q + 1, last + 1);
    } else {
      PrintLevelsCons(l, []);
      assert [l] + [] == [l];
    }
  }

  lemma {:induction false} LevelsChain(d: seq<Octet>, p: nat, td: Octet)
    requires Complete(d, p, td)
    ensures Chained(td, Levels(d, p, td))
    decreases |d| - p
  {
    hide PrintLevel, HasTA, HasTB, HasTC, HasTD, One, LevelAt, Count, Levels, Last, Complete;
    CompleteHere(d, p, td);
    PrintLevelAt(d, p, td);
    LevelsUnfold(d, p, td);
    var q, ib := p + Count(td), Levels(d, p, td);
    if HasTD(td) {
      assert ib[1..] == Levels(d, q, d[q]) && ib[0].td == Some(d[q]);
      LevelsChain(d, q, d[q]);
    }
  }

  /** The level has the bytes that the four upper bits of `td` announce. */
  predicate MarkedBy(td: nat, l: Level) {
    && (l.ta.Some? <==> td / 16 % 2 == 1) && (l.tb.Some? <==> td / 32 % 2 == 1)
    && (l.tc.Some? <==> td / 64 % 2 == 1) && (l.td.Some? <==> td / 128 % 2 == 1)
  }

  /** So has each level by T0 or the TD byte before it, and only the last one is without TD. */
  ghost predicate Marked(t0: nat, ib: seq<Level>) {
    && ib != [] && (forall i | 0 <= i < |ib| :: ib[i].td.Some? <==> i < |ib| - 1)
    && (forall i | 0 <= i < |ib| :: MarkedBy(if i == 0 then t0 else ib[i - 1].td.value as int, ib[i]))
  }

  lemma AnnouncedIs(td: Octet, l: Level)
    ensures Announced(td, l) <==> MarkedBy(td as int, l)
  {
    BitsAnnounce(td);
    hide HasTA, HasTB, HasTC, HasTD;
  }

  /** A chain is marked level by level, and its last TD names the last protocol. */
  lemma {:induction false} ChainIsMarked(td: Octet, ib: seq<Level>, before: Octet)
    requires Chained(td, ib)
    ensures Marked(td as int, ib)
    ensures LastProtocol(ib, before) == if |ib| == 1 then before else ib[|ib| - 2].td.value & 0x0F
    decreases |ib|
  {
    AnnouncedIs(td, ib[0]);
    hide MarkedBy, Announced;
    if |ib| > 1 {
      var rest, next := ib[1..], ib[0].td.value;
      ChainIsMarked(next, rest, next & 0x0F);
      forall i | 0 < i < |ib|
        ensures MarkedBy(if i == 1 then next as int else rest[i - 2].td.value as int, ib[i])
      {
        assert ib[i] == rest[i - 1];
      }
    }
  }

  /** An accepted answer is consistent and prints as exactly the bytes it was read from. */
  lemma PrintOfParsed(d: seq<Octet>, a: Atr)
    requires Parse(d) == Some(a)
    ensures Consistent(a) && Allowed(a) && a.length <= |d| && Print(a) == d[..a.length]
  {
    hide PrintLevels, Levels, Last, Complete, Chained, LastProtocol, Allowed, Hbn;
    PrintOfLevels(d, 1, d[1]);
    LevelsChain(d, 1, d[1]);
    var last := Last(d, 1, d[1]);
    var levels, tck, end := PrintLevels(a.ib), Bytes(a.tck), last + 1 + |a.hb|;
    Join(d, [a.ts, a.t0], levels, 0, 2, last + 1);
    Join(d, [a.ts, a.t0] + levels, a.hb, 0, last + 1, end);
    Join(d, [a.ts, a.t0] + levels + a.hb, tck, 0, end, a.length);
  }

  /** What the bytes of an accepted answer mean: the low half of T0 counts the historical bytes, the level bytes are
      the announced ones, and a check byte is there if the low half of the last TD is not 0. */
  lemma ParsedMeans(d: seq<Octet>, a: Atr)
    requires Parse(d) == Some(a)
    ensures 2 <= a.length <= |d| && Print(a) == d[..a.length]
    ensures |d| >= 2 && a.ts == d[0] && a.t0 == d[1] && |a.hb| == a.t0 as int % 16
    ensures Marked(a.t0 as int, a.ib)
    ensures a.tck.Some? <==> |a.ib| > 1 && a.ib[|a.ib| - 2].td.value as int % 16 != 0
  {
    PrintOfParsed(d, a);
    ChainIsMarked(a.t0, a.ib, 0);
    HalvesAre(a.t0);
    if |a.ib| > 1 {
      HalvesAre(a.ib[|a.ib| - 2].td.value);
    }
    hide Chained, LastProtocol, PrintLevels, Levels, Last, Complete, Allowed;
  }

  lemma LevelAtOfPrinted(d: seq<Octet>, p: nat, td: Octet, l: Level)
    requires Announced(td, l) && p + 1 + |PrintLevel(l)| <= |d|
    requires d[p + 1..p + 1 + |PrintLevel(l)|] == PrintLevel(l)
    ensures |PrintLevel(l)| == Count(td) && p + Count(td) < |d|
    ensures LevelAt(d, p, td) == l
  {
    var s, a, b, c := PrintLevel(l), One(HasTA(td)), One(HasTB(td)), One(HasTC(td));
    assert forall k | 0 <= k < |s| :: d[p + 1 + k] == s[k];
    assert l.ta.Some? ==> s[0] == l.ta.value && d[p + 1 + 0] == s[0];
    assert l.tb.Some? ==> s[a] == l.tb.value && d[p + 1 + a] == s[a];
    assert l.tc.Some? ==> s[a + b] == l.tc.value && d[p + 1 + (a + b)] == s[a + b];
    assert l.td.Some? ==> s[a + b + c] == l.td.value && d[p + 1 + (a + b + c)] == s[a + b + c];
    var read := LevelAt(d, p, td);
    hide HasTA, HasTB, HasTC, HasTD, PrintLevel, Count, Bytes;
    assert read.ta == l.ta && read.tb == l.tb;
    assert read.tc == l.tc && read.td == l.td;
  }

  lemma LevelAtEnds(d: seq<Octet>, p: nat, td: Octet)
    requires p + Count(td) < |d|
    ensures HasTD(td) ==> Count(td) > 0 && LevelAt(d, p, td).td == Some(d[p + Count(td)])
    ensures !HasTD(td) ==> LevelAt(d, p, td).td == None
  {
  }

  /** The part of `d` at `at` is `s`. */
  predicate Holds(d: seq<Octet>, at: nat, s: seq<Octet>) {
    at + |s| <= |d| && d[at..at + |s|] == s
  }

  lemma HoldsParts(d: seq<Octet>, at: nat, x: seq<Octet>, y: seq<Octet>)
    requires Holds(d, at, x + y)
    ensures Holds(d, at, x) && Holds(d, at + |x|, y)
  {
    var n, m := |x|, |x + y|;
    assert d[at..at + n] == d[at..at + m][..n] == x;
    assert d[at + n..at + m] == d[at..at + m][n..] == y;
  }

  lemma {:induction false} LevelsOfPrinted(d: seq<Octet>, p: nat, td: Octet, ib: seq<Level>)
    requires Chained(td, ib) && Holds(d, p + 1, PrintLevels(ib))
    ensures Complete(d, p, td) && Levels(d, p, td) == ib && Last(d, p, td) == p + |PrintLevels(ib)|
    decreases |ib|
  {
    hide PrintLevel, HasTA, HasTB, HasTC, HasTD, One, LevelAt, Count, Levels, Last, Complete;
    var x, y, rest := PrintLevel(ib[0]), PrintLevels(ib[1..]), ib[1..];
    HoldsParts(d, p + 1, x, y);
    LevelAtOfPrinted(d, p, td, ib[0]);
    LevelAtEnds(d, p, td);
    LevelsUnfold(d, p, td);
    hide PrintLevels, Holds;
    if ib[0].td.Some? {
      LevelsOfPrinted(d, p + Count(td), ib[0].td.value, rest);
    }
    assert ib == [ib[0]] + rest;
  }

  lemma HoldsMiddle(x: seq<Octet>, y: seq<Octet>, z: seq<Octet>)
    ensures Holds(x + y + z, |x|, y)
  {
  }

  lemma PrintedParts(a: Atr, trailing: seq<Octet>)
    ensures var d, n := Print(a) + trailing, |PrintLevels(a.ib)|;
            && |d| >= 2 && d[0] == a.ts && d[1] == a.t0
            && Holds(d, 2, PrintLevels(a.ib))
            && Holds(d, 2 + n, a.hb)
            && Holds(d, 2 + n + |a.hb|, Bytes(a.tck))
  {
    hide PrintLevels, Bytes, Holds;
    var head, levels, tck := [a.ts, a.t0], PrintLevels(a.ib), Bytes(a.tck);
    var d := Print(a) + trailing;
    HoldsMiddle(head, levels, a.hb + tck + trailing);
    HoldsMiddle(head + levels, a.hb, tck + trailing);
    HoldsMiddle(head + levels + a.hb, tck, trailing);
    assert d == head + levels + (a.hb + tck + trailing);
    assert d == head + levels + a.hb + (tck + trailing);
  }

  /** Reading a printed answer, whatever follows it, gives back every field. */
  lemma ParseOfPrinted(a: Atr, trailing: seq<Octet>)
    requires Consistent(a) && Allowed(a)
    ensures Parse(Print(a) + trailing) == Some(a)
  {
    hide PrintLevels, Levels, Last, Complete, Chained, LastProtocol, Allowed, Hbn;
    PrintedParts(a, trailing);
    LevelsOfPrinted(Print(a) + trailing, 1, a.t0, a.ib);
  }

  /** Some answer with allowed fields stands at the start of exactly the buffers that are accepted. */
  lemma AcceptedExactly(d: seq<Octet>, a: Atr)
    ensures Parse(d) == Some(a) <==> Consistent(a) && Allowed(a) && Print(a) <= d
  {
    hide Parse, Print, Allowed, Chained, LastProtocol, PrintLevels;
    if Parse(d) == Some(a) {
      PrintOfParsed(d, a);
    }
    if Consistent(a) && Allowed(a) && Print(a) <= d {
      ParseOfPrinted(a, d[|Print(a)|..]);
      assert Print(a) + d[|Print(a)|..] == d;
    }
  }

  /** Some TD byte asks for a protocol other than T=0. */
  predicate AsksOther(ib: seq<Level>)
    decreases |ib|
  {
    ib != [] && ib[0].td.Some? && (ib[0].td.value & 0x0F != 0 || AsksOther(ib[1..]))
  }

  /** There is a TD, and the last one asks for T=0. */
  predicate EndsInZero(ib: seq<Level>)
    decreases |ib|
  {
    && ib != [] && ib[0].td.Some?
    && if |ib| == 1 || ib[1].td.None? then ib[0].td.value & 0x0F == 0 else EndsInZero(ib[1..])
  }

  /** Some TD asks for a protocol other than T=0, but the last one asks for T=0. */
  predicate DropsToZero(ib: seq<Level>) {
    AsksOther(ib) && EndsInZero(ib)
  }

  lemma {:induction false} LastIsZero(ib: seq<Level>, before: Octet)
    ensures LastProtocol(ib, before) == 0 <==> if ib == [] || ib[0].td.None? then before == 0 else EndsInZero(ib)
    decreases |ib|
  {
    if ib != [] && ib[0].td.Some? {
      LastIsZero(ib[1..], ib[0].td.value & 0x0F);
    }
  }

  lemma {:induction false} LastIsAsked(ib: seq<Level>, before: Octet)
    ensures LastProtocol(ib, before) != 0 ==> AsksOther(ib) || before != 0
    decreases |ib|
  {
    if ib != [] && ib[0].td.Some? {
      LastIsAsked(ib[1..], ib[0].td.value & 0x0F);
    }
  }

  /** The parser looks for a check byte when the last TD asks for a protocol other than T=0. That is the standard's
      rule, that any TD asks for one, exactly for the chains that do not drop back to T=0. */
  lemma {:induction false} CheckByteRule(ib: seq<Level>)
    ensures (LastProtocol(ib, 0) != 0 <==> AsksOther(ib)) <==> !DropsToZero(ib)
    ensures LastProtocol(ib, 0) != 0 ==> AsksOther(ib)
  {
    LastIsZero(ib, 0);
    LastIsAsked(ib, 0);
  }

  /** The protocols come in the order the standard asks for, lowest first. */
  predicate Ascending(ib: seq<Level>, before: Octet)
    decreases |ib|
  {
    ib == [] || ib[0].td.None? || (before <= ib[0].td.value & 0x0F && Ascending(ib[1..], ib[0].td.value & 0x0F))
  }

  /** A chain in the standard's order never drops back. */
  lemma {:induction false} AscendingDoesNotDrop(ib: seq<Level>, before: Octet)
    requires Ascending(ib, before)
    ensures !DropsToZero(ib) && (before != 0 ==> !EndsInZero(ib))
    decreases |ib|
  {
    if ib != [] && ib[0].td.Some? {
      var rest, protocol := ib[1..], ib[0].td.value & 0x0F;
      AscendingDoesNotDrop(rest, protocol);
      if rest == [] || rest[0].td.None? {
        assert !AsksOther(rest) && EndsInZero(ib) == (protocol == 0);
      } else {
        assert EndsInZero(ib) == EndsInZero(rest);
      }
    }
  }

  function OneThenZero(): seq<Level> {
    [Level(None, None, None, Some(0x81)), Level(None, None, None, Some(0x00)), Level(None, None, None, None)]
  }

  lemma OneThenZeroDrops()
    ensures var ib := OneThenZero();
            && |ib| == 3 && Chained(0x80, ib) && LastProtocol(ib, 0) == 0 && AsksOther(ib) && EndsInZero(ib)
  {
    var none, ib := Level(None, None, None, None), OneThenZero();
    var first, second := ib[0], ib[1];
    assert ib[1..] == [second, none] && [second, none][1..] == [none];
    assert LastProtocol([none], 0x00) == 0 && LastProtocol([second, none], 0x01) == 0;
    assert Chained(0x00, [none]) && Chained(0x81, [second, none]);
    assert EndsInZero([second, none]);
  }

  lemma OneThenZeroPrints()
    ensures PrintLevels(OneThenZero()) == [0x81, 0x00]
  {
    var none, ib := Level(None, None, None, None), OneThenZero();
    var first, second := ib[0], ib[1];
    assert PrintLevel(none) == [] && PrintLevel(second) == [0x00] && PrintLevel(first) == [0x81];
    hide PrintLevel;
    PrintLevelsCons(none, []);
    PrintLevelsCons(second, [none]);
    PrintLevelsCons(first, [second, none]);
    assert [none] + [] == [none] && [second] + [none] == [second, none] && [first] + [second, none] == ib;
  }

  /** T=1 followed by T=0 drops back: this buffer is accepted, and read without a check byte. */
  lemma CheckByteMissedOutOfOrder()
    ensures var d: seq<Octet> := [0x3B, 0x80, 0x81, 0x00];
            && Parse(d).Some? && Parse(d).value.tck == None
            && AsksOther(Parse(d).value.ib) && DropsToZero(Parse(d).value.ib)
  {
    var a := Atr(0x3B, 0x80, OneThenZero(), [], None, 4);
    OneThenZeroDrops();
    OneThenZeroPrints();
    hide OneThenZero, PrintLevels, Chained, LastProtocol, AsksOther, EndsInZero, Parse;
    assert Print(a) + [] == [0x3B, 0x80, 0x81, 0x00];
    ParseOfPrinted(a, []);
  }

  /** Levels that are all there, counted until the chain ends or the buffer does. */
  function Depth(d: seq<Octet>, p: nat, td: Octet): nat
    decreases |d| - p
  {
    var q := p + Count(td);
    if q >= |d| then 0 else 1 + if HasTD(td) then Depth(d, q, d[q]) else 0
  }

  /** The reader is at `p` with levels `ib` behind it, and what is left completes the chain. */
  ghost predicate Remaining(d: seq<Octet>, ib: seq<Level>, p: nat, td: Octet, protocol: Octet) {
    && 2 <= |d| && p < |d|
    && (Complete(d, 1, d[1]) <==> Complete(d, p, td))
    && (Complete(d, p, td) ==>
          && Levels(d, 1, d[1]) == ib + Levels(d, p, td)
          && Last(d, 1, d[1]) == Last(d, p, td)
          && LastProtocol(Levels(d, 1, d[1]), 0) == LastProtocol(Levels(d, p, td), protocol))
  }

  lemma RemainingAtStart(d: seq<Octet>)
    requires 2 <= |d|
    ensures Remaining(d, [], 1, d[1], 0)
  {
    hide Levels, Last, LastProtocol;
    if Complete(d, 1, d[1]) {
      assert [] + Levels(d, 1, d[1]) == Levels(d, 1, d[1]);
    }
  }

  lemma RemainingFails(d: seq<Octet>, ib: seq<Level>, p: nat, td: Octet, protocol: Octet)
    requires Remaining(d, ib, p, td, protocol) && p + Count(td) >= |d|
    ensures !Complete(d, 1, d[1])
  {
    hide Levels, Last, LastProtocol, Count;
  }

  /** One step along the chain in terms of the levels left. */
  lemma LevelsStep(d: seq<Octet>, p: nat, td: Octet, protocol: Octet)
    requires p + Count(td) < |d|
    ensures var q, l := p + Count(td), LevelAt(d, p, td);
            if HasTD(td) then
              && (Complete(d, p, td) <==> Complete(d, q, d[q]))
              && (Complete(d, p, td) ==>
                    && Levels(d, p, td) == [l] + Levels(d, q, d[q])
                    && Last(d, p, td) == Last(d, q, d[q])
                    && LastProtocol(Levels(d, p, td), protocol) == LastProtocol(Levels(d, q, d[q]), d[q] & 0x0F))
            else
              && Complete(d, p, td)
              && Levels(d, p, td) == [l]
              && Last(d, p, td) == q
              && LastProtocol([l], protocol) == protocol
  {
    var q, l := p + Count(td), LevelAt(d, p, td);
    if HasTD(td) && Complete(d, p, td) {
      assert ([l] + Levels(d, q, d[q]))[1..] == Levels(d, q, d[q]);
    }
  }

  lemma JoinsOn(ib: seq<Level>, l: Level, rest: seq<Level>)
    ensures ib + ([l] + rest) == ib + [l] + rest && ib + [l] + [] == ib + [l] && [l] + [] == [l]
  {
  }

  lemma RemainingStep(d: seq<Octet>, ib: seq<Level>, p: nat, td: Octet, protocol: Octet)
    requires Remaining(d, ib, p, td, protocol) && p + Count(td) < |d|
    ensures var q, longer := p + Count(td), ib + [LevelAt(d, p, td)];
            if HasTD(td) then Remaining(d, longer, q, d[q], d[q] & 0x0F)
            else
              && Complete(d, 1, d[1]) && longer == Levels(d, 1, d[1])
              && q == Last(d, 1, d[1]) && protocol == LastProtocol(longer, 0)
  {
    hide Levels, Last, Complete, LastProtocol, LevelAt, Count, HasTD;
    LevelsStep(d, p, td, protocol);
    var q, l := p + Count(td), LevelAt(d, p, td);
    if HasTD(td) {
      if Complete(d, p, td) {
        JoinsOn(ib, l, Levels(d, q, d[q]));
      }
    } else {
      JoinsOn(ib, l, []);
    }
  }

  /** The printed form up to and without level `i`. */
  function PrintUpTo(a: Atr, i: nat): seq<Octet>
    requires i <= |a.ib|
  {
    [a.ts, a.t0] + PrintLevels(a.ib[..i])
  }

  lemma {:induction false} PrintLevelsSnoc(ib: seq<Level>, l: Level)
    ensures PrintLevels(ib + [l]) == PrintLevels(ib) + PrintLevel(l)
    decreases |ib|
  {
    hide PrintLevel;
    if ib == [] {
      assert ib + [l] == [l] && PrintLevels([l]) == PrintLevel(l) + PrintLevels([]);
    } else {
      assert (ib + [l])[1..] == ib[1..] + [l];
      PrintLevelsSnoc(ib[1..], l);
    }
  }

  lemma {:induction false} PrintLevelsPrefix(ib: seq<Level>, i: nat)
    requires i <= |ib|
    ensures |PrintLevels(ib[..i])| <= |PrintLevels(ib)|
    decreases |ib| - i
  {
    hide PrintLevel;
    if i == |ib| {
      assert ib[..i] == ib;
    } else {
      assert ib[..i] + [ib[i]] == ib[..i + 1];
      PrintLevelsSnoc(ib[..i], ib[i]);
      PrintLevelsPrefix(ib, i + 1);
    }
  }

  lemma PrintUpToStep(a: Atr, i: nat)
    requires i < |a.ib|
    ensures PrintUpTo(a, i + 1) == PrintUpTo(a, i) + PrintLevel(a.ib[i])
    ensures |PrintUpTo(a, i + 1)| <= |Print(a)|
  {
    hide PrintLevel, PrintLevels, Bytes;
    assert a.ib[..i] + [a.ib[i]] == a.ib[..i + 1];
    PrintLevelsSnoc(a.ib[..i], a.ib[i]);
    PrintLevelsPrefix(a.ib, i + 1);
  }

  lemma PrintUpToEnds(a: Atr)
    ensures PrintUpTo(a, 0) == [a.ts, a.t0]
    ensures Print(a) == PrintUpTo(a, |a.ib|) + a.hb + Bytes(a.tck)
    ensures |Print(a)| >= 2
  {
    hide PrintLevel, Bytes;
    assert a.ib[..|a.ib|] == a.ib && a.ib[..0] == [];
  }

  method Put(buffer: array<Octet>, start: nat, bytes: seq<Octet>) returns (n: nat)
    requires start + |bytes| <= buffer.Length
    modifies buffer
    ensures n == start + |bytes| && buffer[..n] == old(buffer[..start]) + bytes
    ensures forall k | n <= k < buffer.Length :: buffer[k] == old(buffer[k])
  {
    for k := 0 to |bytes|
      invariant buffer[..start + k] == old(buffer[..start]) + bytes[..k]
      invariant forall j | start + k <= j < buffer.Length :: buffer[j] == old(buffer[j])
    {
      buffer[start + k] := bytes[k];
    }
    n := start + |bytes|;
  }

  method PutOption(buffer: array<Octet>, start: nat, o: Option<Octet>) returns (n: nat)
    requires start + |Bytes(o)| <= buffer.Length
    modifies buffer
    ensures n == start + |Bytes(o)| && buffer[..n] == old(buffer[..start]) + Bytes(o)
    ensures forall k | n <= k < buffer.Length :: buffer[k] == old(buffer[k])
  {
    n := start;
    if o.Some? {
      buffer[n] := o.value;
      n := n + 1;
    }
  }

  method PutLevel(buffer: array<Octet>, start: nat, l: Level) returns (n: nat)
    requires start + |PrintLevel(l)| <= buffer.Length
    modifies buffer
    ensures n == start + |PrintLevel(l)| && buffer[..n] == old(buffer[..start]) + PrintLevel(l)
    ensures forall k | n <= k < buffer.Length :: buffer[k] == old(buffer[k])
  {
    hide Bytes;
    ghost var before := buffer[..start];
    n := PutOption(buffer, start, l.ta);
    n := PutOption(buffer, n, l.tb);
    n := PutOption(buffer, n, l.tc);
    n := PutOption(buffer, n, l.td);
    assert buffer[..n] == before + Bytes(l.ta) + Bytes(l.tb) + Bytes(l.tc) + Bytes(l.td);
    assert buffer[..n] == before + (Bytes(l.ta) + Bytes(l.tb) + Bytes(l.tc) + Bytes(l.td));
  }

  /** Takes the buffer as it is, or turns the inverse convention round byte by byte. */
  method DecodeBuffer(raw: seq<Octet>) returns (buffer: seq<Octet>)
    requires |raw| > 0
    ensures buffer == Decoded(raw) && |buffer| == |raw|
    ensures raw[0] != 3 ==> buffer == raw
    ensures raw[0] == 3 ==> forall j | 0 <= j < |raw| :: buffer[j] == Inverse(raw[j])
  {

    if raw[0] != 0x03 {
      return raw;
    }
    buffer := [];
    for k := 0 to |raw|
      invariant |buffer| == k && forall j | 0 <= j < k :: buffer[j] == Inverse(raw[j])
    {
      buffer := buffer + [Inverse(raw[k])];
    }
  }

  /** Reads the bytes that `td` announces, one after the other. */
  method ReadLevel(buffer: seq<Octet>, start: nat, td: Octet) returns (level: Level, pointer: nat)
    requires start + Count(td) < |buffer|
    ensures var a, b, c, d := td as int / 16 % 2, td as int / 32 % 2, td as int / 64 % 2, td as int / 128 % 2;
            && pointer == start + a + b + c + d < |buffer|
            && level.ta == (if a == 1 then Some(buffer[start + 1]) else None)
            && level.tb == (if b == 1 then Some(buffer[start + a + 1]) else None)
            && level.tc == (if c == 1 then Some(buffer[start + a + b + 1]) else None)
            && level.td == (if d == 1 then Some(buffer[start + a + b + c + 1]) else None)
    ensures level == LevelAt(buffer, start, td) && pointer == start + Count(td)
    ensures HasTD(td) ==> level.td == Some(buffer[pointer]) && start < pointer
    ensures !HasTD(td) ==> level.td == None
  {
    BitsAnnounce(td);
    pointer := start;
    var ta, tb, tc, bd := None, None, None, None;
    if td | 0xEF == 0xFF {
      pointer := pointer + 1;
      ta := Some(buffer[pointer]);
    }
    if td | 0xDF == 0xFF {
      pointer := pointer + 1;
      tb := Some(buffer[pointer]);
    }
    if td | 0xBF == 0xFF {
      pointer := pointer + 1;
      tc := Some(buffer[pointer]);
    }
    if td | 0x7F == 0xFF {
      pointer := pointer + 1;
      bd := Some(buffer[pointer]);
    }
    level := Level(ta, tb, tc, bd);
  }

  /** The record the driver fills in. */
  class AtrRecord {
    var ts: Octet
    var t0: Octet
    var ib: seq<Level>
    var hb: seq<Octet>
    var tck: Option<Octet>
    var length: nat

    constructor ()
    {
      ts, t0, ib, hb, tck, length := 0, 0, [], [], None, 0;
    }

    function Value(): Atr
      reads this
    {
      Atr(ts, t0, ib, hb, tck, length)
    }

    /** A single level must name a clock rate and a programming voltage that exist. */
    method CheckFirstLevel() returns (status: Status)
      ensures status == Ok <==> Allowed(Value())
      ensures status == Ok <==> |ib| == 1 ==>
                && (ib[0].ta.Some? ==> ib[0].ta.value as int / 16 !in {7, 8, 14, 15})
                && (ib[0].tb.Some? ==> ib[0].tb.value as int <= 128)
    {
      if |ib| == 1 && ib[0].ta.Some? {
        HalvesAre(ib[0].ta.value);
      }
      if |ib| == 1 && ib[0].ta.Some? && Fs((ib[0].ta.value & 0xF0) >> 4) == 0 {
        return Malformed;
      }
      if |ib| == 1 && ib[0].tb.Some? && ib[0].tb.value > 0x80 {
        return Malformed;
      }
      return Ok;
    }

    /** Fills in the interface bytes, level by level. */
    method ReadLevels(buffer: seq<Octet>) returns (complete: bool, pointer: nat, protocol: Octet)
      requires |buffer| >= 2
      modifies this`ib
      ensures complete <==> Complete(buffer, 1, buffer[1])
      ensures complete ==>
                && ib == Levels(buffer, 1, buffer[1])
                && pointer == Last(buffer, 1, buffer[1])
                && protocol == LastProtocol(ib, 0)
    {
      hide Remaining, Levels, Last, Complete, LastProtocol, LevelAt, Count, NumIb, HasTD;
      var td := buffer[1];
      pointer, protocol, ib := 1, 0, [];
      complete := true;
      RemainingAtStart(buffer);
      while true
        invariant pointer < |buffer|
        invariant Remaining(buffer, ib, pointer, td, protocol)
        decreases |buffer| - pointer
      {
        TableCountsBits(td);
        if pointer + NumIb((td & 0xF0) >> 4) >= |buffer| {
          RemainingFails(buffer, ib, pointer, td, protocol);
          return false, pointer, protocol;
        }
        RemainingStep(buffer, ib, pointer, td, protocol);
        var level;
        level, pointer := ReadLevel(buffer, pointer, td);
        ib := ib + [level];
        if level.td.None? {
          return;
        }
        td := level.td.value;
        protocol := td & 0x0F;
      }
    }

    /** Fills in all the fields, or stops where the answer is malformed. */
    method Fill(raw: seq<Octet>) returns (status: Status)
      requires |raw| <= MAX_SIZE
      requires var d := Decoded(raw); |d| >= 2 ==> Depth(d, 1, d[1]) <= MAX_PROTOCOLS
      modifies this
      ensures status == Ok <==> Parse(Decoded(raw)).Some?
      ensures status == Ok ==> Parse(Decoded(raw)) == Some(Value())
      ensures status == Ok && |ib| == 1 ==>
                && (ib[0].ta.Some? ==> ib[0].ta.value as int / 16 !in {7, 8, 14, 15})
                && (ib[0].tb.Some? ==> ib[0].tb.value as int <= 128)
    {
      hide Levels, Last, Complete, LastProtocol, Hbn, Fs, Depth, Allowed;
      if |raw| < 2 {
        return Malformed;
      }
      var buffer := DecodeBuffer(raw);
      assert |buffer| == |raw|;
      hide Decoded;
      ts, t0 := buffer[0], buffer[1];
      var complete, pointer, protocol := ReadLevels(buffer);
      if !complete || pointer + Hbn(t0) >= |buffer| {
        return Malformed;
      }
      hb := buffer[pointer + 1..pointer + 1 + Hbn(t0)];
      pointer := pointer + Hbn(t0);
      tck := None;
      if protocol != 0 {
        if pointer + 1 >= |buffer| {
          return Malformed;
        }
        pointer := pointer + 1;
        tck := Some(buffer[pointer]);
      }
      length := pointer + 1;
      status := CheckFirstLevel();
    }

    /** Reads an answer from a buffer. */
    method InitFromArray(raw: seq<Octet>) returns (status: Status)
      requires |raw| <= MAX_SIZE
      requires var d := Decoded(raw); |d| >= 2 ==> Depth(d, 1, d[1]) <= MAX_PROTOCOLS
      modifies this
      ensures status == Ok <==> Parse(Decoded(raw)).Some?
      ensures status == Ok ==> Parse(Decoded(raw)) == Some(Value())
      ensures status == Ok ==>
                && 2 <= length <= |raw| && Print(Value()) == Decoded(raw)[..length]
                && |hb| == t0 as int % 16 && Marked(t0 as int, ib)
                && (tck.Some? <==> |ib| > 1 && ib[|ib| - 2].td.value as int % 16 != 0)
      ensures status == Ok && |ib| == 1 ==>
                && (ib[0].ta.Some? ==> ib[0].ta.value as int / 16 !in {7, 8, 14, 15})
                && (ib[0].tb.Some? ==> ib[0].tb.value as int <= 128)
    {
      hide Parse, Print, Marked, Depth;
      status := Fill(raw);
      if status == Ok {
        ParsedMeans(Decoded(raw), Value());
      }
    }

    /** Prints the record into a buffer. */
    method GetRaw(buffer: array<Octet>) returns (n: nat)
      requires |Print(Value())| <= buffer.Length
      modifies buffer
      ensures n == |Print(Value())| && buffer[..n] == Print(Value())
      ensures forall k | n <= k < buffer.Length :: buffer[k] == old(buffer[k])
    {
      hide Print, PrintLevels, PrintLevel, Bytes;
      PrintUpToEnds(Value());
      buffer[0], buffer[1] := ts, t0;
      n := 2;
      var i := 0;
      while i < |ib|
        invariant i <= |ib| && n == |PrintUpTo(Value(), i)| <= buffer.Length
        invariant buffer[..n] == PrintUpTo(Value(), i)
        invariant forall k | n <= k < buffer.Length :: buffer[k] == old(buffer[k])
      {
        PrintUpToStep(Value(), i);
        n := PutLevel(buffer, n, ib[i]);
        i := i + 1;
      }
      if |hb| > 0 {
        n := Put(buffer, n, hb);
      }
      n := PutOption(buffer, n, tck);
    }
  }

  /** A buffer in the inverse convention reads as the bytes it stands for. */
  lemma InverseBufferReadsAsDecoded(raw: seq<Octet>)
    requires |raw| > 0 && raw[0] == 3
    ensures Decoded(raw)[0] == 0x3F && Decoded(Decoded(raw)) == Decoded(raw)
    ensures InverseAll(InverseAll(raw)) == raw
  {
    InverseIsInvolution(raw[0]);
    var d := InverseAll(raw);
    forall k | 0 <= k < |raw| ensures InverseAll(d)[k] == raw[k] {
      InverseIsInvolution(raw[k]);
    }
  }
}
