/** Which compressor packs a block, and what the caller gets back. */
module CompressPolicy {
  import opened Common
  import opened Rtime
  import opened CompressorRegistry

  /** Type stored with data that is kept as it is. */
  const COMPR_NONE: nat := 0

  datatype Mode = ModeNone | ModePriority | ModeSize | ModeUnknown

  /** Data and space that every compressor can take: positions fit 16 bits, and one pair fits. */
  predicate Fits(data: seq<Byte>, room: nat) {
    |data| < 0x8000 && 2 <= room
  }

  /** What an outcome promises about the data it was made from. */
  predicate Faithful(o: Outcome, decompress: (seq<Byte>, nat) -> seq<Byte>, data: seq<Byte>, room: nat) {
    match o
    case Failed(scratch) => |scratch| <= room
    case Packed(used, output) =>
      0 < |output| <= room && used <= |data| && decompress(output, used) == data[..used]
  }

  /** What compressor `c` makes of the data when it is asked. */
  function Ask(c: Compressor, data: seq<Byte>, room: nat): Outcome
    requires c.compress.Some?
  {
    c.compress.value(data, room)
  }

  ghost predicate Honest(c: Compressor) {
    && c.compr != COMPR_NONE
    && (c.compress.Some? ==>
          forall data: seq<Byte>, room: nat | Fits(data, room) ::
            Faithful(Ask(c, data, room), c.decompress, data, room))
  }

  /** The rtime codec as a compressor. */
  function RtimeCompress(data: seq<Byte>, room: nat): Outcome {
    var e := Encode(data, room);
    if e.used <= |e.codes| then Failed(e.codes) else Packed(e.used, e.codes)
  }

  function RtimeDecompress(output: seq<Byte>, used: nat): seq<Byte> {
    Decode(output)
  }

  lemma RtimeIsHonest(c: Compressor)
    requires c.compr != COMPR_NONE
    requires c.compress == Some(RtimeCompress) && c.decompress == RtimeDecompress
    ensures Honest(c)
  {
    forall data: seq<Byte>, room: nat | Fits(data, room)
      ensures Faithful(Ask(c, data, room), c.decompress, data, room)
    {
      RoundTrip(data, room);
      var e := Encode(data, room);
      assert e.codes == [] ==> Decode(e.codes) == [];
    }
  }

  /** Running the codec is what this outcome says. */
  method RunRtime(data: seq<Byte>, output: array<Byte>, room: nat) returns (ret: int, used: nat, size: nat)
    requires Fits(data, room) && room <= output.Length
    modifies output
    ensures ret == 0 || ret == -1
    ensures ret == 0 ==> size <= room && RtimeCompress(data, room) == Packed(used, output[..size]) && size < used
    ensures ret == -1 ==> RtimeCompress(data, room).Failed?
  {
    ret, used, size := Rtime.Compress(data, output, room);
  }

  predicate Usable(c: Compressor)
    reads c
  {
    c.compress.Some? && !c.disabled
  }

  predicate Packs(c: Compressor, data: seq<Byte>, room: nat)
    reads c
  {
    Usable(c) && Ask(c, data, room).Packed?
  }

  /** What a reader makes of a stored block: the compressor with that type decodes it. */
  ghost predicate Reads(ring: seq<Compressor>, ret: nat, output: seq<Byte>, used: nat, data: seq<Byte>) {
    if ret == COMPR_NONE then used <= |output| && output[..used] == data
    else forall c | c in ring && c.compr == ret :: c.decompress(output, used) == data
  }

  method CopyInto(buf: array<Byte>, src: seq<Byte>)
    requires |src| <= buf.Length
    modifies buf
    ensures buf[..|src|] == src
  {
    for k := 0 to |src|
      invariant buf[..k] == src[..k]
    {
      buf[k] := src[k];
    }
  }

  /** Runs one compressor into a buffer. */
  method Run(c: Compressor, data: seq<Byte>, buf: array<Byte>, room: nat) returns (ok: bool, used: nat, size: nat)
    requires c.compress.Some? && Faithful(Ask(c, data, room), c.decompress, data, room) && room <= buf.Length
    modifies buf
    ensures ok <==> Ask(c, data, room).Packed?
    ensures ok ==> size <= buf.Length && Ask(c, data, room) == Packed(used, buf[..size])
  {
    match Ask(c, data, room) {
      case Failed(scratch) =>
        CopyInto(buf, scratch);
        return false, 0, 0;
      case Packed(u, output) =>
        CopyInto(buf, output);
        return true, u, |output|;
    }
  }

  /** Position of the first compressor that packs the data; the length of the list if none does. */
  ghost function FirstPacking(ring: seq<Compressor>, data: seq<Byte>, room: nat): (k: nat)
    reads ring
    ensures k <= |ring| && (k < |ring| ==> Packs(ring[k], data, room))
    ensures forall j | 0 <= j < k :: !Packs(ring[j], data, room)
    ensures k < |ring| ==>
              ring[k].compress.Some? && !ring[k].disabled && ring[k].compress.value(data, room).Packed?
    ensures forall j | 0 <= j < k ::
              ring[j].disabled || ring[j].compress.None? || ring[j].compress.value(data, room).Failed?
  {
    if ring == [] || Packs(ring[0], data, room) then 0 else 1 + FirstPacking(ring[1..], data, room)
  }

  lemma FirstPackingIs(ring: seq<Compressor>, data: seq<Byte>, room: nat, k: nat)
    requires k <= |ring| && (k < |ring| ==> Packs(ring[k], data, room))
    requires forall j | 0 <= j < k :: !Packs(ring[j], data, room)
    ensures FirstPacking(ring, data, room) == k
  {
  }

  /** Priority mode: the first usable compressor in list order that succeeds. */
  method ByPriority(reg: Registry, data: seq<Byte>, room: nat)
    returns (best: Compressor?, output: array<Byte>, used: nat, size: nat)
    requires reg.Valid() && Fits(data, room) && forall c | c in reg.ring :: Honest(c)
    ensures fresh(output)
    ensures var k := FirstPacking(reg.ring, data, room);
            if k == |reg.ring| then best == null
            else best == reg.ring[k] && size <= output.Length && Ask(best, data, room) == Packed(used, output[..size])
  {
    output := new Byte[room](_ => 0);
    best, used, size := null, 0, 0;
    ghost var ring, nexts := reg.ring, reg.Nexts();
    var c := reg.head.next;
    ghost var k := 0;
    while c != reg.head
      invariant k <= |ring| && c == nexts[k]
      invariant forall j | 0 <= j < k :: !Packs(ring[j], data, room)
      decreases |ring| - k
    {
      assert c == ring[k] && c in ring && ring[k].next == nexts[k + 1];
      if c.compress.Some? && !c.disabled {
        var ok, u, n := Run(c, data, output, room);
        if ok {
          FirstPackingIs(ring, data, room, k);
          return c, output, u, n;
        }
      }
      c, k := c.next, k + 1;
    }
    FirstPackingIs(ring, data, room, k);
  }

  /** Room for the output: kept from an earlier call when large enough, else from memory. */
  predicate HasRoom(c: Compressor, room: nat, memory: bool)
    reads c
  {
    memory || (c.buf != null && c.bufSize >= room)
  }

  /** Kept buffers are as large as noted, belong to one compressor each and are not the input. */
  ghost predicate BuffersApart(ring: seq<Compressor>, input: array<Byte>)
    reads ring
  {
    && (forall c | c in ring && c.buf != null :: c.bufSize <= c.buf.Length && c.buf != input)
    && (forall j, k | 0 <= j < k < |ring| && ring[j].buf != null :: ring[j].buf != ring[k].buf)
  }

  lemma OthersApart(ring: seq<Compressor>, k: nat)
    requires k < |ring| && ring[k].buf != null
    requires forall i, j | 0 <= i < j < |ring| && ring[i].buf != null :: ring[i].buf != ring[j].buf
    ensures forall c | c in ring && c != ring[k] :: c.buf != ring[k].buf
  {
  }

  /** Output of the best compressor among the first `n` that take part; None when none packs. */
  ghost function Best(ring: seq<Compressor>, n: nat, takesPart: seq<bool>, data: seq<Byte>, room: nat): (b: Option<nat>)
    requires n <= |ring| == |takesPart|
    requires forall k | 0 <= k < |ring| && takesPart[k] :: ring[k].compress.Some?
    ensures b.Some? ==> b.value < n && takesPart[b.value] && Ask(ring[b.value], data, room).Packed?
  {
    if n == 0 then None
    else
      var before := Best(ring, n - 1, takesPart, data, room);
      if !takesPart[n - 1] || Ask(ring[n - 1], data, room).Failed? then before
      else if before.None? || |Ask(ring[before.value], data, room).output| > |Ask(ring[n - 1], data, room).output|
      then Some(n - 1)
      else before
  }

  /** The best output is the smallest of all, and the first of that size. */
  lemma {:induction false} BestIsSmallest(ring: seq<Compressor>, n: nat, takesPart: seq<bool>, data: seq<Byte>,
                                          room: nat, k: nat)
    requires n <= |ring| == |takesPart|
    requires forall k | 0 <= k < |ring| && takesPart[k] :: ring[k].compress.Some?
    requires k < n && takesPart[k] && Ask(ring[k], data, room).Packed?
    ensures var b := Best(ring, n, takesPart, data, room);
            && b.Some?
            && |Ask(ring[b.value], data, room).output| <= |Ask(ring[k], data, room).output|
            && (k < b.value ==> |Ask(ring[b.value], data, room).output| < |Ask(ring[k], data, room).output|)
    decreases n
  {
    if k < n - 1 {
      BestIsSmallest(ring, n - 1, takesPart, data, room, k);
    }
  }

  ghost function Kept(ring: seq<Compressor>): set<array<Byte>>
    reads ring
  {
    set c | c in ring && c.buf != null :: c.buf
  }

  /** Which compressors size mode runs: usable ones that have or get a buffer. */
  ghost function TakesPart(ring: seq<Compressor>, room: nat, memory: nat -> bool): (t: seq<bool>)
    reads ring
    ensures |t| == |ring|
    ensures forall k | 0 <= k < |ring| :: t[k] <==> Usable(ring[k]) && HasRoom(ring[k], room, memory(k))
  {
    seq(|ring|, k requires 0 <= k < |ring| reads ring => Usable(ring[k]) && HasRoom(ring[k], room, memory(k)))
  }

  /** Size mode for one compressor: a kept buffer that is too small is replaced, and without
      memory for a new one the compressor is passed over. */
  method TryOne(c: Compressor, data: seq<Byte>, room: nat, memory: bool)
    returns (took: bool, ok: bool, used: nat, size: nat)
    requires c.compress.Some? && Faithful(Ask(c, data, room), c.decompress, data, room)
    requires c.buf != null ==> c.bufSize <= c.buf.Length
    modifies c`buf, c`bufSize, if c.buf == null then {} else {c.buf}
    ensures took <==> old(HasRoom(c, room, memory))
    ensures !took ==> c.buf == null && !ok
    ensures c.buf != null ==> c.bufSize <= c.buf.Length && (c.buf == old(c.buf) || fresh(c.buf))
    ensures took ==> c.buf != null && (ok <==> Ask(c, data, room).Packed?)
    ensures ok ==> size <= c.buf.Length && Ask(c, data, room) == Packed(used, c.buf[..size])
  {
    if c.bufSize < room && c.buf != null {
      c.buf, c.bufSize := null, 0;
    }
    if c.buf == null {
      if !memory {
        return false, false, 0, 0;
      }
      c.buf := new Byte[room](_ => 0);
      c.bufSize := room;
    }
    took := true;
    ok, used, size := Run(c, data, c.buf, room);
  }

  /** `best` holds the best output so far in its own buffer. */
  ghost predicate Holds(ring: seq<Compressor>, b: Option<nat>, best: Compressor?, data: seq<Byte>, room: nat,
                        used: nat, size: nat)
    reads ring, if best == null || best.buf == null then {} else {best.buf}, if best == null then {} else {best}
  {
    match b
    case None => best == null
    case Some(k) =>
      && k < |ring| && best == ring[k] && best.compress.Some?
      && best.buf != null && size <= best.buf.Length
      && Ask(best, data, room) == Packed(used, best.buf[..size])
  }

  /** `b` is the best of the first `k`, and `best` holds its output. */
  ghost predicate SoFar(ring: seq<Compressor>, k: nat, parts: seq<bool>, data: seq<Byte>, room: nat,
                        b: Option<nat>, best: Compressor?, used: nat, size: nat)
    reads ring, if best == null || best.buf == null then {} else {best.buf}, if best == null then {} else {best}
  {
    && k <= |ring| == |parts|
    && (forall j | 0 <= j < |ring| && parts[j] :: ring[j].compress.Some?)
    && b == Best(ring, k, parts, data, room)
    && Holds(ring, b, best, data, room, used, size)
  }

  /** Size mode for the `k`-th compressor of the list, keeping the best output so far. */
  method Consider(ghost ring: seq<Compressor>, ghost k: nat, ghost parts: seq<bool>, c: Compressor, input: array<Byte>,
                  room: nat, memory: bool, best: Compressor?, used: nat, size: nat, ghost b: Option<nat>,
                  ghost data: seq<Byte>)
    returns (best': Compressor?, used': nat, size': nat, ghost b': Option<nat>)
    requires k < |ring| == |parts| && Distinct(ring) && ring[k] == c && Honest(c)
    requires Fits(data, room) && data == input[..]
    requires BuffersApart(ring, input)
    requires parts[k] <==> Usable(c) && HasRoom(c, room, memory)
    requires SoFar(ring, k, parts, data, room, b, best, used, size)
    modifies c`buf, c`bufSize, if c.buf == null then {} else {c.buf}
    ensures BuffersApart(ring, input) && input[..] == data
    ensures SoFar(ring, k + 1, parts, data, room, b', best', used', size')
  {
    best', used', size', b' := best, used, size, b;
    if c.compress.Some? && !c.disabled {
      assert best != null ==> best != c && best.buf != c.buf && best in ring;
      var took, ok, u, n := TryOne(c, input[..], room, memory);
      assert input[..] == data;
      assert Holds(ring, b, best, data, room, used, size);
      if ok && (best == null || size > n) {
        best', used', size', b' := c, u, n, Some(k);
      }
    }
  }

  /** Everyone from the `k`-th on is as it was when `parts` was noted. */
  ghost predicate Pending(ring: seq<Compressor>, k: nat, parts: seq<bool>, room: nat, memory: nat -> bool,
                          kept: set<array<Byte>>)
    requires |parts| == |ring|
    reads ring
  {
    forall j | k <= j < |ring| ::
      && (parts[j] <==> Usable(ring[j]) && HasRoom(ring[j], room, memory(j)))
      && (ring[j].buf != null ==> ring[j].buf in kept)
  }

  /** As Consider, and the rest of the list is as it was noted. */
  method ConsiderNext(ghost ring: seq<Compressor>, k: nat, ghost parts: seq<bool>, c: Compressor, input: array<Byte>,
                      room: nat, memory: nat -> bool, best: Compressor?, used: nat, size: nat, ghost b: Option<nat>,
                      ghost data: seq<Byte>, ghost kept: set<array<Byte>>)
    returns (best': Compressor?, used': nat, size': nat, ghost b': Option<nat>)
    requires k < |ring| == |parts| && Distinct(ring) && ring[k] == c && Honest(c)
    requires Fits(data, room) && data == input[..]
    requires BuffersApart(ring, input)
    requires Pending(ring, k, parts, room, memory, kept)
    requires SoFar(ring, k, parts, data, room, b, best, used, size)
    modifies c`buf, c`bufSize, if c.buf == null then {} else {c.buf}
    ensures BuffersApart(ring, input) && input[..] == data
    ensures Pending(ring, k + 1, parts, room, memory, kept)
    ensures SoFar(ring, k + 1, parts, data, room, b', best', used', size')
  {
    hide Honest, Fits, SoFar, BuffersApart;
    best', used', size', b' := Consider(ring, k, parts, c, input, room, memory(k), best, used, size, b, data);
  }

  /** Size mode's loop over the list. */
  method SmallestSoFar(head: Compressor, ghost ring: seq<Compressor>, ghost nexts: seq<Compressor>, input: array<Byte>,
                       room: nat, memory: nat -> bool, ghost members: set<Compressor>, ghost kept: set<array<Byte>>,
                       ghost parts: seq<bool>, ghost data: seq<Byte>)
    returns (best: Compressor?, used: nat, size: nat, ghost b: Option<nat>)
    requires nexts == ring + [head] && head.next == nexts[0] && head !in ring && Distinct(ring)
    requires forall k {:trigger ring[k].next} | 0 <= k < |ring| :: ring[k].next == nexts[k + 1]
    requires Fits(data, room) && data == input[..]
    requires |parts| == |ring| && Pending(ring, 0, parts, room, memory, kept)
    requires forall c | c in ring :: Honest(c) && c in members
    requires BuffersApart(ring, input)
    modifies members`buf, members`bufSize, kept
    ensures BuffersApart(ring, input) && input[..] == data
    ensures SoFar(ring, |ring|, parts, data, room, b, best, used, size)
  {
    var c := head.next;
    var k := 0;
    best, used, size, b := null, 0, 0, None;
    assert SoFar(ring, 0, parts, data, room, b, best, used, size);
    hide Honest, Fits, SoFar, BuffersApart, Distinct;
    while c != head
      invariant k <= |ring| && c == nexts[k]
      invariant BuffersApart(ring, input) && input[..] == data
      invariant Pending(ring, k, parts, room, memory, kept)
      invariant SoFar(ring, k, parts, data, room, b, best, used, size)
      decreases |ring| - k
    {
      ghost var next := nexts[k + 1];
      assert c == ring[k] && c in ring && c.next == old(c.next) == next;
      best, used, size, b := ConsiderNext(ring, k, parts, c, input, room, memory, best, used, size, b, data, kept);
      assert c.next == next;
      c, k := c.next, k + 1;
    }
  }

  /** Finds the smallest output and takes its buffer away from its compressor. */
  method TakeSmallest(reg: Registry, input: array<Byte>, room: nat, memory: nat -> bool)
    returns (best: Compressor?, output: array?<Byte>, used: nat, size: nat)
    requires reg.Valid() && Fits(input[..], room) && forall c | c in reg.ring :: Honest(c)
    requires BuffersApart(reg.ring, input)
    modifies reg.Members()`buf, reg.Members()`bufSize, Kept(reg.ring)
    ensures BuffersApart(reg.ring, input)
    ensures var b := Best(reg.ring, |reg.ring|, old(TakesPart(reg.ring, room, memory)), input[..], room);
            if b.None? then best == null && output == null
            else
              && best == reg.ring[b.value]
              && output != null && output != input && size <= output.Length
              && Ask(best, input[..], room) == Packed(used, output[..size])
              && (forall c | c in reg.ring :: c.buf != output)
    ensures input[..] == old(input[..])
  {
    hide Best, TakesPart, Fits, Ask, Honest;
    ghost var b;
    best, used, size, b := SmallestSoFar(reg.head, reg.ring, reg.Nexts(), input, room, memory, reg.Members(),
                                           Kept(reg.ring), TakesPart(reg.ring, room, memory), input[..]);
    output := null;
    if best != null {
      assert best in reg.ring;
      output := best.buf;
      OthersApart(reg.ring, b.value);
      best.buf, best.bufSize := null, 0;
    }
  }

  /** Size mode: the compressor with the smallest output, the first of several. */
  method BySize(reg: Registry, input: array<Byte>, room: nat, memory: nat -> bool)
    returns (best: Compressor?, output: array?<Byte>, used: nat, size: nat)
    requires reg.Valid() && Fits(input[..], room) && forall c | c in reg.ring :: Honest(c)
    requires BuffersApart(reg.ring, input)
    modifies reg.Members()`buf, reg.Members()`bufSize, Kept(reg.ring)
    ensures reg.Valid() && BuffersApart(reg.ring, input)
    ensures var b := Best(reg.ring, |reg.ring|, old(TakesPart(reg.ring, room, memory)), input[..], room);
            if b.None? then best == null && output == null
            else
              && best == reg.ring[b.value]
              && output != null && output != input && size <= output.Length
              && Ask(best, input[..], room) == Packed(used, output[..size])
              && (forall c | c in reg.ring :: c.buf != output)
    ensures input[..] == old(input[..])
  {
    ghost var circle := reg.Circle();
    best, output, used, size := TakeSmallest(reg, input, room, memory);
    assert forall k {:trigger circle[k].next} | 0 <= k < |circle| - 1 :: circle[k].next == old(circle[k].next);
    assert forall k {:trigger circle[k].prev} | 1 <= k < |circle| :: circle[k].prev == old(circle[k].prev);
  }

  /** The compressor whose output is returned, if any. */
  ghost function Winner(mode: Mode, ring: seq<Compressor>, data: seq<Byte>, room: nat, memory: nat -> bool)
    : (w: Option<nat>)
    reads ring
    ensures w.Some? ==> w.value < |ring| && ring[w.value].compress.Some?
  {
    match mode
    case ModePriority =>
      var k := FirstPacking(ring, data, room);
      if memory(0) && k < |ring| then Some(k) else None
    case ModeSize => Best(ring, |ring|, TakesPart(ring, room, memory), data, room)
    case _ => None
  }

  /** The winner, mode by mode: a compressor that is not disabled and packs the data; in priority mode the first of
      them, if there is memory; in size mode the first of those with the smallest output, among the ones that keep a
      buffer large enough or get a new one; in other modes none. */
  lemma WinnerIs(mode: Mode, ring: seq<Compressor>, data: seq<Byte>, room: nat, memory: nat -> bool)
    ensures var w := Winner(mode, ring, data, room, memory);
            w.Some? ==>
              && w.value < |ring| && ring[w.value].compress.Some? && !ring[w.value].disabled
              && ring[w.value].compress.value(data, room).Packed?
    ensures var w := Winner(mode, ring, data, room, memory);
            match mode
            case ModePriority =>
              && (!memory(0) ==> w.None?)
              && (memory(0) ==> forall j | 0 <= j < if w.Some? then w.value else |ring| ::
                    ring[j].disabled || ring[j].compress.None? || ring[j].compress.value(data, room).Failed?)
            case ModeSize =>
              && (w.Some? ==> memory(w.value) || (ring[w.value].buf != null && ring[w.value].bufSize >= room))
              && forall j | 0 <= j < |ring| ::
                   || ring[j].disabled || ring[j].compress.None? || ring[j].compress.value(data, room).Failed?
                   || !(memory(j) || (ring[j].buf != null && ring[j].bufSize >= room))
                   || (w.Some? &&
                       var best, other := |ring[w.value].compress.value(data, room).output|,
                                          |ring[j].compress.value(data, room).output|;
                       best < other || (best == other && w.value <= j))
            case _ => w.None?
  {
    hide Best;
    if mode == ModeSize {
      var parts := TakesPart(ring, room, memory);
      forall j | 0 <= j < |ring| && parts[j] && Ask(ring[j], data, room).Packed? {
        BestIsSmallest(ring, |ring|, parts, data, room, j);
      }
    }
  }

  /** No two compressors share a type. */
  predicate TypesDiffer(ring: seq<Compressor>) {
    forall j, k | 0 <= j < k < |ring| :: ring[j].compr != ring[k].compr
  }

  /** A winner's output reads back as the data it took, whoever looks the type up. */
  lemma WinnerReadsBack(ring: seq<Compressor>, k: nat, data: seq<Byte>, room: nat, used: nat, output: seq<Byte>)
    requires k < |ring| && Honest(ring[k]) && TypesDiffer(ring) && Fits(data, room)
    requires ring[k].compress.Some? && Ask(ring[k], data, room) == Packed(used, output)
    ensures ring[k].compr != COMPR_NONE && 0 < |output| <= room && used <= |data|
    ensures Reads(ring, ring[k].compr, output, used, data[..used])
  {
    assert Faithful(Ask(ring[k], data, room), ring[k].decompress, data, room);
    forall c | c in ring && c.compr == ring[k].compr ensures c.decompress(output, used) == data[..used] {
      var j :| 0 <= j < |ring| && ring[j] == c;
    }
  }

  /** The modes that run compressors; the others leave the data alone. */
  predicate Runs(mode: Mode) {
    mode == ModePriority || mode == ModeSize
  }

  /** The switch over the modes. */
  method Choose(reg: Registry, mode: Mode, input: array<Byte>, room: nat, memory: nat -> bool)
    returns (best: Compressor?, output: array<Byte>, used: nat, size: nat)
    requires reg.Valid() && (Runs(mode) ==> Fits(input[..], room)) && forall c | c in reg.ring :: Honest(c)
    requires BuffersApart(reg.ring, input)
    modifies reg.Members()`buf, reg.Members()`bufSize, Kept(reg.ring)
    ensures reg.Valid() && BuffersApart(reg.ring, input) && input[..] == old(input[..])
    ensures forall c | c in reg.ring :: c.buf != output
    ensures match old(Winner(mode, reg.ring, input[..], room, memory))
            case None => best == null
            case Some(k) =>
              && best == reg.ring[k]
              && size <= output.Length && Ask(best, input[..], room) == Packed(used, output[..size])
  {
    best, output, used, size := null, input, 0, 0;
    if mode == ModePriority && memory(0) {
      best, output, used, size := ByPriority(reg, input[..], room);
    } else if mode == ModeSize {
      var buffer;
      best, buffer, used, size := BySize(reg, input, room, memory);
      if buffer != null {
        output := buffer;
      }
    }
  }

  /** Packs the data, or hands the input itself back with type 0 and the size of the space: that
      is a readable prefix exactly when the space is no larger than the data. */
  method Compress(reg: Registry, mode: Mode, input: array<Byte>, room: nat, memory: nat -> bool)
    returns (ret: nat, output: array<Byte>, used: nat, size: nat, ghost who: Option<nat>)
    requires reg.Valid() && (Runs(mode) ==> Fits(input[..], room))
    requires TypesDiffer(reg.ring) && forall c | c in reg.ring :: Honest(c)
    requires BuffersApart(reg.ring, input)
    modifies reg.Members()`buf, reg.Members()`bufSize, Kept(reg.ring)
    ensures reg.Valid() && BuffersApart(reg.ring, input) && input[..] == old(input[..])
    ensures forall c | c in reg.ring :: c.buf != output
    ensures ret != 0 <==> who.Some?
    ensures who.None? ==> output == input && used == size == room
    ensures who.Some? ==>
              && who.value < |reg.ring| && ret == reg.ring[who.value].compr
              && reg.ring[who.value].compress.Some? && !reg.ring[who.value].disabled
              && size <= output.Length && size <= room
              && reg.ring[who.value].compress.value(input[..], room) == Packed(used, output[..size])
    ensures mode == ModePriority ==>
              && (!memory(0) ==> who.None?)
              && (memory(0) ==> forall j | 0 <= j < if who.Some? then who.value else |reg.ring| ::
                    || reg.ring[j].disabled || reg.ring[j].compress.None?
                    || reg.ring[j].compress.value(input[..], room).Failed?)
    ensures mode == ModeSize ==>
              && (who.Some? ==>
                    memory(who.value) || old(reg.ring[who.value].buf != null && reg.ring[who.value].bufSize >= room))
              && forall j | 0 <= j < |reg.ring| ::
                   || reg.ring[j].disabled || reg.ring[j].compress.None?
                   || reg.ring[j].compress.value(input[..], room).Failed?
                   || !(memory(j) || old(reg.ring[j].buf != null && reg.ring[j].bufSize >= room))
                   || (who.Some? &&
                       var other := |reg.ring[j].compress.value(input[..], room).output|;
                       size < other || (size == other && who.value <= j))
    ensures mode != ModePriority && mode != ModeSize ==> who.None?
    ensures used <= input.Length <==> who.Some? || room <= input.Length
    ensures used <= input.Length ==> size <= output.Length && Reads(reg.ring, ret, output[..size], used, input[..used])
  {
    hide Winner;
    ghost var ring, data := reg.ring, input[..];
    who := Winner(mode, reg.ring, input[..], room, memory);
    WinnerIs(mode, ring, data, room, memory);
    var best, buffer, u, n := Choose(reg, mode, input, room, memory);
    if best == null {
      return COMPR_NONE, input, room, room, who;
    }
    WinnerReadsBack(ring, who.value, data, room, u, buffer[..n]);
    return best.compr, buffer, u, n, who;
  }

  /** With nothing to run and more space than data, what is handed back claims to be longer than the input. */
  method HandBackTooMuch(input: array<Byte>, room: nat) returns (ret: nat, used: nat)
    requires input.Length < room
    ensures ret == COMPR_NONE && used == room > input.Length
  {
    var reg := new Registry();
    var output, size;
    ghost var who;
    ret, output, used, size, who := Compress(reg, ModeNone, input, room, n => true);
  }
}
