/** The injector thread: it takes work items off the queue and runs the demultiplexing loop over the ring, while the DMA
    engine and the polling timer go on. */
module PtiInjector {
  import opened Common
  import opened PtiDemux
  import opened PtiPackets
  import PtiStream

  /** The buffer's bytes. */
  function Flat(packets: seq<Packet>): (bytes: seq<Byte>)
    ensures |bytes| == PACKET_SIZE * |packets|
  {
    if packets == [] then [] else Flat(packets[..|packets| - 1]) + packets[|packets| - 1]
  }

  lemma {:induction false} FlatAt(packets: seq<Packet>, k: nat)
    requires k < |packets|
    ensures Flat(packets)[PACKET_SIZE * k..PACKET_SIZE * k + PACKET_SIZE] == packets[k]
    decreases |packets|
  {
    var n := |packets| - 1;
    if k < n {
      FlatAt(packets[..n], k);
    }
  }

  /** The payloads of the packets with a tag, in order. */
  function FilterOf(packets: seq<Packet>, tag: nat): seq<Byte> {
    if packets == [] then []
    else
      var p := packets[|packets| - 1];
      FilterOf(packets[..|packets| - 1], tag) + if TagOf(p, 0) == tag then Payload(p, 0) else []
  }

  lemma FilterOfNothing(tag: nat)
    ensures FilterOf([], tag) == []
  {
  }

  /** Of a packet with this tag the 188 bytes behind the header are kept, of any other nothing. */
  lemma FilterOfOneMore(a: seq<Packet>, p: Packet, tag: nat)
    ensures FilterOf(a + [p], tag) == FilterOf(a, tag) + if TagOf(p, 0) == tag then Payload(p, 0) else []
    ensures FilterOf(a + [p], tag) == FilterOf(a, tag) + if 4 * tag <= p[0] % 64 < 4 * tag + 4 then p[6..194] else []
  {
    assert (a + [p])[..|a|] == a;
  }

  lemma PacketAt(buf: seq<Byte>, at: nat, p: Packet)
    requires at + PACKET_SIZE <= |buf| && buf[at..at + PACKET_SIZE] == p
    ensures TagOf(buf, at) == TagOf(p, 0) && Payload(buf, at) == Payload(p, 0)
  {
    assert buf[at] == p[0];
    assert p[HEADER_SIZE..PACKET_SIZE] == buf[at + HEADER_SIZE..at + PACKET_SIZE];
  }

  /** Filtering a stretch of the buffer is filtering the packets in it. */
  lemma {:induction false} FilteredIs(ring: seq<Packet>, k: nat, n: nat, tag: nat)
    requires k + n <= |ring|
    ensures Start(PACKET_SIZE * k, n) <= |Flat(ring)|
    ensures Filtered(Flat(ring), PACKET_SIZE * k, n, tag) == FilterOf(ring[k..k + n], tag)
    decreases n
  {
    hide TagOf, Payload, Flat, FilterOf;
    assert Start(PACKET_SIZE * k, n) == PACKET_SIZE * (k + n);
    if n > 0 {
      var at, p := Start(PACKET_SIZE * k, n - 1), ring[k + n - 1];
      FilteredIs(ring, k, n - 1, tag);
      assert at == PACKET_SIZE * (k + n - 1);
      FlatAt(ring, k + n - 1);
      PacketAt(Flat(ring), at, p);
      FilterOfOneMore(ring[k..k + n - 1], p, tag);
      assert ring[k..k + n] == ring[k..k + n - 1] + [p];
    } else {
      FilterOfNothing(tag);
    }
  }

  /** Where the thread stands: waiting for the semaphore, sorting the packets of an item, or through with them. */
  datatype Stage = Waiting | Sorting | HandedOut

  class Thread {
    const stream: PtiStream.Stream<Packet>
    const demux: Injector
    var stage: Stage
    /** Its copy of the item, and how many of the item's packets are sorted. */
    var offset: nat
    var count: nat
    var sorted: nat
    /** What was worked off before the engine was last reset, and how many batches there were before the item. */
    ghost var earlier: seq<Packet>
    ghost var first: nat

    /** Everything worked off so far, across resets. */
    ghost function WorkedOff(): seq<Packet>
      requires stream.done <= |stream.produced|
      reads this`earlier, stream`produced, stream`done
    {
      earlier + stream.produced[..stream.done]
    }

    /** The packets that the demultiplexers know of, between waiting and waiting. */
    ghost function SoFar(n: nat): seq<Packet>
      requires stream.done + n <= |stream.produced|
      reads this`earlier, stream`produced, stream`done
    {
      earlier + stream.produced[..stream.done + n]
    }

    ghost predicate AtItem()
      reads this, stream
    {
      && stream.pending != [] && stream.pending[0] == PtiStream.Item(offset, count)
      && stream.done + count <= |stream.produced| && sorted <= count
    }

    /** Each demultiplexer has received its packets among these. */
    ghost predicate Got(packets: seq<Packet>)
      requires demux.InPlace()
      reads demux
    {
      forall t | 0 <= t < TAG_COUNT ::
        Received(demux.sent, t) == if demux.present[t] then FilterOf(packets, t) else []
    }

    /** Each has received them, or they wait in its buffer. */
    ghost predicate Holding(packets: seq<Packet>)
      requires demux.InPlace()
      reads demux, demux.aux
    {
      forall t | 0 <= t < TAG_COUNT :: demux.Passed(t) == if demux.present[t] then FilterOf(packets, t) else []
    }

    /** Each demultiplexer has received the filter of all that was worked off; within an item, what it has received and
        what waits in its buffer is the filter of that and of the packets sorted so far. */
    ghost predicate Valid()
      reads this, stream, stream.ring, stream.queue, demux, demux.aux
    {
      && stream.Valid() && demux.InPlace() && (stage.Waiting? <==> !stream.busy)
      && match stage
         case Waiting => Got(WorkedOff())
         case Sorting =>
           && AtItem() && demux.Ready() && first <= |demux.sent| && AllFull(demux.sent[first..])
           && Holding(SoFar(sorted))
         case HandedOut =>
           && AtItem() && first <= |demux.sent| && OnlyLastShort(demux.sent[first..])
           && Got(SoFar(count))
    }

    constructor (base: nat, present: seq<bool>)
      requires |present| == TAG_COUNT
      ensures Valid() && demux.present == present && stream.produced == [] && stage == Waiting
    {
      stream := new PtiStream.Stream(base, BlankPacket());
      demux := new Injector(present);
      stage, offset, count, sorted, earlier, first := Waiting, 0, 0, 0, [], 0;
    }

    /** A packet arrives, wherever the thread stands. */
    method Arrive(p: Packet)
      requires Valid() && |stream.produced| + 1 < stream.done + PtiStream.RING_PACKETS
      modifies stream`produced, stream`dmaIndex, stream.ring
      ensures Valid() && stream.produced == old(stream.produced) + [p] && WorkedOff() == old(WorkedOff())
    {
      hide Received, FilterOf, AllFull, OnlyLastShort, Got, Holding;
      ghost var n := if stage == Waiting then 0 else if stage == Sorting then sorted else count;
      stream.Produce(p);
      assert stream.produced[..stream.done] == old(stream.produced[..stream.done]);
      assert stream.produced[..stream.done + n] == old(stream.produced[..stream.done + n]);
    }

    /** The timer polls, wherever the thread stands. Two things can go wrong: the pointers are misread, or the engine is
        reset while packets are queued. */
    method Poll(wp: nat, discarded: nat)
      requires Valid() && stream.PointsAtHead(wp) && |stream.pending| + 2 < PtiStream.QUEUE_SIZE
      modifies stream`rp, stream`pread, stream`writeIndex, stream`workSem, stream`pending, stream`polled, stream.queue
      modifies stream`dmaIndex, stream`produced, stream`done, this`earlier
      ensures stream.done <= |stream.produced| && WorkedOff() == old(WorkedOff())
      ensures (if discarded > 0 then forall i :: i in old(stream.pending) ==> i == PtiStream.Item(0, 0)
               else !old(stream.Misread(wp) && stream.pread == 0)) ==> Valid()
    {
      hide Received, FilterOf, AllFull, OnlyLastShort, Got, Holding;
      ghost var before, d := stream.produced, stream.done;
      assert stage != Waiting ==> PtiStream.Item(offset, count) in stream.pending;
      stream.Poll(wp, discarded);
      if discarded > 0 {
        earlier := earlier + before[..d];
        assert earlier + [] == earlier;
        assert stage != Waiting ==> before[..d + 0] == before[..d];
      }
    }

    /** The semaphore is taken, and the item copied. */
    method TakeItem() returns (item: PtiStream.Item)
      requires stream.Valid() && !stream.busy && stream.workSem > 0
      modifies stream`workSem, stream`busy
      ensures stream.Valid() && stream.busy && stream.pending != [] && item == stream.pending[0]
      ensures stream.done + item.count <= |stream.produced|
    {
      hide PtiStream.Stream.Valid, PtiStream.Place;
      var overflow := stream.Down();
      item := stream.Current();
    }

    /** The thread is woken and copies its item. */
    method Wake()
      requires Valid() && stage == Waiting && stream.workSem > 0
      modifies this`stage, this`offset, this`count, this`sorted, this`first
      modifies stream`workSem, stream`busy, demux`counts
      ensures Valid() && stage == Sorting && sorted == 0 && WorkedOff() == old(WorkedOff())
      ensures stream.pending == old(stream.pending) && count == stream.pending[0].count
    {
      hide Received, FilterOf, OnlyLastShort, BatchOk, PtiStream.Stream.Valid;
      var item := TakeItem();
      offset, count, sorted, stage, first := item.offset, item.count, 0, Sorting, |demux.sent|;
      demux.Begin();
      AllFullEmpty(demux.sent);
      hide AllFull;
      assert SoFar(0) == WorkedOff();
    }

    /** The next packet of the item is where the thread looks for it. */
    lemma NextPacket(buf: seq<Byte>)
      requires Valid() && stage == Sorting && sorted < count && buf == Flat(stream.ring[..])
      ensures var at, p := offset + sorted * PACKET_SIZE, stream.produced[stream.done + sorted];
              && at + PACKET_SIZE <= |buf| && TagOf(buf, at) == TagOf(p, 0) && Payload(buf, at) == Payload(p, 0)
      ensures SoFar(sorted + 1) == SoFar(sorted) + [stream.produced[stream.done + sorted]]
    {
      hide Received, FilterOf, AllFull, PtiStream.Cover;
      stream.StaysInRing(sorted);
      ghost var k := PtiStream.Place(stream.done) + sorted;
      FlatAt(stream.ring[..], k);
      PacketAt(buf, offset + sorted * PACKET_SIZE, stream.ring[k]);
    }

    lemma HoldingOneMore(was: seq<Packet>, p: Packet)
      requires demux.InPlace()
      ensures Holding(was + [p]) <==>
              forall t | 0 <= t < TAG_COUNT ::
                demux.Passed(t) == if demux.present[t] then
                                     FilterOf(was, t) + if TagOf(p, 0) == t then Payload(p, 0) else []
                                   else []
    {
      hide FilterOf, TagOf, Payload, Received;
      forall t | 0 <= t < TAG_COUNT
        ensures FilterOf(was + [p], t) == FilterOf(was, t) + if TagOf(p, 0) == t then Payload(p, 0) else []
      {
        FilterOfOneMore(was, p, t);
      }
    }

    /** The packet `p` at `at` joins those the demultiplexers have. */
    method SortPacket(buf: seq<Byte>, at: nat, ghost p: Packet, ghost was: seq<Packet>)
      requires demux.Ready() && first <= |demux.sent| && AllFull(demux.sent[first..]) && Holding(was)
      requires at + PACKET_SIZE <= |buf| && TagOf(buf, at) == TagOf(p, 0) && Payload(buf, at) == Payload(p, 0)
      modifies demux, demux.aux
      ensures demux.Ready() && first <= |demux.sent| && AllFull(demux.sent[first..]) && Holding(was + [p])
    {
      hide Received, FilterOf, TagOf, Payload, AllFull, BatchOk;
      ghost var before := demux.sent;
      demux.TakePacket(buf, at);
      AllFullOn(before, demux.sent, first);
      HoldingOneMore(was, p);
    }

    /** The thread sorts one more packet of its item. */
    method SortOne()
      requires Valid() && stage == Sorting && sorted < count
      modifies this`sorted, demux, demux.aux
      ensures Valid() && sorted == old(sorted) + 1 && WorkedOff() == old(WorkedOff())
    {
      hide Received, FilterOf, Flat, TagOf, Payload, AllFull, OnlyLastShort, BatchOk, Holding, Got;
      hide PtiStream.Stream.Valid;
      ghost var was, p := SoFar(sorted), stream.produced[stream.done + sorted];
      var buf := Flat(stream.ring[..]);
      NextPacket(buf);
      SortPacket(buf, offset + sorted * PACKET_SIZE, p, was);
      sorted := sorted + 1;
    }

    /** The thread hands out what is left in the buffers. */
    method HandOut()
      requires Valid() && stage == Sorting && sorted == count
      modifies this`stage, demux
      ensures Valid() && stage == HandedOut && WorkedOff() == old(WorkedOff())
    {
      hide Received, FilterOf, AllFull, OnlyLastShort, PtiStream.Place, PtiStream.Cover;
      demux.Flush(first);
      stage := HandedOut;
    }

    /** The thread is through with its item. */
    method Finish()
      requires Valid() && stage == HandedOut
      modifies this`stage, stream`readIndex, stream`busy, stream`pending, stream`done
      ensures Valid() && stage == Waiting
      ensures stream.done == old(stream.done) + count
      ensures WorkedOff() == old(WorkedOff() + stream.produced[stream.done..stream.done + count])
    {
      hide Received, FilterOf, OnlyLastShort, PtiStream.Place, PtiStream.Cover, Got, Holding;
      ghost var now := SoFar(count);
      stream.Finish();
      stage := Waiting;
      assert WorkedOff() == now;
    }

    /** One whole round of the thread, undisturbed. */
    method WorkOff()
      requires Valid() && stage == Waiting && stream.workSem > 0
      modifies this`stage, this`offset, this`count, this`sorted, this`first, demux, demux.aux
      modifies stream`workSem, stream`busy, stream`readIndex, stream`pending, stream`done
      ensures Valid() && stage == Waiting
      ensures stream.done == old(stream.done) + old(stream.pending[0].count)
    {
      hide PtiStream.Stream.Valid, Received, FilterOf, AllFull, OnlyLastShort, Got, Holding;
      Wake();
      while sorted < count
        invariant Valid() && stage == Sorting
        invariant stream.done == old(stream.done) && count == old(stream.pending[0].count)
        decreases count - sorted
      {
        SortOne();
      }
      HandOut();
      Finish();
    }
  }
}
