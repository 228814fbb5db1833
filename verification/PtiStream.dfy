/** The stream path up to the injector: a DMA engine fills a ring of packets, a timer polls its
    write pointer into a work queue, and the injector takes work items under a semaphore. */
module PtiStream {
  import opened PtiPackets

  const RING_PACKETS: nat := 4096
  const BUFFER_SIZE: nat := PACKET_SIZE * RING_PACKETS
  const QUEUE_SIZE: nat := 400

  datatype Item = Item(offset: nat, count: nat)

  /** The low four bits cleared. */
  function Masked(a: nat): nat {
    a - a % 16
  }

  /** Rounds a write pointer down to a whole number of packets. */
  function Aligned(wp: nat, base: nat): nat
    requires base <= wp
  {
    wp - (wp - base) % PACKET_SIZE
  }

  /** Place in the ring of the `a`-th packet of the stream. */
  function Place(a: nat): (k: nat)
    ensures k < RING_PACKETS
  {
    a % RING_PACKETS
  }

  /** The masked comparison catches the read pointer at the end of the buffer and nowhere else,
      for any base address. */
  lemma WrapTestIsExact(base: nat, k: nat)
    requires k <= RING_PACKETS
    ensures Masked(base + PACKET_SIZE * k) == Masked(base + BUFFER_SIZE) <==> k == RING_PACKETS
  {
    var rp, top := base + PACKET_SIZE * k, base + BUFFER_SIZE;
    if k < RING_PACKETS {
      assert top - rp >= PACKET_SIZE;
    }
  }

  lemma PlaceAtEnd(a: nat, n: nat)
    requires Place(a) + n == RING_PACKETS
    ensures Place(a + n) == 0
  {
  }

  lemma PlaceNext(a: nat)
    ensures Place(a + 1) == (Place(a) + 1) % RING_PACKETS
  {
  }

  /** The driver's packet counts, with read and write pointer at the `k`-th and `m`-th packet. */
  lemma CountIs(base: nat, k: nat, m: nat)
    requires k < RING_PACKETS && m <= RING_PACKETS
    ensures var rp, wp, top := base + PACKET_SIZE * k, base + PACKET_SIZE * m, base + BUFFER_SIZE;
            && (rp <= wp <==> k <= m)
            && (wp - rp) / PACKET_SIZE == m - k
            && ((top - rp) + (wp - base)) / PACKET_SIZE == RING_PACKETS - k + m
            && (top - rp) / PACKET_SIZE == RING_PACKETS - k
  {
  }

  lemma AlignedIs(base: nat, k: nat, part: nat)
    requires part < PACKET_SIZE
    ensures Aligned(base + PACKET_SIZE * k + part, base) == base + PACKET_SIZE * k
  {
    var d := PACKET_SIZE * k + part;
    assert d % PACKET_SIZE == part;
  }

  /** Two packets less than a ring apart have different places. */
  lemma PlacesDiffer(a: nat, b: nat)
    requires a < b < a + RING_PACKETS
    ensures Place(a) != Place(b)
  {
  }

  /** Places of a stretch that does not cross the end of the ring. */
  lemma PlaceWithin(a: nat, n: nat)
    requires Place(a) + n < RING_PACKETS
    ensures Place(a + n) == Place(a) + n
  {
  }

  /** The items, in order, cover the stream from `from` up to `to` without gap or overlap, and
      each lies inside the buffer. */
  ghost predicate Cover(items: seq<Item>, from: nat, to: nat)
    decreases |items|
  {
    if items == [] then from == to
    else
      && items[0].offset == PACKET_SIZE * Place(from)
      && Place(from) + items[0].count <= RING_PACKETS
      && Cover(items[1..], from + items[0].count, to)
  }

  lemma {:induction false} CoverOneMore(items: seq<Item>, from: nat, to: nat, i: Item)
    requires Cover(items, from, to)
    requires i.offset == PACKET_SIZE * Place(to) && Place(to) + i.count <= RING_PACKETS
    ensures Cover(items + [i], from, to + i.count)
    decreases |items|
  {
    if items != [] {
      assert (items + [i])[1..] == items[1..] + [i];
      CoverOneMore(items[1..], from + items[0].count, to, i);
    } else {
      assert items + [i] == [i] && [i][1..] == [];
    }
  }

  lemma {:induction false} CoverIsForward(items: seq<Item>, from: nat, to: nat)
    requires Cover(items, from, to)
    ensures from <= to && (items != [] ==> from + items[0].count <= to)
    decreases |items|
  {
    if items != [] {
      CoverIsForward(items[1..], from + items[0].count, to);
    }
  }

  /** Only empty items cover nothing. */
  lemma {:induction false} CoverNothing(items: seq<Item>)
    ensures Cover(items, 0, 0) <==> forall i :: i in items ==> i == Item(0, 0)
    decreases |items|
  {
    if items != [] {
      assert items[0] in items && forall i :: i in items <==> i == items[0] || i in items[1..];
      if items[0] == Item(0, 0) {
        CoverNothing(items[1..]);
      } else if Cover(items, 0, 0) {
        CoverIsForward(items, 0, 0);
        assert false;
      }
    }
  }

  /** Which of two places comes first in the ring tells whether the stretch between two packets
      runs over the end. */
  lemma PlacesApart(a: nat, b: nat)
    requires a <= b < a + RING_PACKETS
    ensures if Place(a) <= Place(b) then b - a == Place(b) - Place(a) else b - a == RING_PACKETS - Place(a) + Place(b)
  {
  }

  /** The queue's index `k` places on. */
  function Index(from: nat, k: nat): (i: nat)
    ensures i < QUEUE_SIZE
  {
    (from + k) % QUEUE_SIZE
  }

  lemma IsRemainder(x: nat, q: nat, rest: nat)
    requires rest < QUEUE_SIZE && x == QUEUE_SIZE * q + rest
    ensures x % QUEUE_SIZE == rest
  {
  }

  lemma IndexAgain(from: nat, j: nat, k: nat)
    ensures Index(Index(from, j), k) == Index(from, j + k)
  {
    var a, b := from + j, Index(from, j) + k;
    IsRemainder(a + k, a / QUEUE_SIZE + b / QUEUE_SIZE, b % QUEUE_SIZE);
  }

  lemma IndexNext(from: nat, k: nat)
    ensures Index(Index(from, 1), k) == Index(from, k + 1) == Index(Index(from, k), 1)
  {
    hide Index;
    IndexAgain(from, 1, k);
    IndexAgain(from, k, 1);
  }

  lemma IndexApart(from: nat, j: nat, k: nat)
    requires from < QUEUE_SIZE && j < k < QUEUE_SIZE
    ensures Index(from, j) != Index(from, k)
  {
  }

  class Stream<T(0)> {
    const base: nat
    const ring: array<T>
    const queue: array<Item>
    /** Where the DMA engine writes next. */
    var dmaIndex: nat
    var rp: nat
    var readIndex: nat
    var writeIndex: nat
    /** Work items the injector was not yet woken for. */
    var workSem: nat
    /** The injector is between its wake-up and the end of its item. */
    var busy: bool
    /** Packets read since the firmware last acknowledged. */
    var pread: nat
    /** Everything the DMA engine wrote, how much of it was polled and how much was worked off. */
    ghost var produced: seq<T>
    ghost var polled: nat
    ghost var done: nat
    /** The items not worked off, oldest first. */
    ghost var pending: seq<Item>

    ghost predicate Queued()
      reads this`pending, this`readIndex, this`writeIndex, this`workSem, this`busy, queue
    {
      && queue.Length == QUEUE_SIZE && |pending| < QUEUE_SIZE && readIndex < QUEUE_SIZE
      && writeIndex == Index(readIndex, |pending|)
      && (forall k | 0 <= k < |pending| :: queue[Index(readIndex, k)] == pending[k])
      && workSem + (if busy then 1 else 0) == |pending|
    }

    ghost predicate Kept()
      reads this`dmaIndex, this`produced, this`polled, this`done, ring
    {
      && ring.Length == RING_PACKETS && dmaIndex == Place(|produced|)
      && done <= polled <= |produced| < done + RING_PACKETS
      && (forall a | done <= a < |produced| :: ring[Place(a)] == produced[a])
    }

    ghost predicate Valid()
      reads this, ring, queue
    {
      && Queued() && Kept() && Cover(pending, done, polled)
      && (rp == base + PACKET_SIZE * Place(polled) || (Place(polled) == 0 && rp == base + BUFFER_SIZE))
    }

    constructor (base: nat, p: T)
      ensures Valid() && produced == [] && pending == [] && done == polled == 0 && pread == 0 && workSem == 0 && !busy
      ensures this.base == base && ring.Length == 4096 && queue.Length == 400 && fresh(ring) && fresh(queue)
    {
      this.base, this.rp := base, base;
      ring, queue := new T[RING_PACKETS](_ => p), new Item[QUEUE_SIZE](_ => Item(0, 0));
      dmaIndex, readIndex, writeIndex, workSem, busy, pread := 0, 0, 0, 0, false, 0;
      produced, polled, done, pending := [], 0, 0, [];
    }

    /** The DMA engine writes one more packet. It must not catch up with the injector. */
    method Produce(p: T)
      requires Valid() && |produced| + 1 < done + RING_PACKETS
      modifies this`produced, this`dmaIndex, ring
      ensures Valid() && produced == old(produced) + [p]
    {
      forall a | done <= a < |produced| ensures Place(a) != Place(|produced|) {
        PlacesDiffer(a, |produced|);
      }
      assert (dmaIndex + 1) % RING_PACKETS == Place(|produced| + 1) by { PlaceNext(|produced|); }
      hide Cover, Masked, Place;
      ring[dmaIndex] := p;
      produced := produced + [p];
      dmaIndex := (dmaIndex + 1) % RING_PACKETS;
    }

    /** The firmware notices how many packets were read. */
    method Acknowledge()
      requires Valid()
      modifies this`pread
      ensures Valid() && pread == 0
    {
      pread := 0;
    }

    /** The DMA engine's write pointer may stand anywhere inside the packet being written, or, when the last packet of
        the ring was just written, at the end of the buffer. */
    ghost predicate PointsAtHead(wp: nat)
      reads this
    {
      || base + PACKET_SIZE * Place(|produced|) <= wp < base + PACKET_SIZE * Place(|produced|) + PACKET_SIZE
      || (|produced| > 0 && Place(|produced|) == 0 && wp == base + BUFFER_SIZE)
    }

    /** The stretch of the buffer between the packets polled and the write pointer, as work items. */
    ghost function NewItems(wp: nat): seq<Item>
      reads this
    {
      var k, m := Place(polled), if wp == base + BUFFER_SIZE then RING_PACKETS else Place(|produced|);
      if k <= m then [Item(PACKET_SIZE * k, m - k)]
      else [Item(PACKET_SIZE * k, RING_PACKETS - k), Item(0, m)]
    }

    /** Nothing is new, and the write pointer stands at the end of the buffer, where the read pointer never does when
        it is compared. */
    ghost predicate Misread(wp: nat)
      reads this
    {
      polled == |produced| && wp == base + BUFFER_SIZE
    }

    /** Wraps the read pointer when it stands at the end, and counts the packets between it and the write pointer. The
        count is that of the new packets exactly when the pointers are not misread. */
    method CountNew(wp: nat) returns (aligned: nat, numPackets: nat, round: bool)
      requires Valid() && PointsAtHead(wp)
      modifies this`rp
      ensures rp == base + PACKET_SIZE * Place(polled)
      ensures aligned == if wp == base + BUFFER_SIZE then wp else base + PACKET_SIZE * Place(|produced|)
      ensures numPackets == |produced| - polled <==> !Misread(wp)
      ensures Misread(wp) ==> numPackets == RING_PACKETS && !round
      ensures var k, m := Place(polled), (aligned - base) / PACKET_SIZE;
              && m <= RING_PACKETS && (round <==> k > m)
              && numPackets == if round then RING_PACKETS - k + m else m - k
    {
      hide Cover, Masked, Aligned, Place;
      ghost var k := Place(polled);
      ghost var m := if wp == base + BUFFER_SIZE then RING_PACKETS else Place(|produced|);
      var top := base + BUFFER_SIZE;
      aligned := Aligned(wp, base);
      AlignedIs(base, m, wp - (base + PACKET_SIZE * m));
      WrapTestIsExact(base, k);
      if Masked(rp) == Masked(top) {
        rp := base;
      }
      PlacesApart(polled, |produced|);
      CountIs(base, k, m);
      if rp <= aligned {
        numPackets, round := (aligned - rp) / PACKET_SIZE, false;
      } else {
        numPackets, round := ((top - rp) + (aligned - base)) / PACKET_SIZE, true;
      }
    }

    /** Adds an item behind the others and wakes the injector once more. */
    method Push(i: Item)
      requires Queued() && |pending| + 1 < QUEUE_SIZE && Cover(pending, done, polled)
      requires i.offset == PACKET_SIZE * Place(polled) && Place(polled) + i.count <= RING_PACKETS
      modifies this`writeIndex, this`workSem, this`pending, this`polled, queue
      ensures Queued() && pending == old(pending) + [i]
      ensures polled == old(polled) + i.count && Cover(pending, done, polled)
    {
      hide Cover;
      CoverOneMore(pending, done, polled, i);
      IndexNext(readIndex, |pending|);
      forall k: nat | k < |pending|
        ensures Index(readIndex, k) != writeIndex
      {
        IndexApart(readIndex, k, |pending|);
      }
      assert Index(writeIndex, 1) == (writeIndex + 1) % QUEUE_SIZE;
      hide Index;
      queue[writeIndex] := i;
      writeIndex := (writeIndex + 1) % QUEUE_SIZE;
      workSem := workSem + 1;
      pending, polled := pending + [i], polled + i.count;
    }

    /** Notifies the injector: one item, or two when the packets run over the end of the buffer. */
    method Enqueue(top: nat, aligned: nat, numPackets: nat, round: bool, ghost k: nat, ghost m: nat)
      requires Queued() && |pending| + 2 < QUEUE_SIZE && Cover(pending, done, polled)
      requires k == Place(polled) && rp == base + PACKET_SIZE * k && top == base + BUFFER_SIZE && m <= RING_PACKETS
      requires round <==> k > m
      requires numPackets == if round then RING_PACKETS - k + m else m - k
      modifies this`writeIndex, this`workSem, this`pending, this`polled, queue
      ensures Queued()
      ensures pending == old(pending) + if round then [Item(rp - base, RING_PACKETS - k), Item(0, m)]
                                        else [Item(rp - base, numPackets)]
      ensures polled == old(polled) + numPackets && Cover(pending, done, polled)
    {
      hide Cover, Place;
      if round {
        var first := (top - rp) / PACKET_SIZE;
        CountIs(base, k, m);
        Push(Item(rp - base, first));
        PlaceAtEnd(old(polled), first);
        Push(Item(0, numPackets - first));
      } else {
        Push(Item(rp - base, numPackets));
      }
    }

    /** Sets the engine and the pointers back to the start of the buffer, where a new stream begins. Queue and semaphore
        are left as they are: they fit the new stream exactly when nothing but empty items is queued. */
    method Reset()
      requires Valid()
      modifies this`rp, this`pread, this`dmaIndex, this`produced, this`polled, this`done
      ensures rp == base && pread == 0 && dmaIndex == 0 && produced == [] && polled == done == 0
      ensures Valid() <==> forall i :: i in pending ==> i == Item(0, 0)
    {
      rp, pread, dmaIndex := base, 0, 0;
      produced, polled, done := [], 0, 0;
      CoverNothing(pending);
    }

    /** The branch of a poll without discarded packets: queues the packets that arrived since the last poll, as two
        items when they run over the end of the buffer. Does nothing while the firmware has not acknowledged the last
        read. The one case in which it is not exact: nothing is new and the write pointer stands at the end of the
        buffer. The whole ring is queued again then. */
    method QueueNew(wp: nat)
      requires Valid() && PointsAtHead(wp) && |pending| + 2 < QUEUE_SIZE
      modifies this`rp, this`pread, this`writeIndex, this`workSem, this`pending, this`polled, queue
      ensures old(Misread(wp)) && old(pread) == 0 ==>
                && pread == RING_PACKETS && pending == old(pending) + [Item(0, RING_PACKETS)]
                && polled == |produced| + RING_PACKETS && !Valid()
      ensures !(old(Misread(wp)) && old(pread) == 0) ==>
                && Valid()
                && if old(polled) < |produced| && old(pread) == 0 then
                     && polled == |produced| && pread == |produced| - old(polled)
                     && pending == old(pending) + old(NewItems(wp))
                   else polled == old(polled) && pread == old(pread) && pending == old(pending)
      ensures old(pending) <= pending && |pending| <= |old(pending)| + 2
    {
      hide Cover, Masked, Aligned;
      if Misread(wp) {
        assert Place(polled) == 0;
      }
      hide Place;
      var aligned, numPackets, round := CountNew(wp);
      if numPackets > 0 && pread == 0 {
        pread := numPackets;
        Enqueue(base + BUFFER_SIZE, aligned, numPackets, round, Place(polled), (aligned - base) / PACKET_SIZE);
        rp := aligned;
      }
    }

    /** The timer's function: queues what is new, or, when the firmware had to discard packets, resets the engine. */
    method Poll(wp: nat, discarded: nat)
      requires Valid() && PointsAtHead(wp) && |pending| + 2 < QUEUE_SIZE
      modifies this`rp, this`pread, this`writeIndex, this`workSem, this`pending, this`polled, queue
      modifies this`dmaIndex, this`produced, this`done
      ensures discarded > 0 ==>
                && produced == [] && polled == done == pread == 0 && pending == old(pending)
                && (Valid() <==> forall i :: i in pending ==> i == Item(0, 0))
      ensures discarded == 0 ==> produced == old(produced) && done == old(done)
      ensures discarded == 0 && old(Misread(wp)) && old(pread) == 0 ==>
                && pread == RING_PACKETS && pending == old(pending) + [Item(0, RING_PACKETS)]
                && polled == |produced| + RING_PACKETS && !Valid()
      ensures discarded == 0 && !(old(Misread(wp)) && old(pread) == 0) ==>
                && Valid()
                && if old(polled) < |produced| && old(pread) == 0 then
                     && polled == |produced| && pread == |produced| - old(polled)
                     && pending == old(pending) + old(NewItems(wp))
                   else polled == old(polled) && pread == old(pread) && pending == old(pending)
      ensures old(pending) <= pending && |pending| <= |old(pending)| + 2
    {
      hide Queued, Kept, Cover, Place;
      if discarded > 0 {
        Reset();
      } else {
        QueueNew(wp);
      }
    }

    /** The injector is woken: it finds an item, never an overflow. */
    method Down() returns (overflow: bool)
      requires Valid() && workSem > 0 && !busy
      modifies this`workSem, this`busy
      ensures Valid() && !overflow && busy && workSem == old(workSem) - 1
    {
      if |pending| > 0 {
        IndexApart(readIndex, 0, |pending|);
      }
      workSem := workSem - 1;
      overflow := writeIndex == readIndex;
      busy := true;
    }

    /** The injector copies its item: a stretch of the buffer that holds the next packets of the
        stream, in order. */
    method Current() returns (item: Item)
      requires Valid() && busy
      ensures pending != [] && item == pending[0]
      ensures item.offset == PACKET_SIZE * Place(done) && Place(done) + item.count <= RING_PACKETS
      ensures done + item.count <= polled <= |produced|
      ensures ring[Place(done)..Place(done) + item.count] == produced[done..done + item.count]
    {
      hide Place;
      assert Index(readIndex, 0) == readIndex && queue[Index(readIndex, 0)] == pending[0];
      item := queue[readIndex];
      CoverIsForward(pending, done, polled);
      ghost var a, b := ring[Place(done)..Place(done) + item.count], produced[done..done + item.count];
      forall k | 0 <= k < item.count ensures a[k] == b[k] {
        PlaceWithin(done, k);
        assert ring[Place(done + k)] == produced[done + k];
      }
    }

    /** While the injector is at its item, whatever arrives or is polled, the packets of the item stay in place. */
    lemma StaysInRing(n: nat)
      requires Valid() && busy && n < pending[0].count
      ensures pending[0].offset == PACKET_SIZE * Place(done) && Place(done) + n < RING_PACKETS
      ensures done + n < polled && ring[Place(done) + n] == produced[done + n]
    {
      CoverIsForward(pending, done, polled);
      PlaceWithin(done, n);
      hide Place;
      assert ring[Place(done + n)] == produced[done + n];
    }

    /** The injector is through with its item. */
    method Finish()
      requires Valid() && busy
      modifies this`readIndex, this`busy, this`pending, this`done
      ensures pending == old(pending)[1..] && Valid() && !busy
      ensures done == old(done) + old(pending)[0].count
    {
      CoverIsForward(pending, done, polled);
      forall k: nat | k < |pending| - 1
        ensures Index(Index(readIndex, 1), k) == Index(readIndex, k + 1)
      {
        IndexNext(readIndex, k);
      }
      IndexNext(readIndex, |pending| - 1);
      assert Index(readIndex, 1) == (readIndex + 1) % QUEUE_SIZE;
      hide Index, Place;
      readIndex := (readIndex + 1) % QUEUE_SIZE;
      busy := false;
      done := done + pending[0].count;
      pending := pending[1..];
    }
  }

  /** All packets but the last of the ring arrive. */
  method FillUp<T(0)>(base: nat, p: T) returns (s: Stream<T>)
    ensures fresh(s) && fresh(s.ring) && fresh(s.queue) && s.base == base
    ensures s.Valid() && |s.produced| == RING_PACKETS - 1 && s.pending == []
    ensures s.done == s.polled == s.pread == 0 && !s.busy
  {
    hide Cover;
    s := new Stream(base, p);
    for n := 0 to RING_PACKETS - 1
      invariant s.Valid() && fresh(s.ring) && fresh(s.queue)
      invariant |s.produced| == n && s.pending == [] && s.done == s.polled == s.pread == 0 && !s.busy
    {
      s.Produce(p);
    }
  }

  /** What is new is polled, acknowledged and worked off. */
  method CatchUp<T(0)>(s: Stream<T>, wp: nat)
    requires s.Valid() && s.PointsAtHead(wp) && s.pending == [] && s.pread == 0 && !s.busy
    requires s.polled < |s.produced| && |s.NewItems(wp)| == 1
    modifies s`rp, s`pread, s`writeIndex, s`readIndex, s`workSem, s`busy, s`pending, s`polled, s`done, s.queue
    modifies s`dmaIndex, s`produced
    ensures s.Valid() && s.produced == old(s.produced) && s.pending == [] && s.pread == 0 && !s.busy
    ensures s.done == s.polled == |s.produced|
  {
    hide Place, Masked;
    s.Poll(wp, 0);
    s.Acknowledge();
    var overflow := s.Down();
    s.Finish();
  }

  /** The misread pointers as a run. All packets but the last of the ring arrive and are worked off, then the last one,
      after which the engine rests at the end of the buffer. A poll that has nothing new to find queues the whole ring
      again, although every packet in it was worked off. */
  method MisreadAtEnd<T(0)>(base: nat, p: T) returns (s: Stream<T>)
    ensures fresh(s) && |s.produced| == s.done == RING_PACKETS && s.pending == [Item(0, RING_PACKETS)]
  {
    hide Cover, Masked;
    s := FillUp(base, p);
    CatchUp(s, base + PACKET_SIZE * (RING_PACKETS - 1));
    s.Produce(p);
    CatchUp(s, base + BUFFER_SIZE);
    s.Poll(base + BUFFER_SIZE, 0);
  }

  /** A packet is queued, and before it is worked off the firmware discards others: the reset leaves an item in the
      queue that stands for nothing in the new stream. */
  method StaleAfterReset<T(0)>(base: nat, p: T) returns (s: Stream<T>)
    ensures fresh(s) && s.produced == [] && s.pending == [Item(0, 1)] && !s.Valid()
  {
    hide Cover, Masked;
    s := new Stream(base, p);
    s.Produce(p);
    s.Poll(base + PACKET_SIZE, 0);
    s.Poll(base + PACKET_SIZE, 1);
    assert Item(0, 1) in s.pending;
  }
}
