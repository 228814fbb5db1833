/** The injector's inner loop: packets of one work item are sorted by tag, stripped of their
    header and handed to the demultiplexers in batches. */
module PtiDemux {
  import opened Common
  import opened PtiPackets

  const TAG_COUNT: nat := 4
  const AUX_COUNT: nat := 20

  /** One call of a demultiplexer. */
  datatype Batch = Batch(tag: nat, count: nat, data: seq<Byte>)

  /** Where packet `n` of a work item starts. */
  function Start(offset: nat, n: nat): nat {
    offset + n * PACKET_SIZE
  }

  /** What a plain filter would pass on to one demultiplexer: the payloads of its packets among
      the first `n`, in order of arrival. */
  function Filtered(buf: seq<Byte>, offset: nat, n: nat, tag: nat): seq<Byte>
    requires Start(offset, n) <= |buf|
    decreases n
  {
    if n == 0 then []
    else
      var at := Start(offset, n - 1);
      Filtered(buf, offset, n - 1, tag) + if TagOf(buf, at) == tag then Payload(buf, at) else []
  }

  /** Of a packet with this tag the 188 bytes behind the header are passed on, of any other nothing. */
  lemma FilteredOneMore(buf: seq<Byte>, offset: nat, n: nat, tag: nat)
    requires Start(offset, n + 1) <= |buf|
    ensures offset + 194 * n + 194 <= |buf|
    ensures var at := offset + 194 * n;
            Filtered(buf, offset, n + 1, tag) == Filtered(buf, offset, n, tag)
              + if 4 * tag <= buf[at] % 64 < 4 * tag + 4 then buf[at + 6..at + 194] else []
  {
    assert Start(offset, n) == offset + 194 * n;
  }

  /** All the data that the batches handed to one demultiplexer, in order. */
  function Received(sent: seq<Batch>, tag: nat): seq<Byte> {
    if sent == [] then []
    else
      var b := sent[|sent| - 1];
      Received(sent[..|sent| - 1], tag) + if b.tag == tag then b.data else []
  }

  predicate BatchOk(b: Batch, present: seq<bool>) {
    b.tag < |present| && present[b.tag] && 1 <= b.count <= AUX_COUNT && |b.data| == PAYLOAD_SIZE * b.count
  }

  predicate AllFull(sent: seq<Batch>) {
    forall j | 0 <= j < |sent| :: sent[j].count == 20
  }

  /** A demultiplexer gets full batches, and at most its last one is shorter. */
  predicate OnlyLastShort(sent: seq<Batch>) {
    forall j, k | 0 <= j < k < |sent| && sent[j].tag == sent[k].tag :: sent[j].count == 20
  }

  lemma ReceivedOneMore(sent: seq<Batch>, b: Batch, tag: nat)
    ensures Received(sent + [b], tag) == Received(sent, tag) + if b.tag == tag then b.data else []
  {
    assert (sent + [b])[..|sent|] == sent;
  }

  lemma AllFullEmpty(sent: seq<Batch>)
    ensures AllFull(sent[|sent|..])
  {
  }

  lemma AllFullOn(was: seq<Batch>, sent: seq<Batch>, first: nat)
    requires was <= sent && first <= |was| && AllFull(was[first..]) && AllFull(sent[|was|..])
    ensures AllFull(sent[first..])
  {
    var n := |was|;
    forall j | 0 <= j < |sent| - first ensures sent[first..][j].count == AUX_COUNT {
      assert sent[first..][j] == if first + j < n then was[first..][j] else sent[n..][first + j - n];
    }
  }

  lemma ShortOnlyAtEnd(full: seq<Batch>, sent: seq<Batch>, first: nat)
    requires full <= sent && first <= |full| && AllFull(full[first..])
    requires forall j, k | |full| <= j < k < |sent| :: sent[j].tag < sent[k].tag
    ensures OnlyLastShort(sent[first..])
  {
    var s := sent[first..];
    forall j, k | 0 <= j < k < |s| && s[j].tag == s[k].tag ensures s[j].count == AUX_COUNT {
      assert first + j < |full|;
      assert s[j] == full[first..][j];
    }
  }

  /** The injector's working state for one item. */
  class Injector {
    const aux: seq<array<Byte>>
    const present: seq<bool>
    var counts: seq<nat>
    var sent: seq<Batch>

    ghost predicate InPlace()
      reads this
    {
      && |aux| == |present| == |counts| == TAG_COUNT
      && (forall t | 0 <= t < TAG_COUNT :: aux[t].Length == PAYLOAD_SIZE * AUX_COUNT)
      && (forall t, u | 0 <= t < u < TAG_COUNT :: aux[t] != aux[u])
      && (forall t | 0 <= t < TAG_COUNT :: counts[t] <= AUX_COUNT && (!present[t] ==> counts[t] == 0))
      && (forall b | b in sent :: BatchOk(b, present))
    }

    /** Between packets no buffer is full. */
    ghost predicate Ready()
      reads this
    {
      InPlace() && forall t | 0 <= t < TAG_COUNT :: counts[t] < AUX_COUNT
    }

    /** What tag `t` was handed so far together with what waits in its buffer. */
    ghost function Passed(t: nat): seq<Byte>
      requires InPlace() && t < TAG_COUNT
      reads this, aux
    {
      Received(sent, t) + aux[t][..PAYLOAD_SIZE * counts[t]]
    }

    constructor (present: seq<bool>)
      requires |present| == TAG_COUNT
      ensures Ready() && this.present == present && sent == [] && counts == [0, 0, 0, 0]
      ensures forall t | 0 <= t < TAG_COUNT :: Passed(t) == []
    {
      var a, b := new Byte[PAYLOAD_SIZE * AUX_COUNT](_ => 0), new Byte[PAYLOAD_SIZE * AUX_COUNT](_ => 0);
      var c, d := new Byte[PAYLOAD_SIZE * AUX_COUNT](_ => 0), new Byte[PAYLOAD_SIZE * AUX_COUNT](_ => 0);
      this.aux, this.present, this.counts, this.sent := [a, b, c, d], present, [0, 0, 0, 0], [];
    }

    method CopyPayload(buf: seq<Byte>, at: nat, target: array<Byte>, pos: nat)
      requires at + PACKET_SIZE <= |buf| && pos + PAYLOAD_SIZE <= target.Length
      modifies target
      ensures target[..pos + PAYLOAD_SIZE] == old(target[..pos]) + Payload(buf, at)
    {
      for k := 0 to PAYLOAD_SIZE
        invariant target[..pos + k] == old(target[..pos]) + buf[at + HEADER_SIZE..at + HEADER_SIZE + k]
      {
        target[pos + k] := buf[at + HEADER_SIZE + k];
      }
    }

    /** The packet's payload goes behind what its tag's buffer holds. */
    method Collect(buf: seq<Byte>, at: nat, tag: nat)
      requires Ready() && at + PACKET_SIZE <= |buf| && tag < TAG_COUNT && present[tag]
      modifies this`counts, aux[tag]
      ensures InPlace() && counts == old(counts)[tag := old(counts[tag]) + 1]
      ensures forall t | 0 <= t < TAG_COUNT :: Passed(t) == old(Passed(t)) + if t == tag then Payload(buf, at) else []
    {
      hide Payload, Received;
      ghost var handed, waiting, c := Received(sent, tag), aux[tag][..PAYLOAD_SIZE * counts[tag]], counts[tag];
      CopyPayload(buf, at, aux[tag], PAYLOAD_SIZE * counts[tag]);
      counts := counts[tag := counts[tag] + 1];
      assert PAYLOAD_SIZE * counts[tag] == PAYLOAD_SIZE * c + PAYLOAD_SIZE;
      assert handed + (waiting + Payload(buf, at)) == handed + waiting + Payload(buf, at);
      forall t | 0 <= t < TAG_COUNT
        ensures Passed(t) == old(Passed(t)) + if t == tag then Payload(buf, at) else []
      {
        assert t != tag ==> aux[t][..] == old(aux[t][..]);
      }
    }

    /** Hands a tag's buffer to its demultiplexer and starts over. */
    method Deliver(tag: nat)
      requires InPlace() && tag < TAG_COUNT && present[tag] && counts[tag] > 0
      modifies this
      ensures InPlace() && counts == old(counts)[tag := 0]
      ensures sent == old(sent) + [Batch(tag, old(counts[tag]), aux[tag][..PAYLOAD_SIZE * old(counts[tag])])]
      ensures forall t | 0 <= t < TAG_COUNT :: Passed(t) == old(Passed(t))
    {
      hide Received;
      ghost var before, waits := sent, counts;
      var b := Batch(tag, counts[tag], aux[tag][..PAYLOAD_SIZE * counts[tag]]);
      sent := sent + [b];
      counts := counts[tag := 0];
      forall t | 0 <= t < TAG_COUNT ensures Passed(t) == old(Passed(t)) {
        ReceivedOneMore(before, b, t);
      }
    }

    /** Takes one packet in: its payload joins its tag's buffer, and a full buffer goes out. */
    method TakePacket(buf: seq<Byte>, at: nat)
      requires Ready() && at + PACKET_SIZE <= |buf|
      modifies this, aux
      ensures Ready() && old(sent) <= sent && AllFull(sent[|old(sent)|..])
      ensures forall t | 0 <= t < TAG_COUNT :: Passed(t) ==
                old(Passed(t)) + if present[t] && 4 * t <= buf[at] % 64 < 4 * t + 4 then buf[at + 6..at + 194] else []
    {
      hide TagOf, Received;
      var tag := TagOf(buf, at);
      if tag < TAG_COUNT && present[tag] {
        Collect(buf, at, tag);
        if counts[tag] >= AUX_COUNT {
          Deliver(tag);
        }
      }
    }

    /** A new item starts with empty buffers. */
    method Begin()
      requires InPlace()
      modifies this`counts
      ensures Ready() && counts == [0, 0, 0, 0]
      ensures forall t | 0 <= t < TAG_COUNT :: Passed(t) == Received(sent, t)
    {
      hide Received;
      counts := [0, 0, 0, 0];
      forall t | 0 <= t < TAG_COUNT ensures Passed(t) == Received(sent, t) {
        assert counts[t] == 0 && aux[t][..0] == [];
      }
    }

    /** Sorts the packets of an item into the buffers. */
    method SortPackets(buf: seq<Byte>, offset: nat, count: nat)
      requires Ready() && Start(offset, count) <= |buf|
      modifies this, aux
      ensures Ready() && old(sent) <= sent && AllFull(sent[|old(sent)|..])
      ensures forall t | 0 <= t < TAG_COUNT ::
                Passed(t) == old(Passed(t)) + if present[t] then Filtered(buf, offset, count, t) else []
    {
      hide Received, Payload, TagOf, Passed, AllFull;
      var from := offset;
      AllFullEmpty(sent);
      assert forall t :: Filtered(buf, offset, 0, t) == [];
      hide Filtered;
      for n := 0 to count
        invariant Ready() && old(sent) <= sent && AllFull(sent[|old(sent)|..]) && from == Start(offset, n)
        invariant forall t | 0 <= t < TAG_COUNT ::
                    Passed(t) == old(Passed(t)) + if present[t] then Filtered(buf, offset, n, t) else []
      {
        ghost var before := sent;
        forall t | 0 <= t < TAG_COUNT { FilteredOneMore(buf, offset, n, t); }
        TakePacket(buf, from);
        AllFullOn(before, sent, |old(sent)|);
        from := from + PACKET_SIZE;
      }
    }

    /** Hands out what is left in the buffers. Before batch `first` nothing belongs to this item. */
    method Flush(ghost first: nat)
      requires InPlace() && first <= |sent| && AllFull(sent[first..])
      modifies this
      ensures InPlace() && old(sent) <= sent && OnlyLastShort(sent[first..])
      ensures forall t | 0 <= t < TAG_COUNT :: Received(sent, t) == old(Passed(t))
    {
      hide Received;
      for n := 0 to TAG_COUNT
        invariant InPlace() && old(sent) <= sent
        invariant forall j | |old(sent)| <= j < |sent| :: sent[j].tag < n
        invariant forall j, k | |old(sent)| <= j < k < |sent| :: sent[j].tag < sent[k].tag
        invariant forall t | 0 <= t < n :: counts[t] == 0
        invariant forall t | 0 <= t < TAG_COUNT :: Passed(t) == old(Passed(t))
      {
        if counts[n] > 0 && present[n] {
          Deliver(n);
        }
      }
      ShortOnlyAtEnd(old(sent), sent, first);
      forall t | 0 <= t < TAG_COUNT ensures Received(sent, t) == Passed(t) {
        assert aux[t][..0] == [];
      }
    }

    /** Works one item off: with empty buffers, `count` packets from `offset` on, then the remainders. Each
        demultiplexer gets its packets of this item behind what it got before. */
    method Process(buf: seq<Byte>, offset: nat, count: nat)
      requires InPlace() && Start(offset, count) <= |buf|
      modifies this, aux
      ensures InPlace() && old(sent) <= sent && OnlyLastShort(sent[|old(sent)|..])
      ensures forall t | 0 <= t < TAG_COUNT ::
                Received(sent, t) == Received(old(sent), t) + if present[t] then Filtered(buf, offset, count, t) else []
      ensures forall b | b in sent ::
                b.tag < 4 && present[b.tag] && 1 <= b.count <= 20 && |b.data| == 188 * b.count
    {
      hide Received, Filtered, OnlyLastShort;
      Begin();
      AllFullEmpty(sent);
      SortPackets(buf, offset, count);
      Flush(|old(sent)|);
    }
  }
}
