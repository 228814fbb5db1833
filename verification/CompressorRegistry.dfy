/** The registered compressors: a circular doubly linked list kept in order of priority. */
module CompressorRegistry {
  import opened Common
  import opened Rtime

  /** A compressor either fails, leaving what it had written so far in the buffer, or packs the
      first `used` bytes of its input into `output`. */
  datatype Outcome = Failed(scratch: seq<Byte>) | Packed(used: nat, output: seq<Byte>)

  class Compressor {
    var prev: Compressor?
    var next: Compressor?
    var priority: int
    var disabled: bool
    var usecount: nat
    /** Output buffer kept between calls in size mode. */
    var buf: array?<Byte>
    var bufSize: nat
    const name: Option<string>
    /** Compression type stored with the data; 0 stands for no compression. */
    const compr: nat
    const compress: Option<(seq<Byte>, nat) -> Outcome>
    const decompress: (seq<Byte>, nat) -> seq<Byte>

    constructor (name: Option<string>, compr: nat, priority: int, compress: Option<(seq<Byte>, nat) -> Outcome>,
                 decompress: (seq<Byte>, nat) -> seq<Byte>)
      ensures this.name == name && this.compr == compr && this.priority == priority && !disabled && usecount == 0
      ensures this.compress == compress && this.decompress == decompress && buf == null
    {
      this.prev, this.next, this.buf, this.bufSize := null, null, null, 0;
      this.name, this.compr, this.priority, this.disabled, this.usecount := name, compr, priority, false, 0;
      this.compress, this.decompress := compress, decompress;
    }
  }

  /** Highest priority first. */
  predicate NonIncreasing(s: seq<int>) {
    forall j, k | 0 <= j < k < |s| :: s[j] >= s[k]
  }

  /** Where priority `p` goes: in front of the first smaller one. */
  function Slot(s: seq<int>, p: int): (k: nat)
    ensures k <= |s|
    ensures forall j | 0 <= j < k :: s[j] >= p
    ensures k < |s| ==> s[k] < p
  {
    if s == [] || s[0] < p then 0 else 1 + Slot(s[1..], p)
  }

  /** Inserting there keeps the order and puts the newcomer behind all its equals. */
  lemma SlotKeepsOrder(s: seq<int>, p: int)
    requires NonIncreasing(s)
    ensures NonIncreasing(Insert(s, Slot(s, p), p))
    ensures forall j | 0 <= j < |s| :: s[j] == p ==> j < Slot(s, p)
  {
  }

  lemma WithoutKeepsOrder(s: seq<int>, k: nat)
    requires k < |s| && NonIncreasing(s)
    ensures NonIncreasing(Without(s, k))
  {
  }

  lemma WithoutSame<T>(s: seq<T>, t: seq<T>, k: nat)
    requires k < |s| == |t| && forall j | 0 <= j < |s| && j != k :: s[j] == t[j]
    ensures Without(s, k) == Without(t, k)
  {
  }

  lemma InsertAddsOne<T>(s: seq<T>, k: nat, x: T)
    requires k <= |s|
    ensures multiset(Insert(s, k, x)) == multiset(s) + multiset{x}
  {
    assert s == s[..k] + s[k..];
  }

  lemma WithoutTakesOne<T>(s: seq<T>, k: nat)
    requires k < |s|
    ensures multiset(Without(s, k)) + multiset{s[k]} == multiset(s)
  {
    InsertAddsOne(Without(s, k), k, s[k]);
    assert Insert(Without(s, k), k, s[k]) == s;
  }

  /** Taking one out and putting it back somewhere is a permutation. */
  lemma MoveIsPermutation<T>(s: seq<T>, k: nat, m: nat)
    requires k < |s| && m < |s|
    ensures multiset(Insert(Without(s, k), m, s[k])) == multiset(s)
  {
    InsertAddsOne(Without(s, k), m, s[k]);
    WithoutTakesOne(s, k);
  }

  /** Consecutive members point at each other. */
  ghost predicate Linked(c: seq<Compressor>)
    reads c`next, c`prev
  {
    && (forall k {:trigger c[k].next} | 0 <= k < |c| - 1 :: c[k].next == c[k + 1])
    && (forall k {:trigger c[k].prev} | 1 <= k < |c| :: c[k].prev == c[k - 1])
  }

  lemma SlotIs(s: seq<int>, p: int, k: nat)
    requires k <= |s| && (forall j | 0 <= j < k :: s[j] >= p) && (k < |s| ==> s[k] < p)
    ensures Slot(s, p) == k
  {
  }

  /** Position of the first compressor called `name`. */
  function Named(s: seq<Compressor>, name: string): (k: nat)
    ensures k <= |s|
    ensures k < |s| ==> s[k].name == Some(name)
    ensures forall j | 0 <= j < k :: s[j].name != Some(name)
  {
    if s == [] || s[0].name == Some(name) then 0 else 1 + Named(s[1..], name)
  }

  lemma NamedIs(s: seq<Compressor>, name: string, k: nat)
    requires k <= |s| && (forall j | 0 <= j < k :: s[j].name != Some(name)) && (k < |s| ==> s[k].name == Some(name))
    ensures Named(s, name) == k
  {
  }

  method LinkBetween(x: Compressor, prev: Compressor, next: Compressor)
    requires x != prev && x != next
    modifies x`next, x`prev, prev`next, next`prev
    ensures next.prev == x && x.next == next && x.prev == prev && prev.next == x
  {
    next.prev := x;
    x.next := next;
    x.prev := prev;
    prev.next := x;
  }

  method Detach(x: Compressor)
    requires x.next != null && x.prev != null && x.next != x && x.prev != x
    modifies x`next, x`prev, x.next`prev, x.prev`next
    ensures x.next == null && x.prev == null
    ensures old(x.next).prev == old(x.prev) && old(x.prev).next == old(x.next)
  {
    x.next.prev := x.prev;
    x.prev.next := x.next;
    x.next := null;
    x.prev := null;
  }

  /** A circle: the members but the last are all different, the last is the first again. */
  ghost predicate Closed(c: seq<Compressor>) {
    |c| >= 2 && c[0] == c[|c| - 1] && Distinct(c[..|c| - 1])
  }

  lemma ClosedApart(c: seq<Compressor>, j: nat, k: nat)
    requires Closed(c) && j < |c| && k < |c| && j != k && !(j == 0 && k == |c| - 1) && !(k == 0 && j == |c| - 1)
    ensures c[j] != c[k]
  {
    var n := |c| - 1;
    var i, m := if j == n then 0 else j, if k == n then 0 else k;
    assert c[..n][i] != c[..n][m];
  }

  lemma CircleInsert(h: Compressor, s: seq<Compressor>, k: nat, x: Compressor)
    requires k <= |s| && Distinct(s) && x !in s && x != h && h !in s
    ensures [h] + Insert(s, k, x) + [h] == Insert([h] + s + [h], k + 1, x)
    ensures Distinct(Insert(s, k, x)) && h !in Insert(s, k, x)
  {
  }

  lemma CircleWithout(h: Compressor, s: seq<Compressor>, k: nat)
    requires k < |s| && Distinct(s) && h !in s
    ensures [h] + Without(s, k) + [h] == Without([h] + s + [h], k + 1)
    ensures Distinct(Without(s, k)) && h !in Without(s, k)
  {
  }

  /** Linking a newcomer between two neighbours keeps everyone linked. */
  lemma AddKeepsLinks(c: seq<Compressor>, k: nat, x: Compressor)
    requires k + 1 < |c|
    requires c[k + 1].prev == x && x.next == c[k + 1] && x.prev == c[k] && c[k].next == x
    requires forall j {:trigger c[j].next} | 0 <= j < |c| - 1 && j != k :: c[j].next == c[j + 1]
    requires forall j {:trigger c[j].prev} | 1 <= j < |c| && j != k + 1 :: c[j].prev == c[j - 1]
    ensures Linked(Insert(c, k + 1, x))
  {
  }

  /** Joining the neighbours of a member that leaves keeps everyone else linked. */
  lemma DelKeepsLinks(c: seq<Compressor>, k: nat)
    requires 1 <= k && k + 1 < |c|
    requires c[k + 1].prev == c[k - 1] && c[k - 1].next == c[k + 1]
    requires forall j {:trigger c[j].next} | 0 <= j < |c| - 1 && j != k && j != k - 1 :: c[j].next == c[j + 1]
    requires forall j {:trigger c[j].prev} | 1 <= j < |c| && j != k && j != k + 1 :: c[j].prev == c[j - 1]
    ensures Linked(Without(c, k))
  {
  }

  ghost function PrioritiesOf(s: seq<Compressor>): (p: seq<int>)
    reads s`priority
    ensures |p| == |s| && forall k | 0 <= k < |s| :: p[k] == s[k].priority
  {
    if s == [] then [] else [s[0].priority] + PrioritiesOf(s[1..])
  }

  lemma {:induction false} PrioritiesInsert(s: seq<Compressor>, k: nat, x: Compressor)
    requires k <= |s|
    ensures PrioritiesOf(Insert(s, k, x)) == Insert(PrioritiesOf(s), k, x.priority)
  {
    hide PrioritiesOf;
    var longer := Insert(s, k, x);
    assert forall j | 0 <= j < |longer| :: longer[j] == if j < k then s[j] else if j == k then x else s[j - 1];
  }

  lemma {:induction false} PrioritiesWithout(s: seq<Compressor>, k: nat)
    requires k < |s|
    ensures PrioritiesOf(Without(s, k)) == Without(PrioritiesOf(s), k)
  {
    hide PrioritiesOf;
  }

  class Registry {
    /** The list head; it is a member of the ring but no compressor. */
    const head: Compressor
    ghost var ring: seq<Compressor>

    /** Once around, from the head back to the head. */
    ghost function Circle(): seq<Compressor>
      reads this`ring
    {
      [head] + ring + [head]
    }

    ghost function Members(): set<Compressor>
      reads this`ring
    {
      set c | c in Circle()
    }

    ghost predicate Valid()
      reads this`ring, head`next, head`prev, ring`next, ring`prev
    {
      head !in ring && Distinct(ring) && Linked(Circle())
    }

    /** The next pointers of the head and of each compressor in turn. */
    ghost function Nexts(): (n: seq<Compressor>)
      requires Valid()
      reads this, head, ring
      ensures n == ring + [head] && head.next == n[0]
      ensures forall k {:trigger ring[k].next} | 0 <= k < |ring| :: ring[k].next == n[k + 1]
    {
      var circle := Circle();
      assert forall k {:trigger ring[k]} | 0 <= k < |ring| ::
          ring[k] == circle[k + 1] && circle[k + 1].next == circle[k + 2];
      assert head == Circle()[0] && head.next == Circle()[1];
      ring + [head]
    }

    ghost function Priorities(): (p: seq<int>)
      reads this`ring, ring`priority
      ensures |p| == |ring| && forall k | 0 <= k < |ring| :: p[k] == ring[k].priority
    {
      PrioritiesOf(ring)
    }

    /** The order that every operation keeps. */
    ghost predicate Ordered()
      reads this`ring, ring`priority
    {
      NonIncreasing(Priorities())
    }

    constructor ()
      ensures Valid() && Ordered() && ring == [] && fresh(head)
    {
      var h := new Compressor(None, 0, 0, None, (d, n) => []);
      head := h;
      new;
      head.next, head.prev := head, head;
      ring := [];
    }

    /** Links `x` behind the `k`-th member of the circle. */
    method ListAdd(x: Compressor, prev: Compressor, ghost k: nat)
      requires Valid() && x != head && x !in ring
      requires k <= |ring| && prev == Circle()[k]
      modifies this`ring, Members()`next, Members()`prev, x`next, x`prev
      ensures Valid() && ring == Insert(old(ring), k, x)
    {
      ghost var before := Circle();
      assert before[k].next == before[k + 1];
      LinkBetween(x, prev, prev.next);
      forall j | 0 <= j < |before| - 1 && j != k ensures before[j].next == before[j + 1] {
        ClosedApart(before, j, k);
        assert old(before[j].next) == before[j + 1];
      }
      forall j | 1 <= j < |before| && j != k + 1 ensures before[j].prev == before[j - 1] {
        ClosedApart(before, j, k + 1);
        assert old(before[j].prev) == before[j - 1];
      }
      hide Linked, Insert, Distinct, Closed;
      CircleInsert(head, ring, k, x);
      ring := Insert(ring, k, x);
      AddKeepsLinks(before, k, x);
    }

    /** Unlinks the `k`-th compressor. */
    method ListDel(x: Compressor, ghost k: nat)
      requires Valid() && k < |ring| && ring[k] == x
      modifies this`ring, Members()`next, Members()`prev
      ensures Valid() && ring == Without(old(ring), k)
      ensures x.next == null && x.prev == null
    {
      ghost var before := Circle();
      assert before[k + 1] == x && before[k + 1].next == before[k + 2] && before[k + 1].prev == before[k];
      Detach(x);
      forall j | 0 <= j < |before| - 1 && j != k + 1 && j != k ensures before[j].next == before[j + 1] {
        ClosedApart(before, j, k);
        ClosedApart(before, j, k + 1);
        assert old(before[j].next) == before[j + 1];
      }
      forall j | 1 <= j < |before| && j != k + 1 && j != k + 2 ensures before[j].prev == before[j - 1] {
        ClosedApart(before, j, k + 1);
        ClosedApart(before, j, k + 2);
        assert old(before[j].prev) == before[j - 1];
      }
      hide Linked, Without, Distinct, Closed;
      CircleWithout(head, ring, k);
      ring := Without(ring, k);
      DelKeepsLinks(before, k + 1);
    }

    /** The member that a compressor of this priority goes behind. */
    method FindSlot(priority: int) returns (prev: Compressor)
      requires Valid()
      ensures prev == Circle()[Slot(Priorities(), priority)]
    {
      assert Circle()[0].next == Circle()[1];
      var c := head.next;
      ghost var k := 0;
      while c != head
        invariant k <= |ring| && c == Circle()[k + 1]
        invariant forall j | 0 <= j < k :: ring[j].priority >= priority
        decreases |ring| - k
      {
        assert k < |ring| && c == ring[k];
        assert Circle()[k + 1].next == Circle()[k + 2] && Circle()[k + 1].prev == Circle()[k];
        if c.priority < priority {
          SlotIs(Priorities(), priority, k);
          return c.prev;
        }
        c, k := c.next, k + 1;
      }
      assert Circle()[k + 1].prev == Circle()[k];
      SlotIs(Priorities(), priority, k);
      return head.prev;
    }

    /** Inserts behind everyone of the same or a higher priority. */
    method InsertByPriority(comp: Compressor)
      requires Valid() && comp != head && comp !in ring
      modifies this`ring, Members()`next, Members()`prev, comp`next, comp`prev
      ensures Valid() && ring == Insert(old(ring), Slot(old(Priorities()), comp.priority), comp)
      ensures Priorities() == Insert(old(Priorities()), Slot(old(Priorities()), comp.priority), comp.priority)
    {
      hide Linked;
      var prev := FindSlot(comp.priority);
      ghost var k, was, ranks := Slot(Priorities(), comp.priority), ring, Priorities();
      hide Slot, PrioritiesOf, Insert, Distinct;
      ListAdd(comp, prev, k);
      PrioritiesInsert(was, k, comp);
    }

    /** The newcomer joins the list in order. */
    method Enlist(comp: Compressor)
      requires Valid() && comp != head && comp !in ring
      modifies this`ring, Members()`next, Members()`prev, comp`next, comp`prev
      ensures Valid() && (old(Ordered()) ==> Ordered())
      ensures ring == Insert(old(ring), Slot(old(Priorities()), comp.priority), comp)
      ensures multiset(ring) == multiset(old(ring)) + multiset{comp}
    {
      ghost var was, ranks := ring, Priorities();
      if Ordered() {
        SlotKeepsOrder(ranks, comp.priority);
      }
      hide Linked, Insert, NonIncreasing, Distinct, PrioritiesOf;
      InsertByPriority(comp);
      InsertAddsOne(was, Slot(ranks, comp.priority), comp);
    }

    /** Registers a compressor; -1 when it has no name. */
    method Register(comp: Compressor) returns (ret: int)
      requires Valid() && comp != head && comp !in ring
      modifies this`ring, Members()`next, Members()`prev
      modifies comp`next, comp`prev, comp`buf, comp`bufSize, comp`usecount
      ensures Valid() && (old(Ordered()) ==> Ordered())
      ensures comp.name.None? ==> ret == -1 && ring == old(ring)
      ensures comp.name.Some? ==>
                && ret == 0 && comp.usecount == 0 && comp.buf == null
                && ring == Insert(old(ring), Slot(old(Priorities()), comp.priority), comp)
                && multiset(ring) == multiset(old(ring)) + multiset{comp}
    {
      hide Linked, Insert, NonIncreasing, Distinct, PrioritiesOf, Slot;
      if comp.name.None? {
        return -1;
      }
      comp.buf, comp.bufSize, comp.usecount := null, 0, 0;
      Enlist(comp);
      return 0;
    }

    /** Takes a compressor off the list; -1 while it is in use. */
    method Unregister(comp: Compressor, ghost k: nat) returns (ret: int)
      requires Valid() && k < |ring| && ring[k] == comp
      modifies this`ring, Members()`next, Members()`prev
      ensures Valid() && (old(Ordered()) ==> Ordered())
      ensures if comp.usecount > 0 then ret == -1 && ring == old(ring)
              else
                && ret == 0 && ring == Without(old(ring), k)
                && multiset(ring) == multiset(old(ring)) - multiset{comp}
    {
      if comp.usecount > 0 {
        return -1;
      }
      ghost var was, ranks := ring, Priorities();
      WithoutTakesOne(ring, k);
      if Ordered() {
        WithoutKeepsOrder(ranks, k);
      }
      hide Linked, PrioritiesOf, Without, Distinct, NonIncreasing;
      ListDel(comp, k);
      PrioritiesWithout(was, k);
      return 0;
    }

    /** Moves the `k`-th compressor to the place its priority asks for. */
    method Reinsert(comp: Compressor, ghost k: nat, ghost others: seq<int>)
      requires Valid() && k < |ring| && ring[k] == comp && others == Without(Priorities(), k)
      modifies this`ring, Members()`next, Members()`prev
      ensures Valid()
      ensures ring == Insert(Without(old(ring), k), Slot(others, comp.priority), comp)
      ensures Priorities() == Insert(others, Slot(others, comp.priority), comp.priority)
    {
      assert comp !in Without(ring, k);
      ghost var was := ring;
      hide Linked, Slot, PrioritiesOf, Insert, Without, Distinct;
      ListDel(comp, k);
      PrioritiesWithout(was, k);
      InsertByPriority(comp);
    }

    /** Changes the priority of the `k`-th compressor and moves it to where that belongs. */
    method Reprioritise(comp: Compressor, ghost k: nat, priority: int)
      requires Valid() && k < |ring| && ring[k] == comp
      modifies this`ring, Members()`next, Members()`prev, comp`priority
      ensures Valid() && comp.priority == priority && (old(Ordered()) ==> Ordered())
      ensures ring == Insert(Without(old(ring), k), Slot(Without(old(Priorities()), k), priority), comp)
    {
      ghost var ranks := Priorities();
      comp.priority := priority;
      assert Linked(Circle());
      hide Linked, Slot;
      ghost var others := Without(ranks, k);
      WithoutSame(Priorities(), ranks, k);
      if old(Ordered()) {
        WithoutKeepsOrder(ranks, k);
        SlotKeepsOrder(others, priority);
      }
      Reinsert(comp, k, others);
    }

    /** The first compressor called `name`, or the head. */
    method FindNamed(name: string) returns (comp: Compressor)
      requires Valid()
      ensures var k := Named(ring, name);
              comp == if k < |ring| then ring[k] else head
    {
      assert Circle()[0].next == Circle()[1];
      comp := head.next;
      ghost var k := 0;
      while comp != head && comp.name != Some(name)
        invariant k <= |ring| && comp == Circle()[k + 1]
        invariant forall j | 0 <= j < k :: ring[j].name != Some(name)
        decreases |ring| - k
      {
        assert Circle()[k + 1].next == Circle()[k + 2];
        comp, k := comp.next, k + 1;
      }
      NamedIs(ring, name, k);
    }

    /** Gives the first compressor called `name` a new priority and its new place; 1 when there
        is none. */
    method SetPriority(name: string, priority: int) returns (ret: int)
      requires Valid()
      modifies this`ring, Members()`next, Members()`prev, Members()`priority
      ensures Valid() && (old(Ordered()) ==> Ordered())
      ensures multiset(ring) == multiset(old(ring))
      ensures var k := Named(old(ring), name);
              if k == |old(ring)| then ret == 1 && ring == old(ring) && Priorities() == old(Priorities())
              else
                && ret == 0
                && old(ring)[k].priority == priority
                && ring == Insert(Without(old(ring), k), Slot(Without(old(Priorities()), k), priority), old(ring)[k])
                && (forall c | c in old(ring) && c != old(ring)[k] :: c.priority == old(c.priority))
    {
      var comp := FindNamed(name);
      if comp == head {
        return 1;
      }
      ghost var k, was, others := Named(ring, name), ring, Without(Priorities(), Named(ring, name));
      Reprioritise(comp, k, priority);
      MoveIsPermutation(was, k, Slot(others, priority));
      return 0;
    }
  }
}
