/** The PID filter table: slots own entries of a table that the transport firmware reads while the
    driver changes it. */
module PtiPids {
  import opened Common

  type Half = x: int | 0 <= x < 0x1_0000

  const SLOTS: nat := 32
  const SLOT_HANDLE_OFFSET: int := 20000
  const NO_PID: Half := 0xffff
  /** Byte addresses of the firmware's variables. */
  const NUM_PIDS: nat := 32810
  const PIDTABLE: nat := 32826
  /** Cells between the start of the table and the firmware's next variable. */
  const TABLE_ENTRIES: nat := 64
  const MEMORY_WORDS: nat := 0x3000

  datatype Slot = Slot(handle: int, inUse: bool, tcIndex: int, pid: Half)

  predicate Even(addr: nat) {
    addr % 2 == 0
  }

  function HalfOf(w: Word, high: bool): Half {
    if high then w / 0x1_0000 else w % 0x1_0000
  }

  function WithHalf(w: Word, high: bool, value: Half): Word {
    if high then w % 0x1_0000 + value * 0x1_0000 else w / 0x1_0000 * 0x1_0000 + value
  }

  lemma WithHalfKeepsOther(w: Word, high: bool, value: Half)
    ensures HalfOf(WithHalf(w, high, value), high) == value
    ensures HalfOf(WithHalf(w, high, value), !high) == HalfOf(w, !high)
  {
  }

  /** The 16-bit cell at an even byte address. */
  function Cell(mem: seq<Word>, addr: nat): Half
    requires addr / 4 < |mem|
  {
    HalfOf(mem[addr / 4], addr % 4 >= 2)
  }

  lemma HalfOffset(a: nat, q: nat, rest: nat)
    requires Even(a) && a == 4 * q + rest && rest < 4
    ensures rest == 0 || rest == 2
  {
    var d := a / 2 - 2 * q;
    assert rest == 2 * d;
  }

  lemma SameWordOtherHalf(a: nat, b: nat)
    requires Even(a) && Even(b) && a != b && a / 4 == b / 4
    ensures (a % 4 >= 2) == !(b % 4 >= 2)
  {
    hide Even;
    HalfOffset(a, a / 4, a % 4);
    HalfOffset(b, b / 4, b % 4);
  }

  /** Writes a 16-bit cell through the 32-bit word around it, since the bus ignores byte enables.
      The other half of the word and all other words keep their value. */
  method PtiWrite(mem: array<Word>, addr: nat, value: Half)
    requires Even(addr) && addr / 4 < mem.Length
    modifies mem
    ensures if addr % 4 < 2 then mem[addr / 4] % 65536 == value && mem[addr / 4] / 65536 == old(mem[addr / 4]) / 65536
            else mem[addr / 4] / 65536 == value && mem[addr / 4] % 65536 == old(mem[addr / 4]) % 65536
    ensures forall w | 0 <= w < mem.Length && w != addr / 4 :: mem[w] == old(mem[w])
    ensures Cell(mem[..], addr) == value
    ensures forall b: nat | Even(b) && b / 4 < mem.Length && b != addr :: Cell(mem[..], b) == Cell(old(mem[..]), b)
  {
    var was, high := mem[addr / 4], addr % 4 >= 2;
    mem[addr / 4] := WithHalf(was, high, value);
    WithHalfKeepsOther(was, high, value);
    hide HalfOf, WithHalf;
    forall b: nat | Even(b) && b / 4 < mem.Length && b != addr
      ensures Cell(mem[..], b) == Cell(old(mem[..]), b)
    {
      if b / 4 == addr / 4 {
        SameWordOtherHalf(addr, b);
      }
    }
  }

  function EntryAddr(k: nat): nat {
    PIDTABLE + 2 * k
  }

  /** What the firmware matches packets against: the first `num_pids` table entries. */
  function Visible(mem: seq<Word>): (v: seq<Half>)
    requires |mem| == MEMORY_WORDS
    requires Cell(mem, NUM_PIDS) <= TABLE_ENTRIES
    ensures |v| == Cell(mem, NUM_PIDS)
    ensures forall k | 0 <= k < |v| :: v[k] == Cell(mem, EntryAddr(k))
  {
    seq(Cell(mem, NUM_PIDS), k requires 0 <= k < Cell(mem, NUM_PIDS) => Cell(mem, EntryAddr(k)))
  }

  /** The words in which the firmware finds the count and the entries: the count in the upper half of word 8202, the
      entries from the upper half of word 8206 on, two in a word, the lower half first. */
  lemma VisibleIs(mem: seq<Word>, k: nat)
    requires |mem| == MEMORY_WORDS && k < Cell(mem, NUM_PIDS) <= TABLE_ENTRIES
    ensures |Visible(mem)| == mem[8202] / 65536
    ensures Visible(mem)[2 * (k / 2)] == mem[8206 + k / 2] / 65536
    ensures k % 2 == 1 ==> Visible(mem)[k] == mem[8207 + k / 2] % 65536
  {
    var h := k / 2;
    assert EntryAddr(2 * h) == 4 * (8206 + h) + 2;
    assert k % 2 == 1 ==> EntryAddr(k) == 4 * (8207 + h);
  }

  /** One entry is written. */
  lemma VisibleEntry(was: seq<Word>, mem: seq<Word>, k: nat)
    requires |was| == |mem| == MEMORY_WORDS && k < Cell(was, NUM_PIDS) <= TABLE_ENTRIES
    requires forall b: nat | Even(b) && b / 4 < |mem| && b != EntryAddr(k) :: Cell(mem, b) == Cell(was, b)
    ensures Cell(mem, NUM_PIDS) == Cell(was, NUM_PIDS)
    ensures Visible(mem) == Visible(was)[k := Cell(mem, EntryAddr(k))]
  {
    hide Cell, Visible;
    assert Even(NUM_PIDS);
    forall j: nat | j < Cell(was, NUM_PIDS) && j != k
      ensures Cell(mem, EntryAddr(j)) == Cell(was, EntryAddr(j))
    {
      assert Even(EntryAddr(j)) && EntryAddr(j) != EntryAddr(k);
    }
  }

  /** The count is taken down. */
  lemma VisibleFewer(was: seq<Word>, mem: seq<Word>, n: nat)
    requires |was| == |mem| == MEMORY_WORDS && n <= Cell(was, NUM_PIDS) <= TABLE_ENTRIES && Cell(mem, NUM_PIDS) == n
    requires forall b: nat | Even(b) && b / 4 < |mem| && b != NUM_PIDS :: Cell(mem, b) == Cell(was, b)
    ensures Visible(mem) == Visible(was)[..n]
  {
    hide Cell, Visible;
    forall j: nat | j < n
      ensures Cell(mem, EntryAddr(j)) == Cell(was, EntryAddr(j))
    {
      assert Even(EntryAddr(j));
    }
  }

  /** Entries and owners: entry `k` of the table belongs to slot `owner[k]`, which knows it. */
  ghost predicate Owned(slots: seq<Slot>, table: seq<Half>, owner: seq<nat>) {
    && |slots| == SLOTS && |owner| == |table| && Distinct(table)
    && (forall i | 0 <= i < SLOTS :: slots[i].handle == SLOT_HANDLE_OFFSET + i)
    && (forall k | 0 <= k < |owner| ::
          owner[k] < SLOTS && slots[owner[k]].tcIndex == k && slots[owner[k]].pid == table[k])
    && (forall i | 0 <= i < SLOTS && slots[i].tcIndex != -1 ::
          slots[i].inUse && slots[i].pid != NO_PID && 0 <= slots[i].tcIndex < |owner| && owner[slots[i].tcIndex] == i)
  }

  /** The firmware still sees every entry of `table` but `except`. */
  predicate StillSees(visible: seq<Half>, table: seq<Half>, except: Half) {
    forall p | p in table && p != except :: p in visible
  }

  lemma {:induction false} DistinctBound(owner: seq<nat>, n: nat)
    requires Distinct(owner) && forall k | 0 <= k < |owner| :: owner[k] < n
    ensures |owner| <= n
    decreases n
  {
    if owner != [] {
      assert owner[0] < n;
      if k :| 0 <= k < |owner| && owner[k] == n - 1 {
        DistinctBound(owner[..k] + owner[k + 1..], n - 1);
      } else {
        DistinctBound(owner, n - 1);
      }
    }
  }

  /** While a slot owns nothing the table has room. */
  lemma RoomForOne(slots: seq<Slot>, table: seq<Half>, owner: seq<nat>, i: nat)
    requires Owned(slots, table, owner) && i < SLOTS && slots[i].tcIndex == -1
    ensures |table| < SLOTS
  {
    assert Distinct(owner + [i]) by {
      forall j, k | 0 <= j < k < |owner + [i]| ensures (owner + [i])[j] != (owner + [i])[k] {
        assert slots[owner[j]].tcIndex == j;
      }
    }
    DistinctBound(owner + [i], SLOTS);
  }

  /** The last entry has one owner, and a slot with an index owns a real PID. */
  lemma OwnersAre(slots: seq<Slot>, table: seq<Half>, owner: seq<nat>, i: nat)
    requires Owned(slots, table, owner) && i < SLOTS && slots[i].tcIndex != -1
    ensures 0 <= slots[i].tcIndex < |owner| == |table| && slots[i].pid == table[slots[i].tcIndex] != NO_PID
    ensures var last := owner[|owner| - 1];
            && last < SLOTS && slots[last].tcIndex == |owner| - 1
            && forall j | 0 <= j < SLOTS && slots[j].tcIndex == |owner| - 1 :: j == last
  {
  }

  /** A new entry at the end of the table. */
  lemma OwnedAfterSet(slots: seq<Slot>, table: seq<Half>, owner: seq<nat>, i: nat, pid: Half)
    requires Owned(slots, table, owner) && i < SLOTS
    requires slots[i].inUse && slots[i].tcIndex == -1 && pid != NO_PID && pid !in table
    ensures Owned(slots[i := slots[i].(pid := pid, tcIndex := |table|)], table + [pid], owner + [i])
  {
  }

  /** The last entry moves into the place of the one that goes. */
  function SwapOut<T>(s: seq<T>, k: nat): seq<T>
    requires k < |s|
  {
    s[k := s[|s| - 1]][..|s| - 1]
  }

  lemma OwnedAfterClear(slots: seq<Slot>, table: seq<Half>, owner: seq<nat>, i: nat)
    requires Owned(slots, table, owner) && i < SLOTS && slots[i].tcIndex != -1
    ensures var k, last := slots[i].tcIndex, owner[|owner| - 1];
            Owned(slots[last := slots[last].(tcIndex := k)][i := slots[i].(tcIndex := -1)],
                  SwapOut(table, k), SwapOut(owner, k))
  {
  }

  /** A slot that moves on leaves its old entry without an owner. */
  lemma LostEntry(slots: seq<Slot>, table: seq<Half>, owner: seq<nat>, k: int, i: nat)
    requires |slots| == SLOTS && i < SLOTS && 0 <= k < |table| - 1
    requires slots[i].tcIndex == |table| - 1
    requires forall j | 0 <= j < SLOTS && j != i :: slots[j].tcIndex != k
    ensures !Owned(slots, table, owner)
  {
    var j := if k < |owner| then owner[k] else 0;
    assert Owned(slots, table, owner) ==> 0 <= j < SLOTS;
  }

  lemma SwapOutSees(table: seq<Half>, k: nat)
    requires k < |table|
    ensures StillSees(table[k := table[|table| - 1]], table, table[k])
    ensures StillSees(SwapOut(table, k), table, table[k])
  {
    var n := |table| - 1;
    var over, out := table[k := table[n]], SwapOut(table, k);
    forall p | p in table && p != table[k] ensures p in over && p in out {
      var m :| 0 <= m < |table| && table[m] == p;
      assert over[if m == k then n else m] == p;
      if m == n {
        assert out[k] == p;
      } else {
        assert out[m] == p;
      }
    }
  }

  class PtiTable {
    const mem: array<Word>
    const slots: array<Slot>
    /** Ghost view: table entries, owners, and what the firmware saw after each write. */
    ghost var owner: seq<nat>
    ghost var seen: seq<seq<Half>>

    ghost predicate InPlace()
      reads this
    {
      mem.Length == MEMORY_WORDS && slots.Length == SLOTS
    }

    ghost function Table(): seq<Half>
      requires InPlace() && Cell(mem[..], NUM_PIDS) <= TABLE_ENTRIES
      reads this, mem
    {
      Visible(mem[..])
    }

    /** Slots and table are in step: every entry has exactly one owner, which knows its index. */
    ghost predicate Valid()
      reads this, mem, slots
    {
      InPlace() && Cell(mem[..], NUM_PIDS) <= SLOTS && Owned(slots[..], Table(), owner)
    }

    constructor ()
      ensures Valid() && Table() == [] && fresh(mem) && fresh(slots)
      ensures slots.Length == 32 && forall i | 0 <= i < 32 :: slots[i] == Slot(20000 + i, false, -1, 0xffff)
    {
      mem := new Word[MEMORY_WORDS](_ => 0);
      slots := new Slot[SLOTS](i => Slot(SLOT_HANDLE_OFFSET + i, false, -1, NO_PID));
      owner, seen := [], [];
      new;
      assert Cell(mem[..], NUM_PIDS) == 0;
    }

    /** Hands out the first slot not in use; -1 when all are. */
    method GetNewSlotHandle() returns (handle: int)
      requires Valid()
      modifies slots
      ensures Valid() && Table() == old(Table())
      ensures handle == -1 ==> slots[..] == old(slots[..]) && forall i | 0 <= i < SLOTS :: slots[i].inUse
      ensures handle != -1 ==>
                var i := handle - SLOT_HANDLE_OFFSET;
                && 0 <= i < SLOTS && !old(slots[i].inUse) && (forall j | 0 <= j < i :: old(slots[j].inUse))
                && slots[..] == old(slots[..])[i := old(slots[i]).(inUse := true)]
    {
      for i := 0 to SLOTS
        invariant slots[..] == old(slots[..]) && forall j | 0 <= j < i :: slots[j].inUse
      {
        if !slots[i].inUse {
          slots[i] := slots[i].(inUse := true, tcIndex := -1);
          return slots[i].handle;
        }
      }
      return -1;
    }

    /** The two writes of a new entry: the firmware sees the PID only once the count covers it. */
    method Append(pid: Half, ghost table: seq<Half>)
      requires InPlace() && Cell(mem[..], NUM_PIDS) < TABLE_ENTRIES && table == Table()
      modifies this`seen, mem
      ensures Cell(mem[..], NUM_PIDS) <= TABLE_ENTRIES && Table() == table + [pid]
      ensures seen == old(seen) + [table, Table()]
    {
      var n := Cell(mem[..], NUM_PIDS);
      PtiWrite(mem, EntryAddr(n), pid);
      seen := seen + [Visible(mem[..])];
      assert Visible(mem[..]) == table;
      PtiWrite(mem, NUM_PIDS, n + 1);
      seen := seen + [Visible(mem[..])];
    }

    /** Adds `pid` to the table for a slot. -1 when the table has it already, or no slot in use
        has that handle. A slot must own nothing and the PID be a real one for the table and the
        slots to stay in step: then and only then are they. A full table has an entry for every slot,
        so that setting one more always loses an owner. */
    method SetPid(handle: int, pid: Half) returns (ret: int)
      requires Valid()
      modifies this`owner, this`seen, mem, slots
      ensures var i := handle - SLOT_HANDLE_OFFSET;
              if pid in old(Table()) || !(0 <= i < SLOTS) || !old(slots[i].inUse) then
                ret == -1 && Valid() && Table() == old(Table()) && slots[..] == old(slots[..]) && seen == old(seen)
              else
                && ret == 0
                && slots[..] == old(slots[..])[i := old(slots[i]).(pid := pid, tcIndex := old(|Table()|))]
                && InPlace() && Cell(mem[..], NUM_PIDS) <= TABLE_ENTRIES && Table() == old(Table()) + [pid]
                && seen == old(seen) + [old(Table()), Table()]
                && (if old(slots[i].tcIndex) == -1 && pid != NO_PID then Valid()
                    else forall o: seq<nat> :: !Owned(slots[..], Table(), o))
    {
      ghost var table := Table();
      var n := Cell(mem[..], NUM_PIDS);
      for k := 0 to n
        invariant pid !in table[..k]
      {
        if Cell(mem[..], EntryAddr(k)) == pid {
          return -1;
        }
      }
      assert table[..n] == table;
      var i := 0;
      while i < SLOTS && slots[i].handle != handle
        invariant i <= SLOTS && forall j | 0 <= j < i :: slots[j].handle != handle
      {
        i := i + 1;
      }
      if i == SLOTS || !slots[i].inUse {
        return -1;
      }
      ghost var before, idle := slots[..], slots[i].tcIndex == -1;
      slots[i] := slots[i].(pid := pid, tcIndex := n);
      Append(pid, table);
      if idle && pid != NO_PID {
        RoomForOne(before, table, owner, i);
        OwnedAfterSet(before, table, owner, i, pid);
        owner := owner + [i];
      } else {
        forall o: seq<nat> ensures !Owned(slots[..], Table(), o) {
          if !idle {
            LostEntry(slots[..], Table(), o, before[i].tcIndex, i);
          }
        }
      }
      return 0;
    }

    /** The first slot with a given index. */
    method FindIndex(n: int) returns (j: nat)
      requires InPlace()
      ensures j <= SLOTS && (j < SLOTS ==> slots[j].tcIndex == n)
      ensures forall m | 0 <= m < j :: slots[m].tcIndex != n
    {
      j := 0;
      while j < SLOTS && n != slots[j].tcIndex
        invariant j <= SLOTS && forall m | 0 <= m < j :: slots[m].tcIndex != n
      {
        j := j + 1;
      }
    }

    /** The two writes of a removal. */
    method Shrink(k: nat, ghost table: seq<Half>)
      requires InPlace() && k < Cell(mem[..], NUM_PIDS) <= SLOTS && table == Table()
      modifies this`seen, mem
      ensures Cell(mem[..], NUM_PIDS) <= SLOTS && Table() == SwapOut(table, k)
      ensures |seen| == |old(seen)| + 2 && seen[..|old(seen)|] == old(seen)
      ensures forall m | |old(seen)| <= m < |seen| :: StillSees(seen[m], table, table[k])
    {
      hide StillSees, Cell;
      var n := Cell(mem[..], NUM_PIDS);
      ghost var before := mem[..];
      PtiWrite(mem, EntryAddr(k), Cell(mem[..], EntryAddr(n - 1)));
      ghost var written := mem[..];
      VisibleEntry(before, written, k);
      seen := seen + [Visible(mem[..])];
      PtiWrite(mem, NUM_PIDS, n - 1);
      VisibleFewer(written, mem[..], n - 1);
      hide Visible, Even;
      seen := seen + [Visible(mem[..])];
      SwapOutSees(table, k);
    }

    /** Takes a slot's entry out of the table: the last entry is copied over it, then the count
        shrinks, so that the firmware never misses a PID that stays. */
    method ClearPid(handle: int) returns (ret: int)
      requires Valid() && SLOT_HANDLE_OFFSET <= handle < SLOT_HANDLE_OFFSET + SLOTS
      modifies this`owner, this`seen, mem, slots
      ensures Valid()
      ensures var i := handle - SLOT_HANDLE_OFFSET;
              if old(slots[i].tcIndex) == -1 then
                ret == -1 && Table() == old(Table()) && slots[..] == old(slots[..]) && seen == old(seen)
              else
                && ret == 0
                && Table() == SwapOut(old(Table()), old(slots[i].tcIndex))
                && slots[i] == old(slots[i]).(tcIndex := -1)
                && (forall j | 0 <= j < SLOTS && j != i ::
                      && slots[j].(tcIndex := 0) == old(slots[j].(tcIndex := 0))
                      && (slots[j].tcIndex == -1 <==> old(slots[j].tcIndex) == -1))
                && |seen| == |old(seen)| + 2 && seen[..|old(seen)|] == old(seen)
                && (forall k | |old(seen)| <= k < |seen| :: StillSees(seen[k], old(Table()), old(slots[i].pid)))
    {
      hide StillSees, HalfOf;
      var i := handle - SLOT_HANDLE_OFFSET;
      if slots[i].tcIndex < 0 || slots[i].pid == NO_PID {
        return -1;
      }
      OwnersAre(slots[..], Table(), owner, i);
      ghost var table, before, last := Table(), slots[..], owner[|owner| - 1];
      var k := slots[i].tcIndex;
      hide Owned, Visible, Cell;
      Shrink(k, table);
      var j := FindIndex(Cell(mem[..], NUM_PIDS));
      assert j == last;
      if j < SLOTS {
        slots[j] := slots[j].(tcIndex := k);
      }
      slots[i] := slots[i].(tcIndex := -1);
      assert slots[..] == before[last := before[last].(tcIndex := k)][i := before[i].(tcIndex := -1)];
      OwnedAfterClear(before, table, owner, i);
      owner := SwapOut(owner, k);
      return 0;
    }

    /** Gives a slot back, clearing its entry first if it owns one. */
    method Free(handle: int)
      requires Valid() && SLOT_HANDLE_OFFSET <= handle < SLOT_HANDLE_OFFSET + SLOTS
      modifies this`owner, this`seen, mem, slots
      ensures Valid()
      ensures var i := handle - SLOT_HANDLE_OFFSET;
              && slots[i] == Slot(handle, false, -1, NO_PID)
              && (forall j | 0 <= j < SLOTS && j != i ::
                    && slots[j].(tcIndex := 0) == old(slots[j].(tcIndex := 0))
                    && (slots[j].tcIndex == -1 <==> old(slots[j].tcIndex) == -1))
              && Table() == (if old(slots[i].tcIndex) == -1 then old(Table())
                             else SwapOut(old(Table()), old(slots[i].tcIndex)))
    {
      var i := handle - SLOT_HANDLE_OFFSET;
      if slots[i].tcIndex != -1 {
        var _ := ClearPid(handle);
      }
      slots[i] := slots[i].(inUse := false, pid := NO_PID, tcIndex := -1);
    }
  }

  /** A slot that is given a second PID: the table keeps the first one, which no slot owns any more. */
  method OwnerLost() returns (t: PtiTable)
    ensures fresh(t) && t.InPlace() && Cell(t.mem[..], NUM_PIDS) <= TABLE_ENTRIES && t.Table() == [256, 257]
    ensures forall o: seq<nat> :: !Owned(t.slots[..], t.Table(), o)
  {
    hide Owned, Cell, Visible;
    t := new PtiTable();
    var handle := t.GetNewSlotHandle();
    assert t.slots[0].handle == SLOT_HANDLE_OFFSET;
    var first := t.SetPid(handle, 256);
    var second := t.SetPid(handle, 257);
  }
}
