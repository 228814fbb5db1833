/** The recording-timer scheduler: a list of live timers sorted by next activation, a list of processed ones,
    and the activation pass that moves timers along and re-inserts repeating ones, starting further passes. */
module TimerQueue {
  import opened Common
  import opened TimerDays
  import opened TimerEntries

  ghost predicate Sorted(list: seq<Entry>, loose: set<Entry>)
    reads list
  {
    forall i, j :: 0 <= i < j < |list| && list[i] !in loose && list[j] !in loose ==> list[i].Next() <= list[j].Next()
  }

  ghost function Members(list: seq<Entry>): set<Entry> {
    set x | x in list
  }

  lemma NextMember(list: seq<Entry>, i: nat)
    requires Distinct(list) && i < |list|
    ensures list[i] in Members(list[i..]) && Members(list[i + 1..]) == Members(list[i..]) - {list[i]}
  {
    assert list[i..] == [list[i]] + list[i + 1..];
  }

  lemma NoMembers(list: seq<Entry>)
    ensures Members(list[|list|..]) == {}
  {
  }

  function IndexOf(list: seq<Entry>, w: Entry): (i: nat)
    requires w in list
    ensures i < |list| && list[i] == w
  {
    if list[0] == w then 0 else 1 + IndexOf(list[1..], w)
  }

  /** list.remove */
  function Removed(list: seq<Entry>, w: Entry): seq<Entry>
    requires w in list
  {
    Without(list, IndexOf(list, w))
  }

  lemma RemovedFirst(list: seq<Entry>, w: Entry)
    requires list != [] && w == list[0]
    ensures Removed(list, w) == list[1..]
  {
  }

  lemma RemovedIs(list: seq<Entry>, w: Entry)
    requires Distinct(list) && w in list
    ensures Distinct(Removed(list, w)) && w !in Removed(list, w)
    ensures forall e :: e in Removed(list, w) <==> e in list && e != w
    ensures forall loose: set<Entry> :: loose <= {w} && Sorted(list, loose) ==> Sorted(Removed(list, w), {})
  {
    var i := IndexOf(list, w);
    var r := Removed(list, w);
    assert forall k :: 0 <= k < |r| ==> r[k] == if k < i then list[k] else list[k + 1];
    forall e | e in list && e != w
      ensures e in r
    {
      var k :| 0 <= k < |list| && list[k] == e;
      assert e == if k < i then r[k] else r[k - 1];
    }
  }

  /** bisect.insort: right of everything that is due no later, as long as the list is sorted. */
  method Insort(list: seq<Entry>, w: Entry) returns (r: seq<Entry>, p: nat)
    ensures p <= |list| && r == Insert(list, p, w)
    ensures Sorted(list, {}) ==> forall i :: 0 <= i < p ==> list[i].Next() <= w.Next()
    ensures Sorted(list, {}) ==> forall i :: p <= i < |list| ==> w.Next() < list[i].Next()
  {
    var lo, hi := 0, |list|;
    while lo < hi
      invariant 0 <= lo <= hi <= |list|
      invariant Sorted(list, {}) ==> forall i :: 0 <= i < lo ==> list[i].Next() <= w.Next()
      invariant Sorted(list, {}) ==> forall i :: hi <= i < |list| ==> w.Next() < list[i].Next()
    {
      var mid := (lo + hi) / 2;
      if w.Next() < list[mid].Next() {
        hi := mid;
      } else {
        lo := mid + 1;
      }
    }
    p := lo;
    r := Insert(list, p, w);
  }

  lemma InsertedIs(list: seq<Entry>, p: nat, w: Entry)
    requires p <= |list| && Distinct(list) && w !in list
    ensures Distinct(Insert(list, p, w))
    ensures forall e :: e in Insert(list, p, w) <==> e in list || e == w
  {
    var r := Insert(list, p, w);
    assert forall k :: 0 <= k < |r| ==> r[k] == if k < p then list[k] else if k == p then w else list[k - 1];
    assert r[p] == w;
    forall e | e in list
      ensures e in r
    {
      var k :| 0 <= k < |list| && list[k] == e;
      assert e == if k < p then r[k] else r[k + 1];
    }
  }

  lemma InsertedSorted(list: seq<Entry>, p: nat, w: Entry)
    requires p <= |list| && Sorted(list, {})
    requires forall i :: 0 <= i < p ==> list[i].Next() <= w.Next()
    requires forall i :: p <= i < |list| ==> w.Next() < list[i].Next()
    ensures Sorted(Insert(list, p, w), {})
  {
    var r := Insert(list, p, w);
    assert forall k :: 0 <= k < |r| ==> r[k] == if k < p then list[k] else if k == p then w else list[k - 1];
  }

  /** An answer that stalls no entry, if only some need a service and only some can be extended. */
  ghost predicate Harmless(a: Answer, recorders: bool, extenders: bool, now: real) {
    && !(a.preparation.NoService? && recorders)
    && !(now < a.newEnd < NextSecond(now) && extenders)
  }

  ghost predicate HarmlessAhead(answers: nat -> Answer, from: nat, recorders: bool, extenders: bool, now: real) {
    exists m: nat :: from <= m && Harmless(answers(m), recorders, extenders, now)
  }

  /** The answers under which a pass ends: those still to come never stall for good. */
  ghost predicate Fair(answers: nat -> Answer, from: nat, recorders: bool, extenders: bool, now: real) {
    forall k: nat :: from <= k ==> HarmlessAhead(answers, k, recorders, extenders, now)
  }

  lemma FairLater(answers: nat -> Answer, from: nat, to: nat, recorders: bool, extenders: bool, now: real)
    requires Fair(answers, from, recorders, extenders, now) && from <= to
    ensures Fair(answers, to, recorders, extenders, now) && HarmlessAhead(answers, to, recorders, extenders, now)
  {
  }

  /** With fewer entries that can stall, fewer answers do. */
  lemma FairWeaker(answers: nat -> Answer, from: nat, r: bool, e: bool, recorders: bool, extenders: bool, now: real)
    requires Fair(answers, from, r, e, now) && (recorders ==> r) && (extenders ==> e)
    ensures Fair(answers, from, recorders, extenders, now)
  {
    forall k: nat | from <= k
      ensures HarmlessAhead(answers, k, recorders, extenders, now)
    {
      assert HarmlessAhead(answers, k, r, e, now);
      var m: nat :| k <= m && Harmless(answers(m), r, e, now);
      assert Harmless(answers(m), recorders, extenders, now);
    }
  }

  lemma FairWithoutEntries(answers: nat -> Answer, now: real)
    ensures Fair(answers, 0, false, false, now)
  {
    forall k: nat
      ensures HarmlessAhead(answers, k, false, false, now)
    {
      assert Harmless(answers(k), false, false, now);
    }
  }

  /** The processed list is in order of end. */
  ghost predicate SortedByEnd(list: seq<Entry>)
    reads list
  {
    forall i, j :: 0 <= i < j < |list| ==> list[i].end <= list[j].end
  }

  /** An entry was filed into a list of processed ones, at the position found for `key`. */
  ghost predicate Filed(was: seq<Entry>, list: seq<Entry>, p: nat, w: Entry, key: real)
    reads was
  {
    && p <= |was| && list == Insert(was, p, w)
    && (SortedByEnd(was) ==>
          && (forall i :: 0 <= i < p ==> was[i].end <= key)
          && (forall i :: p <= i < |was| ==> key < was[i].end))
  }

  lemma FiledAt(was: seq<Entry>, list: seq<Entry>, p: nat, w: Entry)
    requires p <= |was| && list == Insert(was, p, w)
    requires SortedByEnd(was) ==> Sorted(was, {})
    requires forall e :: e in was ==> e.Next() == e.end
    requires Sorted(was, {}) ==> forall i :: 0 <= i < p ==> was[i].Next() <= w.Next()
    requires Sorted(was, {}) ==> forall i :: p <= i < |was| ==> w.Next() < was[i].Next()
    ensures Filed(was, list, p, w, w.Next())
  {
  }

  /** The key an entry is filed by is that of the state it was in, and need not be its end. The list stays in order
      exactly when, among the ends already there, the key has the same place as the end. */
  lemma FiledInOrder(was: seq<Entry>, list: seq<Entry>, p: nat, w: Entry, key: real)
    requires Filed(was, list, p, w, key) && SortedByEnd(was)
    ensures SortedByEnd(list) <==>
            forall e :: e in was ==> (e.end <= key ==> e.end <= w.end) && (key < e.end ==> w.end <= e.end)
  {
    assert forall k :: 0 <= k < |list| ==> list[k] == if k < p then was[k] else if k == p then w else was[k - 1];
    if SortedByEnd(list) {
      forall e | e in was
        ensures (e.end <= key ==> e.end <= w.end) && (key < e.end ==> w.end <= e.end)
      {
        var i :| 0 <= i < |was| && was[i] == e;
        assert if i < p then list[i] == e && list[p] == w else list[i + 1] == e && list[p] == w;
      }
    }
  }

  /** Every entry but those in `out` is in exactly one list, once: the processed list if it has ended, the live
      list otherwise. The live list is sorted by next activation. Entries in `loose` are still in the list they were
      in before their fields changed. */
  ghost predicate Partition(live: seq<Entry>, processed: seq<Entry>, entries: set<Entry>, out: set<Entry>,
                            loose: set<Entry>)
    reads entries
  {
    && out <= entries
    && (forall e :: e in live ==> e in entries && e !in out && (e.state < ENDED || e in loose))
    && (forall e :: e in processed ==> e in entries && e !in out && (e.state == ENDED || e in loose))
    && (forall e :: e in loose ==> e !in live || e !in processed)
    && (forall e :: e in entries && e !in out ==> e in live || e in processed)
    && Distinct(live) && Distinct(processed)
    && Sorted(live, loose)
    && (forall e :: e in entries ==> Repeatable(e.repeated) && e.state <= ENDED)
  }

  lemma JoinsLive(live: seq<Entry>, processed: seq<Entry>, entries: set<Entry>, out: set<Entry>, p: nat, w: Entry)
    requires Partition(live, processed, entries, out, {}) && w in out && w.state < ENDED
    requires p <= |live|
    requires forall i :: 0 <= i < p ==> live[i].Next() <= w.Next()
    requires forall i :: p <= i < |live| ==> w.Next() < live[i].Next()
    ensures Partition(Insert(live, p, w), processed, entries, out - {w}, {})
  {
    InsertedIs(live, p, w);
    InsertedSorted(live, p, w);
  }

  lemma JoinsProcessed(live: seq<Entry>, processed: seq<Entry>, entries: set<Entry>, out: set<Entry>, p: nat, w: Entry)
    requires Partition(live, processed, entries, out, {}) && w in out && w.state == ENDED
    requires p <= |processed|
    ensures Partition(live, Insert(processed, p, w), entries, out - {w}, {})
  {
    InsertedIs(processed, p, w);
  }

  lemma LeavesLive(live: seq<Entry>, processed: seq<Entry>, entries: set<Entry>, w: Entry)
    requires Partition(live, processed, entries, {}, {w}) && w in live
    ensures Partition(Removed(live, w), processed, entries, {w}, {})
  {
    RemovedIs(live, w);
  }

  lemma Admits(live: seq<Entry>, processed: seq<Entry>, entries: set<Entry>, w: Entry)
    requires Partition(live, processed, entries, {}, {}) && w !in entries && Repeatable(w.repeated) && w.state <= ENDED
    ensures Partition(live, processed, entries + {w}, {w}, {})
  {
    hide Distinct, Sorted;
  }

  lemma Forgets(live: seq<Entry>, processed: seq<Entry>, entries: set<Entry>, w: Entry)
    requires Partition(live, processed, entries, {w}, {})
    ensures Partition(live, processed, entries - {w}, {}, {})
  {
    hide Distinct, Sorted;
  }

  lemma LeavesProcessed(live: seq<Entry>, processed: seq<Entry>, entries: set<Entry>, w: Entry)
    requires Partition(live, processed, entries, {}, {w}) && w in processed
    ensures Partition(live, Removed(processed, w), entries, {w}, {})
  {
    RemovedIs(processed, w);
    assert w !in live;
  }

  /** The settings of all entries at one moment. */
  type Snapshot = map<Entry, Settings>

  /** The repeating timers whose present end lies before the next second. */
  ghost function Pending(views: Snapshot, now: real): set<Entry> {
    set e | e in views && views[e].repeated != 0 && views[e].end < NextSecond(now)
  }

  ghost function Below(views: Snapshot, state: nat): set<Entry> {
    set e | e in views && views[e].state < state
  }

  ghost function Due(views: Snapshot, now: real): set<Entry> {
    set e | e in views && views[e].state < ENDED && DueAt(views[e]) < NextSecond(now)
  }

  /** What a pass counts down: repeating timers behind the present, then entries in each state, then due entries. */
  ghost predicate Nearer(after: Snapshot, before: Snapshot, now: real) {
    || Pending(after, now) < Pending(before, now)
    || (Pending(after, now) == Pending(before, now)
        && (Below(after, PREPARED) < Below(before, PREPARED)
            || (Below(after, PREPARED) == Below(before, PREPARED)
                && (Below(after, RUNNING) < Below(before, RUNNING)
                    || (Below(after, RUNNING) == Below(before, RUNNING)
                        && (Below(after, ENDED) < Below(before, ENDED)
                            || (Below(after, ENDED) == Below(before, ENDED) && Due(after, now) < Due(before, now))))))))
  }

  ghost predicate AsNear(after: Snapshot, before: Snapshot, now: real) {
    && Pending(after, now) == Pending(before, now)
    && Below(after, PREPARED) == Below(before, PREPARED)
    && Below(after, RUNNING) == Below(before, RUNNING)
    && Below(after, ENDED) == Below(before, ENDED)
    && Due(after, now) == Due(before, now)
  }

  /** A step of one due entry brings the pass nearer to its end, unless the entry stalls. */
  lemma StepsDown(before: Snapshot, after: Snapshot, w: Entry, s: Settings, now: real)
    requires w in before && before[w].state < ENDED && DueAt(before[w]) < NextSecond(now)
    requires Progress(before[w], s, now) || Stuck(before[w], s, now)
    requires after == before[w := s] || Pending(after, now) < Pending(before, now)
    ensures if Progress(before[w], s, now) then Nearer(after, before, now)
            else Nearer(after, before, now) || AsNear(after, before, now)
  {
    if after == before[w := s] {
      assert Pending(after, now) <= Pending(before, now);
      assert forall j: nat :: j <= before[w].state ==> Below(after, j) == Below(before, j);
      if s.state > before[w].state {
        var k := before[w].state + 1;
        assert w in Below(before, k) && w !in Below(after, k);
      } else if Progress(before[w], s, now) {
        assert forall j: nat :: Below(after, j) == Below(before, j);
        assert w in Due(before, now) && w !in Due(after, now);
      } else {
        assert Pending(after, now) == Pending(before, now) && Due(after, now) == Due(before, now);
        assert forall j: nat :: Below(after, j) == Below(before, j);
      }
    }
  }

  lemma SameAgain(views: Snapshot, w: Entry)
    requires w in views
    ensures views[w := views[w]] == views
  {
  }

  lemma UpdatedTwice(views: Snapshot, w: Entry, s: Settings, t: Settings)
    ensures views[w := s][w := t] == views[w := t]
  {
  }

  /** Live entries that are not due are left alone. */
  ghost predicate Untouched(before: Snapshot, after: Snapshot,
                            wasLive: seq<Entry>, live: seq<Entry>, now: real) {
    forall e :: e in wasLive && e in before && DueAt(before[e]) >= NextSecond(now) ==>
                  e in live && e in after && after[e] == before[e]
  }

  /** What a pass runs under: the frozen clock, local time, and the answers entries get when they are activated. */
  datatype Setup = Setup(now: real, offset: int, answers: nat -> Answer)

  ghost predicate Activated(before: Settings, after: Settings, justplay: bool, u: Setup) {
    if before.state == WAITING && before.end <= u.now then after == before.(state := ENDED)
    else exists k: nat :: Moved(before, after, justplay, u.answers(k), u.now)
  }

  /** The four ways in which a pass changes an entry: a due one is activated, or ended because it waited past its end;
      an ended one that repeats goes on to its next day; one that is added is rescheduled and may be ended right away;
      after the time jumped back an ended one waits again. */
  ghost predicate Lawful(before: Settings, after: Settings, justplay: bool, u: Setup) {
    || (before.state < ENDED && DueAt(before) < NextSecond(u.now) && Activated(before, after, justplay, u))
    || (before.state == ENDED && before.repeated != 0 && after.state == WAITING
        && Rescheduled(before, after.(state := ENDED), u.now, u.offset, true))
    || (Rescheduled(before, after.(state := before.state), u.now, u.offset, true)
        && after.state == if before.state == WAITING && (after.end <= u.now || after.disabled) then ENDED
                          else before.state)
    || (before.state == ENDED
        && after == before.(state := WAITING, cancelled := false, startPrepare := before.begin - 20.0, backoff := 0))
  }

  lemma ActivationLawful(before: Settings, after: Settings, justplay: bool, k: nat, u: Setup)
    requires before.state < ENDED && DueAt(before) < NextSecond(u.now)
    requires if before.state == WAITING && before.end <= u.now then after == before.(state := ENDED)
             else Moved(before, after, justplay, u.answers(k), u.now)
    ensures Lawful(before, after, justplay, u)
  {
    hide Moved, Rescheduled;
  }

  lemma RestartLawful(before: Settings, after: Settings, justplay: bool, u: Setup)
    requires before.state == ENDED && before.repeated != 0 && after.state == WAITING
    requires Rescheduled(before, after.(state := ENDED), u.now, u.offset, true)
    ensures Lawful(before, after, justplay, u)
  {
    hide Moved, Rescheduled, Activated;
  }

  /** `after` results from `before` by n lawful steps of single entries. */
  ghost predicate Steps(before: Snapshot, after: Snapshot, n: nat, u: Setup) {
    if n == 0 then after == before
    else exists w: Entry, s: Settings ::
        w in before && Lawful(before[w], s, w.justplay, u) && Steps(before[w := s], after, n - 1, u)
  }

  /** `after` results from `before` by lawful steps. */
  ghost predicate Reaches(before: Snapshot, after: Snapshot, u: Setup) {
    exists n: nat :: Steps(before, after, n, u)
  }

  /** A timer that does not repeat runs only once its begin has come. */
  ghost predicate OnTime(s: Settings, now: real) {
    s.repeated == 0 && s.state == RUNNING ==> s.begin < NextSecond(now)
  }

  lemma LawfulOnTime(before: Settings, after: Settings, justplay: bool, u: Setup)
    requires Lawful(before, after, justplay, u) && OnTime(before, u.now)
    ensures OnTime(after, u.now)
  {
  }

  /** No sequence of lawful steps starts a recording before its time. */
  lemma {:induction false} NoneStartsEarly(before: Snapshot, after: Snapshot, n: nat, u: Setup)
    requires Steps(before, after, n, u) && forall e :: e in before ==> OnTime(before[e], u.now)
    ensures after.Keys == before.Keys && forall e :: e in after ==> OnTime(after[e], u.now)
  {
    if n > 0 {
      var w: Entry, s: Settings :|
        w in before && Lawful(before[w], s, w.justplay, u) && Steps(before[w := s], after, n - 1, u);
      LawfulOnTime(before[w], s, w.justplay, u);
      hide Lawful, OnTime;
      NoneStartsEarly(before[w := s], after, n - 1, u);
    }
  }

  lemma NoServiceStep(before: Settings, after: Settings, u: Setup)
    requires Lawful(before, after, false, u) && forall k: nat :: u.answers(k).preparation.NoService?
    requires before.state == WAITING && before.repeated == 0 && !before.disabled && u.now < before.end
    ensures after == before
  {
  }

  /** A timer for which no service is ever found is never got past: whatever sequence of lawful steps is taken, by a
      pass or by passes within it, the timer is as before, and as due. */
  lemma {:induction false} NeverGetsPast(before: Snapshot, after: Snapshot, n: nat, w: Entry, u: Setup)
    requires Steps(before, after, n, u) && w in before && !w.justplay
    requires forall k: nat :: u.answers(k).preparation.NoService?
    requires var s := before[w]; s.state == WAITING && s.repeated == 0 && !s.disabled && u.now < s.end
    ensures w in after && after[w] == before[w]
  {
    if n > 0 {
      var x: Entry, s: Settings :|
        x in before && Lawful(before[x], s, x.justplay, u) && Steps(before[x := s], after, n - 1, u);
      if x == w {
        NoServiceStep(before[w], s, u);
      }
      hide Lawful;
      NeverGetsPast(before[x := s], after, n - 1, w, u);
    }
  }

  /** What a whole pass keeps: entries change by lawful steps only, no repeating timer falls behind, a doomed entry
      stays doomed, and a live entry that is not due is left alone. */
  ghost predicate Carried(before: Snapshot, after: Snapshot,
                          wasLive: seq<Entry>, live: seq<Entry>, u: Setup) {
    && before.Keys == after.Keys
    && Reaches(before, after, u)
    && Pending(after, u.now) <= Pending(before, u.now)
    && (forall e :: e in before && Doomed(before[e], u.now) ==> Doomed(after[e], u.now))
    && Untouched(before, after, wasLive, live, u.now)
  }

  lemma {:induction false} StepFirst(before: Snapshot, after: Snapshot, w: Entry, s: Settings, n: nat, u: Setup)
    requires n > 0 && w in before && Lawful(before[w], s, w.justplay, u) && Steps(before[w := s], after, n - 1, u)
    ensures Steps(before, after, n, u)
  {
    hide Lawful;
  }

  lemma {:induction false} StepsOn(v0: Snapshot, v1: Snapshot, v2: Snapshot, n: nat, m: nat, u: Setup)
    requires Steps(v0, v1, n, u) && Steps(v1, v2, m, u)
    ensures Steps(v0, v2, n + m, u)
  {
    hide Lawful;
    if n > 0 {
      var w: Entry, s: Settings :| w in v0 && Lawful(v0[w], s, w.justplay, u) && Steps(v0[w := s], v1, n - 1, u);
      var v := v0[w := s];
      StepsOn(v, v1, v2, n - 1, m, u);
      StepFirst(v0, v2, w, s, n + m, u);
    }
  }

  lemma ReachesOn(v0: Snapshot, v1: Snapshot, v2: Snapshot, u: Setup)
    requires Reaches(v0, v1, u) && Reaches(v1, v2, u)
    ensures Reaches(v0, v2, u)
  {
    hide Steps;
    var n: nat :| Steps(v0, v1, n, u);
    var m: nat :| Steps(v1, v2, m, u);
    StepsOn(v0, v1, v2, n, m, u);
  }

  lemma OneStep(before: Snapshot, w: Entry, s: Settings, u: Setup)
    requires w in before && Lawful(before[w], s, w.justplay, u)
    ensures Reaches(before, before[w := s], u)
  {
    assert Steps(before[w := s], before[w := s], 0, u);
    StepFirst(before, before[w := s], w, s, 1, u);
  }

  lemma CarriedSelf(v: Snapshot, l: seq<Entry>, u: Setup)
    ensures Carried(v, v, l, l, u)
  {
    assert Steps(v, v, 0, u);
  }

  /** Changing one entry that is due or in no list. */
  lemma CarriedStep(before: Snapshot, w: Entry, s: Settings, wasLive: seq<Entry>, live: seq<Entry>, u: Setup)
    requires w in before && Lawful(before[w], s, w.justplay, u)
    requires w in wasLive ==> DueAt(before[w]) < NextSecond(u.now)
    requires s.repeated == before[w].repeated
    requires s.end < NextSecond(u.now) ==> s.repeated == 0 || before[w].end < NextSecond(u.now)
    requires Doomed(before[w], u.now) ==> Doomed(s, u.now)
    requires forall e :: e in wasLive && e != w ==> e in live
    ensures Carried(before, before[w := s], wasLive, live, u)
  {
    OneStep(before, w, s, u);
    hide Lawful, Reaches;
  }

  /** Queueing an entry that is in no list. */
  lemma CarriedQueued(before: Snapshot, w: Entry, s: Settings, wasLive: seq<Entry>, live: seq<Entry>, u: Setup)
    requires w in before && w !in wasLive && Lawful(before[w], s, w.justplay, u) && s.repeated == before[w].repeated
    requires s.repeated != 0 ==> s.end >= NextSecond(u.now)
    requires s.repeated == 0 ==> s == before[w].(state := s.state) && (s.state == before[w].state || s.state == ENDED)
    requires forall e :: e in wasLive ==> e in live
    ensures Carried(before, before[w := s], wasLive, live, u)
  {
    hide Lawful;
    CarriedStep(before, w, s, wasLive, live, u);
  }

  /** resetState, for an entry that is in no list. */
  lemma CarriedReset(before: Snapshot, x: Entry, s: Settings, live: seq<Entry>, u: Setup)
    requires x in before && x !in live && before[x].state == ENDED
    requires s == before[x].(state := WAITING, cancelled := false, startPrepare := before[x].begin - 20.0, backoff := 0)
    ensures Carried(before, before[x := s], live, live, u)
  {
    CarriedStep(before, x, s, live, live, u);
  }

  lemma UntouchedIn(v0: Snapshot, v1: Snapshot, v2: Snapshot,
                    wasLive: seq<Entry>, live: seq<Entry>, u: Setup)
    requires Carried(v1, v2, wasLive, live, u)
    requires forall e :: e in wasLive && e in v0 ==> e in v1 && v1[e] == v0[e]
    ensures Untouched(v0, v2, wasLive, live, u.now)
  {
  }

  lemma UntouchedBut(v0: Snapshot, v1: Snapshot, v2: Snapshot, w: Entry,
                     l0: seq<Entry>, l1: seq<Entry>, l2: seq<Entry>, u: Setup)
    requires Carried(v1, v2, l1, l2, u)
    requires w in v1 && v1 == v0[w := v1[w]]
    requires forall e :: e in l0 && e != w ==> e in l1
    ensures Untouched(v0 - {w}, v2 - {w}, l0, l2, u.now)
  {
  }

  /** The scheduler at one moment: its entries, the live list, and how many answers were given. */
  datatype Moment = Moment(views: Snapshot, live: seq<Entry>, asked: nat)

  /** What becomes of a processed timer when the time has jumped back: it waits again from a fresh state and is added
      again, which may give it another day, and which ends it at once if it is over or disabled. */
  ghost predicate Reconsidered(before: Settings, after: Settings, now: real, offset: int) {
    && Rescheduled(before.(state := WAITING, cancelled := false, startPrepare := before.begin - 20.0, backoff := 0),
                   after.(state := WAITING), now, offset, true)
    && after.state == if after.end <= now || after.disabled then ENDED else WAITING
  }

  /** Every timer of the list was reconsidered, and no other timer changed. */
  ghost predicate Reevaluated(before: Snapshot, after: Snapshot, list: seq<Entry>, now: real, offset: int) {
    && before.Keys == after.Keys
    && forall e :: e in before ==>
         if e in list then Reconsidered(before[e], after[e], now, offset) else after[e] == before[e]
  }

  lemma ReevaluatedNone(v: Snapshot, now: real, offset: int)
    ensures Reevaluated(v, v, [], now, offset)
  {
  }

  lemma ReevaluatedOneMore(v0: Snapshot, v1: Snapshot, list: seq<Entry>, i: nat, s: Settings, now: real, offset: int)
    requires Distinct(list) && i < |list| && list[i] in v0 && Reevaluated(v0, v1, list[..i], now, offset)
    requires Reconsidered(v1[list[i]], s, now, offset)
    ensures v1[list[i]] == v0[list[i]] && Reevaluated(v0, v1[list[i] := s], list[..i + 1], now, offset)
  {
    hide Reconsidered;
    assert list[i] !in list[..i];
    assert list[..i + 1] == list[..i] + [list[i]];
  }

  /** For a timer that does not repeat: it waits as if it had never run, unless it is over or disabled. */
  lemma ReconsideredOnce(before: Settings, after: Settings, now: real, offset: int)
    requires before.repeated == 0
    ensures Reconsidered(before, after, now, offset) <==>
            after == before.(state := if before.end <= now || before.disabled then 3 else 0, cancelled := false,
                             startPrepare := before.begin - 20.0, backoff := 0)
  {
  }

  /** Where the pass of a recalculation starts: after a jump of the time, with every processed timer reconsidered and
      listed by what became of it, otherwise where things stood. */
  ghost predicate PassStarts(before: Moment, processed: seq<Entry>, last: real, from: Moment, now: real, offset: int) {
    if last > now then
      && Reevaluated(before.views, from.views, processed, now, offset)
      && (forall e :: e in before.live ==> e in from.live)
      && (forall e :: e in from.views ==> (e in from.live <==> from.views[e].state < ENDED))
    else from == before
  }

  /** The loop looks at the `k`-th live entry: extended, it is listed again, which may start a pass. */
  ghost predicate Turn(k: nat, before: Moment, after: Moment, u: Setup) {
    && k < |before.live| && before.live[k] in before.views
    && var x, a := before.live[k], u.answers(before.asked);
       var s := before.views[x];
       if s.autoincrease && a.newEnd > u.now then
         && before.asked < after.asked
         && Carried(before.views[x := Requeued(s.(end := a.newEnd))], after.views,
                    Removed(before.live, x), after.live, u)
       else after == before.(asked := before.asked + if s.autoincrease then 1 else 0)
  }

  /** The loop looks at one position after the other, in the list as it then is. */
  ghost predicate Turns(history: seq<Moment>, u: Setup) {
    forall k: nat :: k < |history| - 1 ==> Turn(k, history[k], history[k + 1], u)
  }

  /** The entries that cannot be extended. */
  ghost function Fixed(views: Snapshot): Snapshot {
    map e | e in views && !views[e].autoincrease :: views[e]
  }

  ghost predicate NoneExtended(views: Snapshot) {
    forall e :: e in views ==> !views[e].autoincrease
  }

  lemma UntouchedFixed(v0: Snapshot, w: Entry, v1: Snapshot, l0: seq<Entry>, l1: seq<Entry>, now: real)
    requires Untouched(v0 - {w}, v1 - {w}, l0, l1, now)
    ensures Untouched(Fixed(v0) - {w}, v1 - {w}, l0, l1, now) && NoneExtended(Fixed(v0) - {w})
  {
  }

  /** Extending one entry and listing it again leaves alone those that cannot be extended. */
  lemma UntouchedBeside(v0: Snapshot, v1: Snapshot, x: Entry, s: Settings, v2: Snapshot, w: Entry,
                        l0: seq<Entry>, l1: seq<Entry>, l2: seq<Entry>, u: Setup)
    requires Untouched(v0, v1 - {w}, l0, l1, u.now) && NoneExtended(v0)
    requires x in v1 && v1[x].autoincrease && x in l1
    requires forall e :: e in l1 && e != x ==> e in Removed(l1, x)
    requires Carried(v1[x := s], v2, Removed(l1, x), l2, u)
    ensures Untouched(v0, v2 - {w}, l0, l2, u.now)
  {
  }

  lemma AlreadyOut(v0: Snapshot, v1: Snapshot, w: Entry, live: seq<Entry>, u: Setup)
    requires w in v1 && v1 == v0[w := v1[w]] && v1[w].state == ENDED && Doomed(Requeued(v1[w]), u.now)
    ensures Doomed(v1[w], u.now) && Untouched(v0 - {w}, v1 - {w}, live, live, u.now)
  {
  }

  lemma {:induction false} MembersCount(list: seq<Entry>)
    requires Distinct(list)
    ensures |Members(list)| == |list|
  {
    if list != [] {
      MembersCount(list[1..]);
      NextMember(list, 0);
      assert list[0..] == list;
    }
  }

  lemma {:induction false} SubsetCount(s: set<Entry>, t: set<Entry>)
    requires s <= t
    ensures |s| <= |t|
    decreases |s|
  {
    if s != {} {
      var e :| e in s;
      SubsetCount(s - {e}, t - {e});
    }
  }

  lemma StaysDoomed(v1: Snapshot, v2: Snapshot, l1: seq<Entry>, l2: seq<Entry>, w: Entry, u: Setup)
    requires Carried(v1, v2, l1, l2, u) && w in v1 && Doomed(v1[w], u.now)
    ensures w in v2 && Doomed(v2[w], u.now)
  {
  }

  lemma LeftLive(list: seq<Entry>, w: Entry)
    requires Distinct(list)
    ensures w in list ==> forall e :: e in list && e != w ==> e in Removed(list, w)
  {
    if w in list {
      RemovedIs(list, w);
    }
  }

  /** A repeating timer that has ended goes on to its next day. */
  lemma RestartCarries(before: Snapshot, w: Entry, s: Settings, live: seq<Entry>, u: Setup)
    requires w in before && w !in live && Lawful(before[w], s, w.justplay, u)
    requires before[w].repeated != 0 && before[w].end < NextSecond(u.now)
    requires s.repeated == before[w].repeated && s.end >= NextSecond(u.now)
    ensures Carried(before, before[w := s], live, live, u) && Pending(before[w := s], u.now) < Pending(before, u.now)
  {
    hide Lawful;
    CarriedStep(before, w, s, live, live, u);
    assert w in Pending(before, u.now) && w !in Pending(before[w := s], u.now);
  }

  /** What a pass keeps, a pass within it keeps too. */
  lemma CarriedTwice(v0: Snapshot, v1: Snapshot, v2: Snapshot,
                     l0: seq<Entry>, l1: seq<Entry>, l2: seq<Entry>, u: Setup)
    requires Carried(v0, v1, l0, l1, u) && Carried(v1, v2, l1, l2, u)
    ensures Carried(v0, v2, l0, l2, u)
  {
    hide Reaches, Doomed, DueAt, Pending;
    ReachesOn(v0, v1, v2, u);
  }

  lemma CarriedMore(before: Snapshot, after: Snapshot, l0: seq<Entry>, l1: seq<Entry>, l2: seq<Entry>, u: Setup)
    requires Carried(before, after, l0, l1, u) && forall e :: e in l1 ==> e in l2
    ensures Carried(before, after, l0, l2, u)
  {
  }

  /** A timer that has ended for good stays as it is. */
  ghost predicate Steady(before: Snapshot, after: Snapshot) {
    forall e :: e in before && before[e].state == ENDED && before[e].repeated == 0 ==>
                  e in after && after[e] == before[e]
  }

  lemma SteadyStep(v: Snapshot, w: Entry, s: Settings)
    requires w in v && (v[w].state < ENDED || v[w].repeated != 0 || s == v[w])
    ensures Steady(v, v[w := s])
  {
  }

  lemma SteadySelf(v: Snapshot)
    ensures Steady(v, v)
  {
  }

  lemma SteadyTwice(v0: Snapshot, v1: Snapshot, v2: Snapshot)
    requires Steady(v0, v1) && Steady(v1, v2)
    ensures Steady(v0, v2)
  {
  }

  lemma SteadyApart(v0: Snapshot, v1: Snapshot, v2: Snapshot, w: Entry)
    requires Steady(v0 - {w}, v1 - {w}) && Steady(v1, v2)
    ensures Steady(v0 - {w}, v2 - {w})
  {
  }

  lemma SteadyBut(v0: Snapshot, v1: Snapshot, v2: Snapshot, w: Entry)
    requires w in v1 && v1 == v0[w := v1[w]] && Steady(v1, v2)
    ensures Steady(v0 - {w}, v2 - {w})
  {
  }

  lemma PendingFalls(before: Snapshot, after: Snapshot, wasLive: seq<Entry>, live: seq<Entry>, u: Setup)
    requires Carried(before, after, wasLive, live, u)
    ensures before.Keys == after.Keys && Pending(after, u.now) <= Pending(before, u.now)
  {
  }

  lemma FirstIn(list: seq<Entry>)
    requires |list| > 0
    ensures list[0] in list
  {
  }

  class Timer {
    const offset: int
    const answers: nat -> Answer
    const maxWaitTime: int := 100
    var live: seq<Entry>
    var processed: seq<Entry>
    var lastActivation: real
    var next: real
    var asked: nat
    ghost var entries: set<Entry>

    ghost predicate Holds(out: set<Entry>, loose: set<Entry>)
      reads this`live, this`processed, this`entries, entries
    {
      Partition(live, processed, entries, out, loose)
    }

    ghost predicate Valid()
      reads this`live, this`processed, this`entries, entries
    {
      Holds({}, {})
    }

    /** The wake-up that is set comes no later than any live entry's activation. */
    ghost predicate Armed()
      reads this`live, this`next, live
    {
      forall e :: e in live ==> next <= e.Next()
    }

    /** Nothing is due any more, and the wake-up is set for the first entry, or sooner. */
    ghost predicate Settled(now: real)
      reads this`live, this`next, this`lastActivation, live
    {
      && lastActivation == now && Armed()
      && (forall e :: e in live ==> e.Next() >= NextSecond(now))
      && next <= (Trunc(now) + maxWaitTime) as real
      && (next == (Trunc(now) + maxWaitTime) as real || (live != [] && next == live[0].Next()))
    }

    /** Some entry needs a service to be prepared; some entry may be extended. */
    ghost predicate Recorders()
      reads this`entries
    {
      exists e :: e in entries && !e.justplay
    }

    ghost predicate Extenders()
      reads this`entries, entries`autoincrease
    {
      exists e :: e in entries && e.autoincrease
    }

    ghost predicate FairFrom(now: real)
      reads this`entries, this`asked, entries`autoincrease
    {
      Fair(answers, asked, Recorders(), Extenders(), now)
    }

    lemma FairOn(from: nat, r: bool, e: bool, now: real) returns (good: nat)
      requires Fair(answers, from, r, e, now) && from <= asked && (Recorders() ==> r) && (Extenders() ==> e)
      ensures FairFrom(now)
      ensures asked <= good && Harmless(answers(good), Recorders(), Extenders(), now)
    {
      FairWeaker(answers, from, r, e, Recorders(), Extenders(), now);
      FairLater(answers, from, asked, Recorders(), Extenders(), now);
      good :| asked <= good && Harmless(answers(good), Recorders(), Extenders(), now);
    }

    lemma StallHarms(w: Entry, s: Settings, a: Answer, now: real)
      requires w in entries && Stalls(s, w.justplay, a, now) && s.autoincrease == w.autoincrease
      ensures !Harmless(a, Recorders(), Extenders(), now)
    {
    }

    /** An entry was queued live as `queued`, at its place `p`, and a pass starts from `from`. */
    ghost predicate Added(before: Moment, processed: seq<Entry>, last: real, w: Entry, queued: Settings, p: nat,
                          from: Moment, now: real)
    {
      && w in before.views && p <= |before.live|
      && queued.state == before.views[w].state && Rescheduled(before.views[w], queued, now, offset, true)
      && PassStarts(Moment(before.views[w := queued], Insert(before.live, p, w), before.asked), processed, last, from,
                    now, offset)
    }

    ghost function Under(now: real): Setup {
      Setup(now, offset, answers)
    }

    ghost function Views(): (views: Snapshot)
      reads this`entries, entries
      ensures views.Keys == entries
    {
      map e | e in entries :: e.View()
    }

    ghost function Present(): Moment
      reads this`live, this`asked, this`entries, entries
    {
      Moment(Views(), live, asked)
    }

    lemma Head(now: real)
      requires Valid() && live != []
      ensures live[0] in entries && live[0].state < ENDED
      ensures DueAt(Views()[live[0]]) == live[0].Next()
      ensures forall e :: e in live ==> live[0].Next() <= e.Next()
    {
    }

    lemma ViewsBefore(views: Snapshot)
      requires views == Views()
      ensures forall e :: e in entries ==> views[e] == e.View()
    {
    }

    lemma ViewsAre(views: Snapshot, w: Entry)
      requires views.Keys == entries && w in entries
      requires forall e :: e in entries && e != w ==> e.View() == views[e]
      ensures Views() == views[w := w.View()]
    {
    }

    lemma ViewOf(e: Entry)
      requires e in entries
      ensures Views()[e] == e.View()
    {
    }

    lemma ViewsSame(views: Snapshot)
      requires views.Keys == entries
      requires forall e :: e in entries ==> e.View() == views[e]
      ensures Views() == views
    {
    }

    lemma ProcessedSorted(out: set<Entry>)
      requires Holds(out, {})
      ensures forall e :: e in processed ==> e.Next() == e.end
      ensures SortedByEnd(processed) ==> Sorted(processed, {})
    {
    }

    method InsertLive(w: Entry, ghost out: set<Entry>) returns (p: nat)
      requires Holds(out, {}) && w in out && w.state < ENDED
      modifies this`live
      ensures Holds(out - {w}, {})
      ensures p <= |old(live)| && live == Insert(old(live), p, w) && Views() == old(Views())
      ensures forall e :: e in live <==> e in old(live) || e == w
    {
      hide Distinct;
      ghost var v := Views();
      assert forall e :: e in entries ==> v[e] == e.View();
      hide Views;
      live, p := Insort(live, w);
      ViewsSame(v);
      JoinsLive(old(live), processed, entries, out, p, w);
      InsertedIs(old(live), p, w);
    }

    method File(w: Entry, ghost out: set<Entry>) returns (p: nat)
      requires Holds(out, {}) && w in out
      modifies this`processed
      ensures Filed(old(processed), processed, p, w, w.Next())
    {
      ProcessedSorted(out);
      hide Partition, Sorted, SortedByEnd;
      processed, p := Insort(processed, w);
      FiledAt(old(processed), processed, p, w);
    }

    method End(w: Entry, ghost was: seq<Entry>, ghost out: set<Entry>)
      requires Partition(live, was, entries, out, {}) && w in out
      modifies w`state
      ensures Partition(live, was, entries, out, {}) && w.state == ENDED
      ensures Views() == old(Views())[w := w.View()]
      ensures w !in was
    {
      hide Distinct;
      ghost var v := Views();
      assert forall e :: e in entries ==> v[e] == e.View();
      assert w !in live && w !in was;
      hide Views;
      w.state := ENDED;
      assert Partition(live, was, entries, out, {});
      hide Partition, Sorted;
      ViewsAre(v, w);
    }

    /** The position is found with the entry's present state, which only then becomes Ended. */
    method InsertProcessed(w: Entry, ghost out: set<Entry>) returns (p: nat)
      requires Holds(out, {}) && w in out
      modifies this`processed, w`state
      ensures Holds(out - {w}, {}) && w.state == ENDED
      ensures Views() == old(Views())[w := w.View()]
      ensures Filed(old(processed), processed, p, w, old(w.Next()))
    {
      hide Views, Partition, SortedByEnd;
      ghost var was := processed;
      p := File(w, out);
      End(w, was, out);
      JoinsProcessed(live, was, entries, out, p, w);
    }

    /** processRepeated on an entry that is in no list. */
    method Repeat(w: Entry, now: real, ghost out: set<Entry>)
      requires Holds(out, {}) && w in out
      modifies w`begin, w`end, w`startPrepare, w`backoff
      ensures Holds(out, {}) && Views() == old(Views())[w := w.View()]
      ensures Rescheduled(old(w.View()), w.View(), now, offset, true)
      ensures w.repeated == 0 ==> w.View() == old(w.View())
      ensures w.repeated != 0 ==> w.end >= NextSecond(now)
    {
      hide RejectedAfter, Selected, WeekDay, LocalTime, Trunc, NextSecond, Distinct, MovedBy;
      ghost var before := w.View();
      var days := w.ProcessRepeated(now, offset, true);
      if w.repeated != 0 {
        ghost var _, _ := RescheduledMeans(before, w.View(), now, offset, true);
      }
    }

    /** addTimerEntry up to the point where the next activation is recalculated. */
    method Enqueue(w: Entry, now: real, ghost out: set<Entry>) returns (started: bool, p: nat)
      requires Holds(out, {}) && w in out
      modifies this`live, this`processed, w`begin, w`end, w`startPrepare, w`backoff, w`state
      ensures Holds(out - {w}, {})
      ensures Rescheduled(old(w.View()), w.View().(state := old(w.state)), now, offset, true)
      ensures w.repeated == 0 ==> w.View() == old(w.View()).(state := w.state)
      ensures w.repeated != 0 ==> w.end >= NextSecond(now)
      ensures started == !(old(w.state) == ENDED || (old(w.state) == WAITING && (w.end <= now || w.disabled)))
      ensures w.state == if started then old(w.state) else ENDED
      ensures Views() == old(Views())[w := w.View()]
      ensures w !in old(live) && forall e :: e in old(live) ==> e in live
      ensures started ==> p <= |old(live)| && live == Insert(old(live), p, w) && processed == old(processed)
      ensures !started ==>
                && Filed(old(processed), processed, p, w, if old(w.state) == ENDED then w.end else w.startPrepare)
                && live == old(live)
    {
      assert w !in live && w.state <= ENDED;
      hide NextSecond, Rescheduled, Distinct, Sorted, Insert, Partition, Views, Filed;
      ghost var v0 := Views();
      Repeat(w, now, out);
      ghost var s1 := w.View();
      if w.ShouldSkip(now) || w.state == ENDED || (w.state == WAITING && w.disabled) {
        started := false;
        p := InsertProcessed(w, out);
      } else {
        started := true;
        p := InsertLive(w, out);
      }
      UpdatedTwice(v0, w, s1, w.View());
    }

    method TakeFromLive(w: Entry)
      requires Holds({}, {w}) && w in live
      modifies this`live
      ensures Holds({w}, {}) && live == Removed(old(live), w) && w !in live && Views() == old(Views())
      ensures forall e :: e in live ==> e in old(live)
    {
      hide Views, Removed;
      LeavesLive(live, processed, entries, w);
      RemovedIs(live, w);
      live := Removed(live, w);
    }

    method TakeFromProcessed(w: Entry)
      requires Holds({}, {w}) && w in processed
      modifies this`processed
      ensures Holds({w}, {}) && processed == Removed(old(processed), w) && Views() == old(Views())
      ensures w !in live && w !in processed
    {
      hide Views, Removed;
      LeavesProcessed(live, processed, entries, w);
      RemovedIs(processed, w);
      processed := Removed(processed, w);
    }

    lemma InEntries()
      requires Valid()
      ensures forall e :: e in live || e in processed ==> e in entries
    {
    }

    method MoveOn(w: Entry, now: real, a: Answer) returns (activated: bool)
      requires Valid() && w in live && w.Next() < NextSecond(now)
      modifies w`state, w`begin, w`end, w`startPrepare, w`backoff, w`firstTryPrepare
      ensures Holds({}, {w}) && activated == !old(w.ShouldSkip(now))
      ensures !activated ==> w.View() == old(w.View()).(state := ENDED)
      ensures activated ==> Moved(old(w.View()), w.View(), w.justplay, a, now)
      ensures if activated && Stalls(old(w.View()), w.justplay, a, now) then Stuck(old(w.View()), w.View(), now)
              else Progress(old(w.View()), w.View(), now)
      ensures Doomed(old(w.View()), now) ==> Doomed(w.View(), now)
    {
      hide Moved, Progress, Stuck, Stalls, Doomed, NextSecond, Distinct, Repeatable;
      activated := w.Advance(now, a);
      assert forall e :: e in live && e != w ==> e.Next() == old(e.Next());
      assert Sorted(live, {w});
      hide Sorted;
    }

    /** The part of doActivate that moves an entry on, while it is still in the live list. */
    method Advance(w: Entry, now: real)
      requires Valid() && w in live && w.Next() < NextSecond(now)
      modifies this`asked, w`state, w`begin, w`end, w`startPrepare, w`backoff, w`firstTryPrepare
      ensures Holds({}, {w})
      ensures old(w.ShouldSkip(now)) ==> asked == old(asked) && w.View() == old(w.View()).(state := ENDED)
      ensures !old(w.ShouldSkip(now)) ==>
                asked == old(asked) + 1 && Moved(old(w.View()), w.View(), w.justplay, answers(old(asked)), now)
      ensures Progress(old(w.View()), w.View(), now)
              || (Stuck(old(w.View()), w.View(), now) && asked == old(asked) + 1
                  && Stalls(old(w.View()), w.justplay, answers(old(asked)), now))
      ensures Views() == old(Views())[w := w.View()]
      ensures Doomed(old(w.View()), now) ==> Doomed(w.View(), now)
    {
      hide Moved, Progress, Stuck, Stalls, Doomed, NextSecond, Distinct, Repeatable, Partition, Views;
      InEntries();
      ghost var v := Views();
      ViewsBefore(v);
      var activated := MoveOn(w, now, answers(asked));
      ViewsAre(v, w);
      if activated {
        asked := asked + 1;
      }
    }

    method TakeNext(w: Entry, now: real) returns (ghost moved: Settings)
      requires Valid() && live != [] && w == live[0] && w.Next() < NextSecond(now)
      modifies this`live, this`asked, w`state, w`begin, w`end, w`startPrepare, w`backoff, w`firstTryPrepare
      ensures Holds({w}, {}) && live == old(live)[1..] && moved == w.View()
      ensures if old(w.ShouldSkip(now)) then moved == old(w.View()).(state := ENDED)
              else Moved(old(w.View()), moved, w.justplay, answers(old(asked)), now)
      ensures old(asked) <= asked
      ensures Progress(old(w.View()), moved, now)
              || (Stuck(old(w.View()), moved, now) && asked == old(asked) + 1
                  && Stalls(old(w.View()), w.justplay, answers(old(asked)), now))
      ensures Doomed(old(w.View()), now) ==> Doomed(moved, now)
      ensures Views() == old(Views())[w := moved]
      ensures w !in live && forall e :: e in old(live) && e != w ==> e in live
      ensures moved.state <= ENDED && moved.repeated == old(w.repeated)
      ensures moved.state == ENDED ==> Progress(old(w.View()), moved, now) && moved.end < NextSecond(now)
      ensures moved.end < NextSecond(now) ==> old(w.end) < NextSecond(now)
    {
      hide Moved, Doomed, Stalls, NextSecond, Distinct, Sorted, Partition, Views;
      RemovedFirst(live, w);
      hide Removed;
      Head(now);
      Advance(w, now);
      moved := w.View();
      TakeFromLive(w);
      assert old(live) == [w] + live;
    }

    /** The loop of a pass over a timer for which no service is found: after any number of rounds it is the first due
        entry as before. */
    method StaysDue(w: Entry, now: real, rounds: nat)
      requires Valid() && live == [w] && w.state == WAITING && !w.justplay
      requires w.startPrepare < NextSecond(now) && now < w.end
      requires forall k: nat :: asked <= k ==> answers(k).preparation.NoService?
      modifies this`live, this`asked, w`state, w`begin, w`end, w`startPrepare, w`backoff, w`firstTryPrepare
      ensures Valid() && live == [w] && w.View() == old(w.View()) && w.Next() < NextSecond(now)
      ensures asked == old(asked) + rounds
    {
      hide Partition, NextSecond, Distinct, Sorted, Views;
      for n := 0 to rounds
        invariant Valid() && live == [w] && w.View() == old(w.View()) && asked == old(asked) + n
      {
        ghost var a := answers(asked);
        ghost var before := w.View();
        ghost var moved := TakeNext(w, now);
        ProgressUnlessStalled(before, moved, w.justplay, a, now);
        assert {w} - {w} == {};
        var p := InsertLive(w, {w});
      }
    }

    /** As TakeNext, as a lawful step of the pass. A stall has spent an answer that is not harmless. */
    method TakeDue(w: Entry, now: real) returns (ghost moved: Settings)
      requires Valid() && live != [] && w == live[0] && w.Next() < NextSecond(now)
      requires FairFrom(now)
      modifies this`live, this`asked, w`state, w`begin, w`end, w`startPrepare, w`backoff, w`firstTryPrepare
      ensures Holds({w}, {}) && w in entries && live == old(live)[1..] && moved == w.View() && moved.state <= ENDED
      ensures FairFrom(now) && old(asked) <= asked
      ensures if old(w.ShouldSkip(now)) then moved == old(w.View()).(state := ENDED)
              else Moved(old(w.View()), moved, w.justplay, answers(old(asked)), now)
      ensures Progress(old(w.View()), moved, now)
              || (Stuck(old(w.View()), moved, now) && asked == old(asked) + 1
                  && !Harmless(answers(old(asked)), Recorders(), Extenders(), now))
      ensures Views() == old(Views())[w := moved]
      ensures Carried(old(Views()), Views(), old(live), live, Under(now))
      ensures moved.state == ENDED ==> Progress(old(w.View()), moved, now) && moved.end < NextSecond(now)
    {
      hide Carried, Moved, Progress, Stuck, Stalls, Harmless, Doomed, Partition, NextSecond, Fair;
      hide Views, Recorders, Extenders, Lawful;
      ghost var v0, l0, n := Views(), live, asked;
      Head(now);
      ViewOf(w);
      moved := TakeNext(w, now);
      ActivationLawful(v0[w], moved, w.justplay, n, Under(now));
      CarriedStep(v0, w, moved, l0, live, Under(now));
      ghost var _ := FairOn(n, Recorders(), Extenders(), now);
      if Stalls(v0[w], w.justplay, answers(n), now) {
        StallHarms(w, v0[w], answers(n), now);
      }
    }

    /** An ended timer that repeats waits for its next day. */
    method Restart(w: Entry, now: real)
      requires Holds({w}, {}) && w in entries && w.repeated != 0
      modifies w`begin, w`end, w`startPrepare, w`backoff, w`state
      ensures Holds({w}, {}) && Views() == old(Views())[w := w.View()] && w in Views()
      ensures Rescheduled(old(w.View()), w.View().(state := old(w.state)), now, offset, true)
      ensures w.state == WAITING && w.end >= NextSecond(now)
    {
      hide RejectedAfter, Selected, WeekDay, LocalTime, Trunc, NextSecond, Distinct, Rescheduled;
      w.Restart(now, offset);
    }

    method DoActivate(w: Entry, now: real) returns (ghost moved: Settings, ghost p: nat)
      requires Valid() && live != [] && w == live[0] && w.Next() < NextSecond(now)
      requires FairFrom(now)
      modifies this`live, this`processed, this`lastActivation, this`next, this`asked
      modifies entries`begin, entries`end, entries`state, entries`startPrepare
      modifies entries`backoff, entries`cancelled, entries`firstTryPrepare
      ensures Valid()
      ensures Carried(old(Views()), Views(), old(live), live, Under(now))
      ensures if old(w.ShouldSkip(now)) then moved == old(w.View()).(state := ENDED)
              else Moved(old(w.View()), moved, w.justplay, answers(old(asked)), now)
      ensures moved.state <= ENDED && old(asked) <= asked
      ensures Progress(old(w.View()), moved, now)
              || (Stuck(old(w.View()), moved, now) && asked == old(asked) + 1
                  && !Harmless(answers(old(asked)), Recorders(), Extenders(), now))
      ensures moved.state < ENDED ==>
                && Views() == old(Views())[w := moved] && processed == old(processed)
                && p < |old(live)| && live == Insert(old(live)[1..], p, w)
      ensures moved.state == ENDED && w.repeated == 0 ==>
                && Views() == old(Views())[w := moved] && live == old(live)[1..]
                && Filed(old(processed), processed, p, w, moved.end)
      ensures moved.state == ENDED && w.repeated != 0 ==>
                Pending(Views(), now) < Pending(old(Views()), now) && (!w.disabled ==> Settled(now))
      ensures old(lastActivation) <= now ==> lastActivation <= now && Steady(old(Views()), Views())
      decreases Pending(Views(), now), 1, 0
    {
      hide Carried, Moved, Progress, Stuck, Harmless, Doomed, Partition, Insert, Filed, NextSecond, Fair;
      hide Pending, Views, Recorders, Extenders, Lawful, Settled, Steady;
      ghost var v0, l0 := Views(), live;
      p := 0;
      Head(now);
      ViewOf(w);
      moved := TakeDue(w, now);
      ghost var v1, l1 := Views(), live;
      SteadyStep(v0, w, moved);
      PendingFalls(v0, v1, l0, l1, Under(now));
      assert {w} - {w} == {};
      if w.state < ENDED {
        p := InsertLive(w, {w});
        CarriedMore(v0, v1, l0, l1, live, Under(now));
      } else if w.repeated != 0 {
        StartOver(w, now);
        CarriedTwice(v0, v1, Views(), l0, l1, live, Under(now));
        if lastActivation <= now && Steady(v1, Views()) {
          SteadyTwice(v0, v1, Views());
        }
      } else {
        p := InsertProcessed(w, {w});
      }
    }

    lemma NotLive(w: Entry)
      requires Holds({w}, {})
      ensures w !in live
    {
    }

    /** A repeating timer has ended: it waits for its next day and is added again, which starts a further pass. */
    method StartOver(w: Entry, now: real)
      requires Holds({w}, {}) && w in entries && w.state == ENDED && w.repeated != 0 && w.end < NextSecond(now)
      requires FairFrom(now)
      modifies this`live, this`processed, this`lastActivation, this`next, this`asked
      modifies entries`begin, entries`end, entries`state, entries`startPrepare
      modifies entries`backoff, entries`cancelled, entries`firstTryPrepare
      ensures Valid() && old(asked) <= asked && (!w.disabled ==> Settled(now))
      ensures Carried(old(Views()), Views(), old(live), live, Under(now))
      ensures Pending(Views(), now) < Pending(old(Views()), now)
      ensures old(lastActivation) <= now ==> lastActivation <= now && Steady(old(Views()), Views())
      decreases Pending(Views(), now), 0
    {
      hide Carried, Partition, NextSecond, Fair, Pending, Views, Lawful, Rescheduled, Added, Settled, Steady;
      ghost var v0, l := Views(), live;
      ViewOf(w);
      NotLive(w);
      Restart(w, now);
      ghost var v1 := Views();
      ViewOf(w);
      RestartLawful(v0[w], v1[w], w.justplay, Under(now));
      RestartCarries(v0, w, v1[w], l, Under(now));
      SteadyStep(v0, w, v1[w]);
      var started, _, _, _ := AddTimerEntry(w, now);
      PendingFalls(v1, Views(), l, live, Under(now));
      CarriedTwice(v0, v1, Views(), l, l, live, Under(now));
      if Steady(v1, Views()) {
        SteadyTwice(v0, v1, Views());
      }
    }

    /** As Enqueue, as a lawful step of the pass. */
    method EnqueueStep(w: Entry, now: real) returns (started: bool, p: nat)
      requires Holds({w}, {}) && w in entries
      modifies this`live, this`processed, w`begin, w`end, w`startPrepare, w`backoff, w`state
      ensures Valid()
      ensures Rescheduled(old(w.View()), w.View().(state := old(w.state)), now, offset, true)
      ensures w.repeated == 0 ==> w.View() == old(w.View()).(state := w.state)
      ensures w.repeated != 0 ==> w.end >= NextSecond(now)
      ensures started == !(old(w.state) == ENDED || (old(w.state) == WAITING && (w.end <= now || w.disabled)))
      ensures w.state == if started then old(w.state) else ENDED
      ensures w !in old(live) && Views() == old(Views())[w := w.View()] && old(Views())[w] == old(w.View())
      ensures Carried(old(Views()), Views(), old(live), live, Under(now)) && Steady(old(Views()), Views())
      ensures started ==> p <= |old(live)| && live == Insert(old(live), p, w) && processed == old(processed)
      ensures !started ==>
                && Filed(old(processed), processed, p, w, if old(w.state) == ENDED then w.end else w.startPrepare)
                && live == old(live)
    {
      hide Carried, Partition, Insert, Filed, NextSecond, Views, Rescheduled, Steady;
      ghost var v0, l0 := Views(), live;
      ViewOf(w);
      assert {w} - {w} == {};
      started, p := Enqueue(w, now, {w});
      ViewOf(w);
      CarriedQueued(v0, w, w.View(), l0, live, Under(now));
      SteadyStep(v0, w, w.View());
    }

    lemma IsArmed(now: real)
      requires Settled(now)
      ensures Armed()
    {
    }

    /** addTimerEntry. When the entry goes live, `queued` is what it is queued as, and the pass starts from the
        scheduler with it. */
    method AddTimerEntry(w: Entry, now: real)
      returns (started: bool, ghost p: nat, ghost queued: Settings, ghost from: Moment)
      requires Holds({w}, {}) && w in entries
      requires FairFrom(now)
      modifies this`live, this`processed, this`lastActivation, this`next, this`asked
      modifies entries`begin, entries`end, entries`state, entries`startPrepare
      modifies entries`backoff, entries`cancelled, entries`firstTryPrepare
      ensures Valid()
      ensures Carried(old(Views()), Views(), old(live), live, Under(now))
      ensures w.repeated == 0 ==>
                started == !old(w.state == ENDED || (w.state == WAITING && (w.end <= now || w.disabled)))
      ensures w.repeated != 0 && old(w.state) == WAITING ==> started == !w.disabled
      ensures if started then
                && Settled(now)
                && Added(old(Present()), old(processed), old(lastActivation), w, queued, p, from, now)
                && Carried(from.views, Views(), from.live, live, Under(now))
              else
                && w.state == ENDED && live == old(live)
                && Filed(old(processed), processed, p, w, if old(w.state) == ENDED then w.end else w.startPrepare)
                && Views() == old(Views())[w := w.View()]
                && (w.repeated == 0 ==> w.View() == old(w.View()).(state := ENDED))
      ensures old(Armed()) ==> Armed()
      ensures old(asked) <= asked
      ensures old(lastActivation) <= now ==> lastActivation <= now && Steady(old(Views()), Views())
      decreases Pending(Views(), now), 4
    {
      hide Carried, Partition, Insert, Filed, NextSecond, Fair, Pending, Views, Rescheduled, PassStarts, Settled;
      hide Steady;
      ghost var v0, l0 := Views(), live;
      started, p := EnqueueStep(w, now);
      queued, from := w.View(), Present();
      ghost var v1, l1 := Views(), live;
      PendingFalls(v0, v1, l0, l1, Under(now));
      if started {
        from := CalcNextActivation(now);
        CarriedTwice(v0, v1, Views(), l0, l1, live, Under(now));
        if Steady(v1, Views()) {
          SteadyTwice(v0, v1, Views());
        }
        IsArmed(now);
      }
    }

    lemma InOut(x: Entry, out: set<Entry>)
      requires Holds(out, {}) && x in out
      ensures x in entries && x !in live && x !in processed
    {
    }

    /** resetState, on an entry that is in no list. */
    method Reset(x: Entry, ghost out: set<Entry>)
      requires Holds(out, {}) && x in out
      modifies x`state, x`cancelled, x`firstTryPrepare, x`startPrepare, x`backoff
      ensures Holds(out, {}) && Views() == old(Views())[x := x.View()]
      ensures x.View() == old(x.View()).(state := WAITING, cancelled := false, startPrepare := x.begin - 20.0,
                                         backoff := 0)
    {
      InOut(x, out);
      hide Distinct, Sorted;
      ghost var v := Views();
      ViewsBefore(v);
      hide Views;
      x.ResetState();
      assert Holds(out, {});
      hide Partition;
      ViewsAre(v, x);
    }

    method Reevaluate(x: Entry, now: real, ghost out: set<Entry>, ghost v0: Snapshot, ghost l0: seq<Entry>)
      requires Holds(out, {}) && x in out && forall e :: e in out ==> e.state == ENDED
      requires Carried(v0, Views(), l0, live, Under(now))
      modifies this`live, this`processed
      modifies x`begin, x`end, x`state, x`startPrepare, x`backoff, x`cancelled, x`firstTryPrepare
      ensures Holds(out - {x}, {}) && forall e :: e in out - {x} ==> e.state == ENDED
      ensures Carried(v0, Views(), l0, live, Under(now))
      ensures Reconsidered(old(x.View()), x.View(), now, offset) && Views() == old(Views())[x := x.View()]
      ensures forall e :: e in old(live) ==> e in live
    {
      hide Carried, NextSecond, Distinct, Sorted, Rescheduled, Partition, Views;
      InOut(x, out);
      ghost var v1, l1, s0 := Views(), live, x.View();
      ViewOf(x);
      Reset(x, out);
      ghost var v2, s := Views(), x.View();
      ViewOf(x);
      CarriedReset(v1, x, s, l1, Under(now));
      var started, p := Enqueue(x, now, out);
      ViewOf(x);
      UpdatedTwice(v1, x, s, x.View());
      CarriedQueued(v2, x, x.View(), l1, live, Under(now));
      CarriedTwice(v1, v2, Views(), l1, l1, live, Under(now));
      CarriedTwice(v0, v1, Views(), l0, l1, live, Under(now));
    }

    method EmptyProcessed() returns (tl: seq<Entry>)
      requires Valid()
      modifies this`processed
      ensures tl == old(processed) && processed == [] && Distinct(tl)
      ensures Holds(Members(tl), {}) && Members(tl) <= entries && forall e :: e in Members(tl) ==> e.state == ENDED
      ensures forall e :: e in tl ==> e in entries
      ensures Views() == old(Views())
    {
      hide Sorted, Views;
      tl := processed;
      processed := [];
    }

    lemma ByState()
      requires Valid()
      ensures forall e :: e in entries ==> (e in live <==> e.state < ENDED)
    {
    }

    lemma ReevaluatedOnce(v0: Snapshot, list: seq<Entry>, now: real)
      requires Reevaluated(v0, Views(), list, now, offset) && forall e :: e in list ==> e in entries
      ensures forall e :: e in list && e.repeated == 0 ==>
                e.View() == v0[e].(state := if e.end <= now || e.disabled then 3 else 0, cancelled := false,
                                   startPrepare := e.begin - 20.0, backoff := 0)
    {
      forall e | e in list && e.repeated == 0
        ensures e.View() == v0[e].(state := if e.end <= now || e.disabled then 3 else 0, cancelled := false,
                                   startPrepare := e.begin - 20.0, backoff := 0)
      {
        ViewOf(e);
        assert v0[e].repeated == 0;
        ReconsideredOnce(v0[e], Views()[e], now, offset);
      }
    }

    /** The time has jumped back: every processed timer gets the chance to occur again. */
    method ReevaluateProcessed(now: real)
      requires Valid()
      modifies this`live, this`processed
      modifies entries`begin, entries`end, entries`state, entries`startPrepare
      modifies entries`backoff, entries`cancelled, entries`firstTryPrepare
      ensures Valid()
      ensures Carried(old(Views()), Views(), old(live), live, Under(now))
      ensures Reevaluated(old(Views()), Views(), old(processed), now, offset)
      ensures forall e :: e in old(live) ==> e in live
      ensures forall e :: e in entries ==> (e in live <==> e.state < ENDED)
      ensures forall e :: e in old(processed) && e.repeated == 0 ==>
                e.View() == old(e.View()).(state := if e.end <= now || e.disabled then 3 else 0, cancelled := false,
                                           startPrepare := e.begin - 20.0, backoff := 0)
    {
      hide Carried, NextSecond, Partition, Members, Views, Distinct, Reevaluated, Reconsidered, Rescheduled;
      ghost var v0, l0 := Views(), live;
      ViewsBefore(v0);
      CarriedSelf(v0, l0, Under(now));
      ReevaluatedNone(v0, now, offset);
      var tl := EmptyProcessed();
      ghost var out := Members(tl);
      assert tl[0..] == tl && tl[..0] == [];
      for i := 0 to |tl|
        invariant out == Members(tl[i..]) <= entries
        invariant Holds(out, {})
        invariant forall e :: e in out ==> e.state == ENDED
        invariant Carried(v0, Views(), l0, live, Under(now))
        invariant Reevaluated(v0, Views(), tl[..i], now, offset)
        invariant forall e :: e in l0 ==> e in live
      {
        NextMember(tl, i);
        ghost var v1 := Views();
        ViewOf(tl[i]);
        Reevaluate(tl[i], now, out, v0, l0);
        ReevaluatedOneMore(v0, v1, tl, i, tl[i].View(), now, offset);
        out := out - {tl[i]};
      }
      NoMembers(tl);
      assert tl[..|tl|] == tl;
      ByState();
      ReevaluatedOnce(v0, tl, now);
    }

    lemma AreStates()
      requires Valid()
      ensures forall e :: e in Views() ==> (e in live <==> Views()[e].state < ENDED)
    {
    }

    /** The next wake-up: the first entry's, or in 100 seconds. */
    method SetNext(now: real)
      requires Valid() && lastActivation == now && forall e :: e in live ==> e.Next() >= NextSecond(now)
      modifies this`next
      ensures Settled(now)
      ensures now >= 0.0 ==> next <= now + 100.0
      ensures now >= 0.0 && (forall e :: e in live ==> now + 99.0 < e.Next()) ==> now + 99.0 < next
    {
      hide Partition, NextSecond;
      var min := (Trunc(now) + maxWaitTime) as real;
      if live != [] {
        Head(now);
        var w := live[0].Next();
        if w < min {
          min := w;
        }
      }
      next := min;
    }

    /** The time has jumped back, or not: from here the pass starts. */
    method StartPass(now: real) returns (ghost from: Moment)
      requires Valid()
      modifies this`live, this`processed
      modifies entries`begin, entries`end, entries`state, entries`startPrepare
      modifies entries`backoff, entries`cancelled, entries`firstTryPrepare
      ensures Valid() && from == Present()
      ensures Carried(old(Views()), Views(), old(live), live, Under(now))
      ensures PassStarts(old(Present()), old(processed), lastActivation, from, now, offset)
      ensures lastActivation <= now ==> from == old(Present())
    {
      hide Carried, Partition, NextSecond, Views, Reevaluated;
      ghost var v0, l0 := Views(), live;
      if lastActivation > now {
        ReevaluateProcessed(now);
      } else {
        CarriedSelf(v0, l0, Under(now));
      }
      from := Present();
      AreStates();
    }

    /** The pass starts from where things stand, or, when the time has jumped back, from the timers reconsidered. The
        wake-up is at most 100 seconds away, and sooner only for an entry. */
    method CalcNextActivation(now: real) returns (ghost from: Moment)
      requires Valid()
      requires FairFrom(now)
      modifies this`live, this`processed, this`lastActivation, this`next, this`asked
      modifies entries`begin, entries`end, entries`state, entries`startPrepare
      modifies entries`backoff, entries`cancelled, entries`firstTryPrepare
      ensures Valid()
      ensures Carried(old(Views()), Views(), old(live), live, Under(now))
      ensures PassStarts(old(Present()), old(processed), old(lastActivation), from, now, offset)
      ensures Carried(from.views, Views(), from.live, live, Under(now))
      ensures Settled(now) && old(asked) <= asked
      ensures now >= 0.0 ==> next <= now + 100.0
      ensures now >= 0.0 && (forall e :: e in live ==> now + 99.0 < e.Next()) ==> now + 99.0 < next
      ensures old(lastActivation) <= now ==> lastActivation <= now && Steady(old(Views()), Views())
      decreases Pending(Views(), now), 3
    {
      hide Carried, Partition, NextSecond, Fair, Pending, Views, PassStarts, Steady, Settled, Sorted, Distinct;
      ghost var v0, l0 := Views(), live;
      from := StartPass(now);
      ghost var v1, l1 := Views(), live;
      PendingFalls(v0, v1, l0, l1, Under(now));
      ProcessActivation(now);
      CarriedTwice(v0, v1, Views(), l0, l1, live, Under(now));
      lastActivation := now;
      SetNext(now);
    }

    /** One round of the pass. It counts down, or an answer was spent that is not harmless, of which finitely many are
        left before a harmless one. */
    method ActivateFirst(now: real, ghost good: nat) returns (ghost ahead: nat)
      requires Valid() && live != [] && live[0].Next() < NextSecond(now)
      requires FairFrom(now) && asked <= good && Harmless(answers(good), Recorders(), Extenders(), now)
      modifies this`live, this`processed, this`lastActivation, this`next, this`asked
      modifies entries`begin, entries`end, entries`state, entries`startPrepare
      modifies entries`backoff, entries`cancelled, entries`firstTryPrepare
      ensures Valid() && old(asked) <= asked
      ensures FairFrom(now) && asked <= ahead && Harmless(answers(ahead), Recorders(), Extenders(), now)
      ensures Carried(old(Views()), Views(), old(live), live, Under(now))
      ensures Nearer(Views(), old(Views()), now)
              || (AsNear(Views(), old(Views()), now) && ahead - asked < good - old(asked))
      ensures old(lastActivation) <= now ==> lastActivation <= now && Steady(old(Views()), Views())
      decreases Pending(Views(), now), 1, 1
    {
      hide Carried, Moved, Progress, Stuck, Harmless, Doomed, Partition, Insert, Filed, NextSecond, Fair, Pending;
      hide Recorders, Extenders, Nearer, AsNear, Steady;
      Head(now);
      ghost var v, w, n := Views(), live[0], asked;
      ghost var moved, p := DoActivate(live[0], now);
      StepsDown(v, Views(), w, moved, now);
      ahead := FairOn(n, Recorders(), Extenders(), now);
      if asked <= good {
        ahead := good;
      }
    }

    method ProcessActivation(now: real)
      requires Valid()
      requires FairFrom(now)
      modifies this`live, this`processed, this`lastActivation, this`next, this`asked
      modifies entries`begin, entries`end, entries`state, entries`startPrepare
      modifies entries`backoff, entries`cancelled, entries`firstTryPrepare
      ensures Valid()
      ensures Carried(old(Views()), Views(), old(live), live, Under(now))
      ensures old(asked) <= asked && forall e :: e in live ==> e.Next() >= NextSecond(now)
      ensures forall e :: e in live ==>
                && (e.state == 0 ==> e.startPrepare >= NextSecond(now))
                && (e.state == 1 ==> e.begin >= NextSecond(now))
                && (e.state == 2 ==> e.end >= NextSecond(now))
      ensures old(lastActivation) <= now ==> lastActivation <= now && Steady(old(Views()), Views())
      decreases Pending(Views(), now), 2
    {
      SteadySelf(Views());
      hide Carried, Partition, NextSecond, Fair, Harmless, Pending, Below, Due, Recorders, Extenders, Views, Steady;
      ghost var v0, l0, r, x := Views(), live, Recorders(), Extenders();
      CarriedSelf(v0, l0, Under(now));
      ghost var good := FairOn(asked, r, x, now);
      while live != [] && live[0].Next() < NextSecond(now)
        invariant Valid() && Recorders() == r && Extenders() == x
        invariant Carried(v0, Views(), l0, live, Under(now))
        invariant old(lastActivation) <= now ==> lastActivation <= now && Steady(v0, Views())
        invariant old(asked) <= asked <= good && Harmless(answers(good), r, x, now) && FairFrom(now)
        decreases Pending(Views(), now), Below(Views(), PREPARED), Below(Views(), RUNNING), Below(Views(), ENDED),
                  Due(Views(), now), good - asked
      {
        ghost var v1, l1 := Views(), live;
        PendingFalls(v0, v1, l0, l1, Under(now));
        good := ActivateFirst(now, good);
        CarriedTwice(v0, v1, Views(), l0, l1, live, Under(now));
        if Steady(v0, v1) && Steady(v1, Views()) {
          SteadyTwice(v0, v1, Views());
        }
      }
      if live != [] {
        Head(now);
      }
    }

    lemma Empty()
      requires Valid() && entries == {}
      ensures live == [] && processed == []
    {
      if |live| > 0 {
        FirstIn(live);
      }
      if |processed| > 0 {
        FirstIn(processed);
      }
    }

    constructor (now: real, offset: int, answers: nat -> Answer)
      ensures Valid() && Settled(now) && entries == {} && live == [] && processed == []
      ensures this.offset == offset && this.answers == answers
    {
      this.offset, this.answers := offset, answers;
      live, processed, entries := [], [], {};
      lastActivation, next, asked := now, 0.0, 0;
      new;
      FairWithoutEntries(answers, now);
      ghost var _ := CalcNextActivation(now);
      Empty();
    }

    /** The proof's set of entries grows. */
    ghost method Admit(w: Entry)
      requires Valid() && w !in entries && Repeatable(w.repeated) && w.state <= ENDED
      modifies this`entries
      ensures entries == old(entries) + {w} && Holds({w}, {})
      ensures Views() == old(Views())[w := w.View()]
      ensures Recorders() ==> old(Recorders()) || !w.justplay
      ensures Extenders() ==> old(Extenders()) || w.autoincrease
    {
      ghost var v := Views();
      ViewsBefore(v);
      hide Partition, Views;
      Admits(live, processed, entries, w);
      entries := entries + {w};
      ViewsSame(v[w := w.View()]);
    }

    method Welcome(w: Entry)
      requires Valid() && Armed() && w !in entries && Repeatable(w.repeated) && w.state <= ENDED
      modifies this`entries, w`startPrepare, w`backoff
      ensures entries == old(entries) + {w} && Holds({w}, {}) && Armed()
      ensures w.View() == old(w.View()).(startPrepare := w.begin - 20.0, backoff := 0)
      ensures Views() == old(Views())[w := w.View()]
      ensures Recorders() ==> old(Recorders()) || !w.justplay
      ensures Extenders() ==> old(Extenders()) || w.autoincrease
      ensures w !in live && forall e :: e in live ==> e in old(entries)
    {
      InEntries();
      hide Partition, Views, Armed;
      w.TimeChanged();
      assert old(Extenders()) == Extenders();
      hide Recorders, Extenders;
      Admit(w);
    }

    /** record: a new timer is added. */
    method Record(w: Entry, now: real)
      returns (started: bool, ghost p: nat, ghost queued: Settings, ghost from: Moment)
      requires Valid() && Armed() && w !in entries && Repeatable(w.repeated) && w.state <= ENDED
      requires Fair(answers, asked, Recorders() || !w.justplay, Extenders() || w.autoincrease, now)
      modifies this`live, this`processed, this`lastActivation, this`next, this`asked
      modifies entries`begin, entries`end, entries`state, entries`startPrepare
      modifies entries`backoff, entries`cancelled, entries`firstTryPrepare
      modifies this`entries, w`begin, w`end, w`state, w`startPrepare, w`backoff, w`cancelled, w`firstTryPrepare
      ensures entries == old(entries) + {w}
      ensures Valid() && Armed()
      ensures w.repeated == 0 ==>
                started == !old(w.state == ENDED || (w.state == WAITING && (w.end <= now || w.disabled)))
      ensures if started then
                && Settled(now)
                && Added(Moment(old(Views())[w := old(w.View()).(startPrepare := old(w.begin) - 20.0, backoff := 0)],
                                old(live), old(asked)),
                         old(processed), old(lastActivation), w, queued, p, from, now)
                && Carried(from.views, Views(), from.live, live, Under(now))
              else
                && w.state == ENDED && live == old(live)
                && Filed(old(processed), processed, p, w, if old(w.state) == ENDED then w.end else w.startPrepare)
                && Views() == old(Views())[w := w.View()]
                && (w.repeated == 0 ==> w.end == old(w.end) && w.startPrepare == old(w.begin) - 20.0)
      ensures Untouched(old(Views()), Views(), old(live), live, now)
      ensures old(lastActivation) <= now ==> Steady(old(Views()), Views() - {w})
    {
      hide Carried, Moved, Progress, Doomed, Partition, Insert, Filed, NextSecond, Fair;
      hide Pending, Views, Rescheduled;
      hide Recorders, Extenders, Untouched, Settled, Distinct, Sorted, Armed, Added, Steady;
      ghost var v0, r, x := Views(), Recorders() || !w.justplay, Extenders() || w.autoincrease;
      Welcome(w);
      ghost var _ := FairOn(asked, r, x, now);
      ghost var v, l, s := Views(), live, w.View();
      started, p, queued, from := AddTimerEntry(w, now);
      UpdatedTwice(v0, w, s, w.View());
      UntouchedIn(v0, v, Views(), l, live, Under(now));
      if Steady(v, Views()) {
        SteadyBut(v0, v, Views(), w);
        assert v0 - {w} == v0;
      }
    }

    method Touch(w: Entry)
      requires Holds({}, {w}) && w in entries
      modifies w`startPrepare, w`backoff
      ensures Holds({}, {w}) && Views() == old(Views())[w := w.View()]
      ensures w.View() == old(w.View()).(startPrepare := w.begin - 20.0, backoff := 0)
      ensures forall e :: e in live && e != w ==> e.Next() == old(e.Next())
    {
      hide Distinct;
      w.TimeChanged();
      assert forall e :: e in live && e != w ==> e.Next() == old(e.Next());
      assert Sorted(live, {w});
    }

    method SetWaiting(w: Entry)
      requires Holds({w}, {}) && w in entries
      modifies w`state
      ensures Holds({w}, {}) && Views() == old(Views())[w := w.View()] && w.state == WAITING
      ensures forall e :: e in live ==> e.Next() == old(e.Next())
    {
      hide Distinct;
      assert w !in live;
      w.state := WAITING;
      assert forall e :: e in live ==> e.Next() == old(e.Next());
      assert Sorted(live, {});
    }

    method TakeOut(w: Entry)
      requires Holds({}, {w}) && w in entries && (if w.state == ENDED then w in processed else w in live)
      requires forall e :: e in live && e != w ==> next <= e.Next()
      modifies this`live, this`processed, w`startPrepare, w`backoff, w`state
      ensures Holds({w}, {}) && Armed()
      ensures w.View() == Requeued(old(w.View())) && Views() == old(Views())[w := w.View()]
      ensures if old(w.state) == ENDED then live == old(live) && processed == Removed(old(processed), w)
              else live == Removed(old(live), w) && processed == old(processed)
    {
      hide Partition, Removed, Views, Sorted, Distinct;
      ghost var v0 := Views();
      Touch(w);
      ghost var s := w.View();
      if w.state == ENDED {
        TakeFromProcessed(w);
        assert Armed();
        SetWaiting(w);
        UpdatedTwice(v0, w, s, w.View());
      } else {
        TakeFromLive(w);
        assert Armed();
      }
    }

    /** The user, or abort, has changed a timer where it stands: it is taken out and added again. */
    method TimeChanged(w: Entry, now: real)
      returns (started: bool, ghost reset: Settings, ghost p: nat, ghost queued: Settings, ghost from: Moment)
      requires Holds({}, {w}) && w in entries && (if w.state == ENDED then w in processed else w in live)
      requires forall e :: e in live && e != w ==> next <= e.Next()
      requires FairFrom(now)
      modifies this`live, this`processed, this`lastActivation, this`next, this`asked
      modifies entries`begin, entries`end, entries`state, entries`startPrepare
      modifies entries`backoff, entries`cancelled, entries`firstTryPrepare
      ensures Valid() && Armed()
      ensures reset == Requeued(old(w.View()))
      ensures reset == old(w.View()).(state := if old(w.state) == 3 then 0 else old(w.state), backoff := 0,
                                      startPrepare := old(w.begin) - 20.0)
      ensures Carried(old(Views())[w := reset], Views(),
                      if old(w.state) == ENDED then old(live) else Removed(old(live), w), live, Under(now))
      ensures if started then
                && Settled(now)
                && Added(Moment(old(Views())[w := reset],
                                if old(w.state) == ENDED then old(live) else Removed(old(live), w), old(asked)),
                         if old(w.state) == ENDED then Removed(old(processed), w) else old(processed),
                         old(lastActivation), w, queued, p, from, now)
                && Carried(from.views, Views(), from.live, live, Under(now))
              else w.state == ENDED && forall e :: e in live ==> e == w || e in old(live)
      ensures old(asked) <= asked
      ensures old(lastActivation) <= now ==> lastActivation <= now && Steady(old(Views())[w := reset], Views())
    {
      hide Carried, Moved, Progress, Doomed, Partition, Insert, NextSecond, Fair, Pending, Views, Rescheduled;
      hide Added, Steady;
      TakeOut(w);
      reset := w.View();
      started, p, queued, from := AddTimerEntry(w, now);
    }

    /** A doomed entry is in the processed list once nothing is due. */
    lemma Ends(w: Entry, started: bool, now: real)
      requires Valid() && w in entries && Doomed(Views()[w], now)
      requires if started then Settled(now) else w.state == ENDED
      ensures w in processed
    {
    }

    /** The timeChanged call of removeEntry drives a stopped timer into the processed list. */
    method RunOut(w: Entry, now: real, ghost v0: Snapshot, ghost l0: seq<Entry>)
      requires Holds({}, {w}) && w in entries && w in live && w.state < ENDED
      requires forall e :: e in live && e != w ==> next <= e.Next()
      requires Doomed(Requeued(w.View()), now)
      requires FairFrom(now)
      requires w in v0 && Views() == v0[w := w.View()] && l0 == live
      requires forall e :: e in l0 && e != w ==> e in Removed(l0, w)
      modifies this`live, this`processed, this`lastActivation, this`next, this`asked
      modifies entries`begin, entries`end, entries`state, entries`startPrepare
      modifies entries`backoff, entries`cancelled, entries`firstTryPrepare
      ensures Valid() && Armed() && w in processed && Doomed(Views()[w], now)
      ensures FairFrom(now)
      ensures Untouched(v0 - {w}, Views() - {w}, l0, live, now)
      ensures old(lastActivation) <= now ==> lastActivation <= now && Steady(v0 - {w}, Views() - {w})
    {
      hide Carried, Moved, Progress, Doomed, Untouched, Removed, NextSecond, Fair, Pending, Views;
      hide Rescheduled, Partition, Settled, Recorders, Extenders, Steady;
      ghost var v1, n, r, x := Views(), asked, Recorders(), Extenders();
      var started, reset, _, _, _ := TimeChanged(w, now);
      ghost var _ := FairOn(n, r, x, now);
      ghost var v2 := v1[w := reset];
      StaysDoomed(v2, Views(), Removed(l0, w), live, w, Under(now));
      Ends(w, started, now);
      UpdatedTwice(v0, w, v1[w], reset);
      UntouchedBut(v0, v2, Views(), w, l0, Removed(l0, w), live, Under(now));
      if Steady(v2, Views()) {
        SteadyBut(v0, v2, Views(), w);
      }
    }

    method Stop(w: Entry, now: real)
      requires Valid() && Armed() && w in entries
      modifies w`repeated, w`autoincrease, w`begin, w`end, w`cancelled
      ensures Holds({}, {w}) && Views() == old(Views())[w := w.View()]
      ensures forall e :: e in live && e != w ==> next <= e.Next()
      ensures if w.state == ENDED then w in processed else w in live
      ensures w.state == old(w.state) <= ENDED && Doomed(Requeued(w.View()), now)
      ensures Extenders() ==> old(Extenders())
    {
      hide Distinct, Doomed;
      w.Stop(now);
      assert forall e :: e in live && e != w ==> e.Next() == old(e.Next());
      assert Sorted(live, {w});
    }

    /** An ended entry is in its place, whatever its times are. */
    lemma EndedFits(w: Entry)
      requires Holds({}, {w}) && w in processed && w.state == ENDED
      ensures Valid() && w !in live
    {
      hide Distinct;
      assert Sorted(live, {});
    }

    /** A timer is stopped and runs out. */
    method Finish(w: Entry, now: real)
      requires Valid() && Armed() && w in entries
      requires FairFrom(now)
      modifies this`live, this`processed, this`lastActivation, this`next, this`asked
      modifies entries`begin, entries`end, entries`state, entries`startPrepare
      modifies entries`backoff, entries`cancelled, entries`firstTryPrepare
      modifies w`repeated, w`autoincrease
      ensures Valid() && Armed() && w in processed && Doomed(Views()[w], now)
      ensures FairFrom(now)
      ensures Untouched(old(Views()) - {w}, Views() - {w}, old(live), live, now)
      ensures old(lastActivation) <= now ==> lastActivation <= now && Steady(old(Views()) - {w}, Views() - {w})
    {
      hide Carried, Moved, Progress, Doomed, Untouched, Removed, NextSecond, Fair, Pending, Views, Rescheduled, Steady;
      ghost var v0, l0 := Views(), live;
      assert Distinct(l0);
      hide Partition, Distinct, Sorted;
      LeftLive(l0, w);
      ghost var r, x := Recorders(), Extenders();
      Stop(w, now);
      ghost var _ := FairOn(asked, r, x, now);
      hide Recorders, Extenders;
      ghost var v1 := Views();
      ViewOf(w);
      if w.state != ENDED {
        RunOut(w, now, v0, l0);
      } else {
        EndedFits(w);
        AlreadyOut(v0, v1, w, l0, Under(now));
        SteadySelf(v1);
        SteadyBut(v0, v1, v1, w);
      }
    }

    lemma LiveFits()
      requires Valid()
      ensures |live| <= |entries|
    {
      hide Sorted;
      assert Members(live) <= entries;
      MembersCount(live);
      SubsetCount(Members(live), entries);
    }

    /** A doomed entry stays in the processed list while another one is listed again. */
    lemma StaysEnded(w: Entry, x: Entry, was: seq<Entry>, started: bool, now: real)
      requires Valid() && w in entries && w != x && w !in was && Doomed(Views()[w], now)
      requires if started then Settled(now) else forall e :: e in live ==> e == x || e in was
      ensures w in processed
    {
    }

    /** timeChanged for an entry that was extended. */
    method ListAgain(x: Entry, w: Entry, now: real, ghost v1: Snapshot, ghost v0: Snapshot, ghost l0: seq<Entry>)
      requires Holds({}, {x}) && x in live && x in entries && x.state < ENDED
      requires x != w && w in processed && w in entries && w !in live
      requires forall e :: e in live && e != x ==> next <= e.Next() && e in Removed(live, x)
      requires FairFrom(now)
      requires x in v1 && v1[x].state < ENDED && v1[x].autoincrease && Views() == v1[x := x.View()]
      requires w in v1 && Doomed(v1[w], now)
      requires NoneExtended(v0) && Untouched(v0, v1 - {w}, l0, live, now)
      modifies this`live, this`processed, this`lastActivation, this`next, this`asked
      modifies entries`begin, entries`end, entries`state, entries`startPrepare
      modifies entries`backoff, entries`cancelled, entries`firstTryPrepare
      ensures Valid() && Armed() && w in processed && Doomed(Views()[w], now)
      ensures FairFrom(now)
      ensures Carried(v1[x := Requeued(old(x.View()))], Views(), Removed(old(live), x), live, Under(now))
      ensures old(asked) <= asked
      ensures Untouched(v0, Views() - {w}, l0, live, now)
      ensures old(lastActivation) <= now ==> lastActivation <= now && Steady(v1, Views())
    {
      hide Carried, Doomed, Untouched, Removed, NextSecond, Fair, Pending, Views, Partition, NoneExtended, Settled;
      hide Recorders, Extenders, Steady;
      ghost var s, l1, n, r, e := x.View(), live, asked, Recorders(), Extenders();
      var started, reset, _, _, _ := TimeChanged(x, now);
      ghost var _ := FairOn(n, r, e, now);
      ghost var v2 := v1[x := reset];
      UpdatedTwice(v1, x, s, reset);
      StaysDoomed(v2, Views(), Removed(l1, x), live, w, Under(now));
      StaysEnded(w, x, l1, started, now);
      UntouchedBeside(v0, v1, x, reset, Views(), w, l0, l1, live, Under(now));
      SteadyStep(v1, x, reset);
      if Steady(v2, Views()) {
        SteadyTwice(v1, v2, Views());
      }
    }

    lemma Listed(x: Entry, w: Entry)
      requires Valid() && x in live && w in processed
      ensures x in entries && x.state < ENDED && x != w && w !in live
      ensures forall e :: e in live && e != x ==> e in Removed(live, x)
    {
      hide Sorted, Removed;
      LeftLive(live, x);
    }

    method Stretch(x: Entry, now: real, newEnd: real) returns (extended: bool)
      requires Valid() && x in live
      modifies x`end
      ensures extended == (x.autoincrease && newEnd > now)
      ensures x.end == if extended then newEnd else old(x.end)
      ensures Holds({}, if extended then {x} else {})
      ensures forall e :: e in live && e != x ==> e.Next() == old(e.Next())
    {
      hide Distinct;
      extended := x.SetAutoincreaseEnd(now, newEnd);
      ghost var loose := if extended then {x} else {};
      assert forall e :: e in live && e !in loose ==> e.Next() == old(e.Next());
      assert Sorted(live, loose);
    }

    /** setAutoincreaseEnd on a listed timer, which may leave it out of its place. */
    method Extend(x: Entry, now: real) returns (extended: bool)
      requires Valid() && x in live && x in entries
      modifies this`asked, x`end
      ensures Holds({}, if extended then {x} else {})
      ensures asked == old(asked) + if x.autoincrease then 1 else 0
      ensures extended == (x.autoincrease && answers(old(asked)).newEnd > now)
      ensures x.View() == if extended then old(x.View()).(end := answers(old(asked)).newEnd) else old(x.View())
      ensures Views() == old(Views())[x := x.View()]
      ensures forall e :: e in live && e != x ==> e.Next() == old(e.Next())
    {
      hide Partition, Sorted, Distinct, Views;
      InEntries();
      ghost var v := Views();
      ViewsBefore(v);
      extended := Stretch(x, now, answers(asked).newEnd);
      ViewsAre(v, x);
      if x.autoincrease {
        asked := asked + 1;
      }
    }

    /** An auto-increased timer that gets more time is listed again where it belongs. */
    method ExtendOne(ghost k: nat, x: Entry, w: Entry, now: real, ghost v0: Snapshot, ghost l0: seq<Entry>)
      requires Valid() && Armed() && k < |live| && x == live[k]
      requires w in processed && w in entries && Doomed(Views()[w], now)
      requires FairFrom(now)
      requires NoneExtended(v0) && Untouched(v0, Views() - {w}, l0, live, now)
      modifies this`live, this`processed, this`lastActivation, this`next, this`asked
      modifies entries`begin, entries`end, entries`state, entries`startPrepare
      modifies entries`backoff, entries`cancelled, entries`firstTryPrepare
      ensures Valid() && Armed() && w in processed && Doomed(Views()[w], now)
      ensures FairFrom(now)
      ensures Turn(k, old(Present()), Present(), Under(now))
      ensures Untouched(v0, Views() - {w}, l0, live, now)
      ensures old(lastActivation) <= now ==> lastActivation <= now && Steady(old(Views()), Views())
    {
      hide Carried, Moved, Progress, Doomed, Untouched, Removed, NextSecond, Fair, Pending, Views, Rescheduled;
      hide Partition, Recorders, Extenders, NoneExtended, Settled, Sorted, Steady;
      Listed(x, w);
      ViewOf(x);
      ghost var n, r, e := asked, Recorders(), Extenders();
      ghost var v1 := Views();
      var extended := Extend(x, now);
      ghost var _ := FairOn(n, r, e, now);
      if extended {
        ListAgain(x, w, now, v1, v0, l0);
      } else {
        SameAgain(v1, x);
        SteadySelf(v1);
      }
    }

    /** The loop at the end of removeEntry. Every timer that gets more time is listed again, so the list changes under
        the loop, which counts positions in it. */
    method ExtendOthers(w: Entry, now: real, ghost v0: Snapshot, ghost l0: seq<Entry>)
      returns (ghost turns: seq<Moment>)
      requires Valid() && Armed() && w in processed && w in entries && Doomed(Views()[w], now)
      requires FairFrom(now)
      requires NoneExtended(v0) && Untouched(v0, Views() - {w}, l0, live, now)
      modifies this`live, this`processed, this`lastActivation, this`next, this`asked
      modifies entries`begin, entries`end, entries`state, entries`startPrepare
      modifies entries`backoff, entries`cancelled, entries`firstTryPrepare
      ensures Valid() && Armed() && w in processed
      ensures Untouched(v0, Views() - {w}, l0, live, now)
      ensures |live| < |turns| && Turns(turns, Under(now))
      ensures turns[0] == old(Present()) && turns[|turns| - 1] == Present()
      ensures old(lastActivation) <= now ==> lastActivation <= now && Steady(old(Views()), Views())
    {
      hide Doomed, Partition, Untouched, NextSecond, Fair, Views, Recorders, Extenders, Armed, NoneExtended;
      hide Turn, Steady;
      ghost var start := Views();
      SteadySelf(start);
      var i := 0;
      turns := [Present()];
      while i < |live|
        invariant |turns| == i + 1 && turns[0] == old(Present()) && turns[i] == Present()
        invariant Turns(turns, Under(now))
        invariant Valid() && Armed() && w in processed && Doomed(Views()[w], now)
        invariant FairFrom(now)
        invariant Untouched(v0, Views() - {w}, l0, live, now)
        invariant old(lastActivation) <= now ==> lastActivation <= now && Steady(start, Views())
        decreases |entries| - i
      {
        LiveFits();
        ghost var v := Views();
        ExtendOne(i, live[i], w, now, v0, l0);
        if Steady(start, v) && Steady(v, Views()) {
          SteadyTwice(start, v, Views());
        }
        i := i + 1;
        turns := turns + [Present()];
      }
    }

    lemma Loosened(w: Entry)
      requires Valid() && w in processed
      ensures Holds({}, {w})
    {
    }

    method Drop(w: Entry)
      requires Holds({}, {w}) && w in processed
      requires forall e :: e in live && e != w ==> next <= e.Next()
      modifies this`processed, this`entries
      ensures Valid() && Armed() && entries == old(entries) - {w} && live == old(live)
      ensures w !in live && w !in processed
      ensures Views() == old(Views()) - {w}
    {
      hide Views, Removed, Partition, Sorted, Distinct;
      ghost var v := Views();
      ViewsBefore(v);
      TakeFromProcessed(w);
      Forgets(live, processed, entries, w);
      entries := entries - {w};
      ViewsSame(v - {w});
    }

    /** removeEntry. The stopped timer runs out, then the auto-increased ones may get the time it leaves free. */
    method RemoveEntry(w: Entry, now: real) returns (ghost turns: seq<Moment>)
      requires Valid() && Armed() && w in entries
      requires FairFrom(now)
      modifies this`live, this`processed, this`lastActivation, this`next, this`asked
      modifies entries`begin, entries`end, entries`state, entries`startPrepare
      modifies entries`backoff, entries`cancelled, entries`firstTryPrepare
      modifies this`entries, w`repeated, w`autoincrease
      ensures entries == old(entries) - {w} && w !in live && w !in processed
      ensures Valid() && Armed()
      ensures Untouched((if w.dontSave then old(Views()) else Fixed(old(Views()))) - {w}, Views(), old(live), live, now)
      ensures !w.dontSave ==>
                && |live| < |turns| && Turns(turns, Under(now))
                && Untouched(old(Views()) - {w}, turns[0].views - {w}, old(live), turns[0].live, now)
                && turns[|turns| - 1].views - {w} == Views() && turns[|turns| - 1].live == live
      ensures old(lastActivation) <= now ==> Steady(old(Views()) - {w}, Views())
    {
      hide Doomed, Untouched, NextSecond, Fair, Views, Fixed, NoneExtended, Partition, Sorted, Recorders, Extenders;
      hide Turns, Steady;
      ghost var v0, l0 := Views(), live;
      Finish(w, now);
      ghost var v1 := Views();
      turns := [];
      if !w.dontSave {
        UntouchedFixed(v0, w, Views(), l0, live, now);
        turns := ExtendOthers(w, now, Fixed(v0) - {w}, l0);
        if old(lastActivation) <= now {
          SteadyApart(v0, v1, Views(), w);
        }
      }
      Loosened(w);
      Drop(w);
    }
  }

  lemma FiledOnly(list: seq<Entry>, p: nat, w: Entry, key: real)
    requires Filed([], list, p, w, key)
    ensures list == [w]
  {
  }

  lemma FiledInFront(first: Entry, list: seq<Entry>, p: nat, w: Entry, key: real)
    requires Filed([first], list, p, w, key) && key < first.end
    ensures list == [w, first]
  {
    assert [first][0] == first;
    assert p == 0;
    assert [first][..0] == [] && [first][0..] == [first];
  }

  lemma HarmlessAlways(answers: nat -> Answer, from: nat, now: real)
    requires forall k: nat :: answers(k) == Answer(Prepares, false, 0.0) && !(now < 0.0)
    ensures forall r: bool, e: bool :: Fair(answers, from, r, e, now)
  {
    forall r: bool, e: bool, k: nat | from <= k
      ensures HarmlessAhead(answers, k, r, e, now)
    {
      assert Harmless(answers(k), r, e, now);
    }
  }

  /** The processed list out of order: a timer that is over, then a disabled one that would end later but is filed by
      the time its preparation would start. */
  method ProcessedOutOfOrder() returns (t: Timer)
    ensures fresh(t) && t.Valid() && |t.processed| == 2 && t.processed[0].end > t.processed[1].end
  {
    hide Partition, Fair, Filed, Untouched, Sorted, NextSecond, Distinct, PassStarts, Steady;
    hide Timer.Settled, Timer.Views, Timer.Added;
    var now := 5000.0;
    t := new Timer(now, 0, n => Answer(Prepares, false, 0.0));
    var over := new Entry(2000.0, 3000.0, false);
    var disabled := new Entry(100.0, 10000.0, false);
    disabled.disabled := true;
    assert Trunc(3000.0) == 3000 && Trunc(2000.0) == 2000 && Trunc(100.0) == 100 && Trunc(10000.0) == 10000;
    HarmlessAlways(t.answers, t.asked, now);
    var first, p, _, _ := t.Record(over, now);
    FiledOnly(t.processed, p, over, over.startPrepare);
    t.ViewOf(over);
    HarmlessAlways(t.answers, t.asked, now);
    var second, q, _, _ := t.Record(disabled, now);
    t.ViewOf(over);
    FiledInFront(over, t.processed, q, disabled, disabled.startPrepare);
  }
}
