/** One recording timer: its times, its four states and what activating it does to them. */
module TimerEntries {
  import opened TimerDays

  const WAITING: nat := 0
  const PREPARED: nat := 1
  const RUNNING: nat := 2
  const ENDED: nat := 3

  /** What the tuner and the conflict check answer when a timer is activated: the outcome of preparing the
      recording service, whether starting it fails, and the end an auto-increased recording could be moved to. */
  datatype Preparation = Prepares | NoService | PrepareError
  datatype Answer = Answer(preparation: Preparation, startFails: bool, newEnd: real)

  /** The first whole second after now: an activation pass handles everything before it. */
  function NextSecond(now: real): (t: real)
    ensures now < t <= now + 2.0 && (now >= 0.0 ==> t <= now + 1.0)
    ensures t.Floor as real == t
  {
    (Trunc(now) + 1) as real
  }

  /** Seconds to wait after one more failure. */
  function BackedOff(backoff: nat): (b: nat)
    ensures 2 <= b <= 100 && (backoff == 0 ==> b == 5)
    ensures backoff > 0 ==> (b == backoff + backoff <==> backoff <= 50) && (b < 100 ==> b == backoff + backoff)
  {
    if backoff == 0 then 5 else if 2 * backoff > 100 then 100 else 2 * backoff
  }

  /** The wait after `failures` failures in a row. */
  function WaitAfter(failures: nat): nat {
    if failures == 0 then 0 else BackedOff(WaitAfter(failures - 1))
  }

  /** Failing again and again, a timer is put off by 5, 10, 20, 40 and 80 seconds, and by 100 from then on. */
  lemma {:induction false} WaitsAre(failures: nat)
    ensures WaitAfter(failures) == if failures < 6 then [0, 5, 10, 20, 40, 80][failures] else 100
  {
    if failures > 0 {
      WaitsAre(failures - 1);
    }
  }

  /** processRepeated's search comes to an end. */
  predicate Repeatable(repeated: nat) {
    repeated == 0 || repeated % 128 != 0
  }

  /** The fields of an entry that decide what becomes of it. */
  datatype Settings = Settings(begin: real, end: real, startPrepare: real, state: nat, backoff: nat, cancelled: bool,
                               repeated: nat, autoincrease: bool, first: real, disabled: bool)

  /** How one activation changes an entry. */
  ghost predicate Moved(before: Settings, after: Settings, justplay: bool, a: Answer, now: real) {
    var extended := before.state == RUNNING && before.autoincrease && a.newEnd > now;
    var accepted := before.state == RUNNING
                    || (before.state == WAITING && (justplay || a.preparation.Prepares?))
                    || (before.state == PREPARED && (before.cancelled || justplay || !a.startFails));
    && after.state == before.state + (if accepted && !extended then 1 else 0)
    && after.end == (if extended then a.newEnd else before.end)
    && after.begin == (if accepted || before.state == WAITING then before.begin else now + after.backoff as real)
    && after.startPrepare == (if !accepted && before.state == WAITING && a.preparation.PrepareError?
                            then now + after.backoff as real else before.startPrepare)
    && after.backoff == (if accepted then if before.state == WAITING then 0 else before.backoff
                         else if before.state == WAITING && a.preparation.NoService? then before.backoff
                         else BackedOff(before.backoff))
    && after == before.(state := after.state, begin := after.begin, end := after.end,
                        startPrepare := after.startPrepare, backoff := after.backoff)
  }

  ghost function DueAt(s: Settings): real {
    if s.state == WAITING then s.startPrepare else if s.state == PREPARED then s.begin else s.end
  }

  /** What an activation pass needs of every step: the entry has come closer to its end, or is not due any more. */
  ghost predicate Progress(before: Settings, after: Settings, now: real) {
    && after.state <= ENDED
    && (after.state > before.state || (after.state == before.state && DueAt(after) >= NextSecond(now)))
    && after.repeated == before.repeated && (after.end == before.end || after.end >= NextSecond(now))
    && (after.state == ENDED ==> after.end < NextSecond(now))
  }

  /** The two answers that leave a due entry due: no service is found for a waiting one (nothing is put off then),
      or a running one is extended to an end within the current second. */
  ghost predicate Stalls(before: Settings, justplay: bool, a: Answer, now: real) {
    || (before.state == WAITING && !justplay && a.preparation.NoService?)
    || (before.state == RUNNING && before.autoincrease && now < a.newEnd < NextSecond(now))
  }

  /** Where a step leaves an entry that stalls: it is due as before. */
  ghost predicate Stuck(before: Settings, after: Settings, now: real) {
    && after.state == before.state && DueAt(after) < NextSecond(now)
    && after.repeated == before.repeated && (after.end < NextSecond(now) <==> before.end < NextSecond(now))
  }

  /** An activation pass gets past a due entry if and only if the answer is not one of those two. */
  lemma ProgressUnlessStalled(before: Settings, after: Settings, justplay: bool, a: Answer, now: real)
    requires before.state < ENDED && DueAt(before) < NextSecond(now)
    requires Moved(before, after, justplay, a, now)
    ensures Progress(before, after, now) <==> !Stalls(before, justplay, a, now)
    ensures Stalls(before, justplay, a, now) ==> Stuck(before, after, now)
  {
    assert BackedOff(before.backoff) >= 2;
  }

  ghost function Shifted(s: Settings, days: nat): Settings {
    var begin := (Trunc(s.begin) + days * DAY) as real;
    var end := (Trunc(s.end) + days * DAY) as real;
    s.(begin := begin, end := if begin == end then end + 1.0 else end, startPrepare := begin - 20.0, backoff := 0)
  }

  /** A repeating timer has moved on by `days` days, to the first day the search does not reject. */
  ghost predicate MovedBy(days: nat, before: Settings, after: Settings, now: real, offset: int, findRunning: bool) {
    var f, n := LocalTime(Trunc(before.first), offset), LocalTime(Trunc(now) + 1, offset);
    var b, e := LocalTime(Trunc(before.begin), offset), LocalTime(Trunc(before.end), offset);
    && !RejectedAfter(days, before.repeated, f, b, e, n, findRunning)
    && (forall k: nat :: k < days ==> RejectedAfter(k, before.repeated, f, b, e, n, findRunning))
    && after == Shifted(before, days)
  }

  /** processRepeated */
  ghost predicate Rescheduled(before: Settings, after: Settings, now: real, offset: int, findRunning: bool) {
    && (before.repeated == 0 ==> after == before)
    && (before.repeated != 0 ==> exists days: nat :: MovedBy(days, before, after, now, offset, findRunning))
  }

  /** A repeating timer ends up on one of its weekdays, not before its first day, and not over (or, where a running
      one is not wanted, not begun) at the next second. It keeps its length, or gets one second if it had none. */
  lemma RescheduledMeans(before: Settings, after: Settings, now: real, offset: int, findRunning: bool)
    returns (w: int, x: nat)
    requires Rescheduled(before, after, now, offset, findRunning) && before.repeated != 0
    ensures x < 7 && after.repeated / [1, 2, 4, 8, 16, 32, 64][x] % 2 == 1
    ensures (7 * w + 4 + x) * 86400 <= Trunc(after.begin) + offset < (7 * w + 5 + x) * 86400
    ensures after.begin >= Trunc(after.first) as real
    ensures if findRunning then after.end >= NextSecond(now) else after.begin >= NextSecond(now)
    ensures after.begin - before.begin > -1.0 && after.startPrepare == after.begin - 20.0 && after.backoff == 0
    ensures after.end - after.begin == if Trunc(before.end) == Trunc(before.begin) then 1.0
                                       else (Trunc(before.end) - Trunc(before.begin)) as real
  {
    var days: nat :| MovedBy(days, before, after, now, offset, findRunning);
    var b := LocalTime(Trunc(before.begin), offset);
    var l := LocalTime(Trunc(after.begin), offset);
    assert l.seconds == Later(b, days).seconds;
    x := WeekDay(l);
    w := WeekDayOf(l);
  }

  ghost predicate SuitsAfter(k: nat, s: Settings, now: real, offset: int, findRunning: bool) {
    Suits(k, s.repeated, Trunc(s.first), Trunc(s.begin), Trunc(s.end), Trunc(now) + 1, offset, findRunning)
  }

  /** No day before the one it has moved to would have done. */
  lemma MovedToFirst(days: nat, before: Settings, after: Settings, now: real, offset: int, findRunning: bool)
    requires MovedBy(days, before, after, now, offset, findRunning)
    ensures after.begin == (Trunc(before.begin) + days * 86400) as real
    ensures forall k: nat | k <= days ::
              SuitsAfter(k, before, now, offset, findRunning) <==> k == days
  {
    hide Suits;
    forall k: nat | k <= days {
      SuitsUnlessRejected(k, before.repeated, Trunc(before.first), Trunc(before.begin), Trunc(before.end),
                          Trunc(now) + 1, offset, findRunning);
    }
  }

  /** Whatever happens to this entry next, it ends without starting. */
  ghost predicate Doomed(s: Settings, now: real) {
    && s.repeated == 0 && !s.autoincrease
    && s.begin <= now && s.end <= now && (s.state == ENDED || s.startPrepare <= now)
    && (s.state == PREPARED ==> s.cancelled)
  }

  /** timeChanged's reset of one entry. */
  ghost function Requeued(s: Settings): Settings {
    s.(startPrepare := s.begin - 20.0, backoff := 0, state := if s.state == ENDED then WAITING else s.state)
  }

  /** The list processRepeated looks weekdays up in: 0 for a selected day. */
  method DayList(repeated: nat) returns (day: seq<int>)
    ensures |day| == 7
    ensures forall x: nat :: x < 7 ==> (day[x] == 0 <==> Selected(repeated, x))
  {
    day := [];
    var flags := repeated;
    for x := 0 to 7
      invariant |day| == x
      invariant x < 7 ==> flags == repeated / Weight(x)
      invariant forall k: nat :: k < x ==> (day[k] == 0 <==> Selected(repeated, k))
    {
      day := day + [if flags % 2 == 1 then 0 else 1];
      if x < 6 {
        Shifting(repeated, x);
      }
      flags := flags / 2;
    }
  }

  class Entry {
    const prepareTime: real := 20.0
    const justplay: bool
    var begin: real
    var end: real
    var state: nat
    var repeated: nat
    var repeatedBeginDate: real
    var backoff: nat
    var disabled: bool
    var cancelled: bool
    var firstTryPrepare: bool
    var startPrepare: real
    var autoincrease: bool
    var dontSave: bool

    ghost function View(): Settings
      reads this
    {
      Settings(begin, end, startPrepare, state, backoff, cancelled, repeated, autoincrease, repeatedBeginDate, disabled)
    }

    /** getNextActivation: the moment the next state is due. */
    function Next(): real
      reads this`state, this`begin, this`end, this`startPrepare
    {
      if state == WAITING then startPrepare else if state == PREPARED then begin else end
    }

    predicate ShouldSkip(now: real)
      reads this`state, this`end
    {
      end <= now && state == WAITING
    }

    constructor (begin: real, end: real, justplay: bool)
      ensures this.begin == Trunc(begin) as real && this.end >= this.begin
      ensures this.end == Trunc(end) as real || (Trunc(end) < Trunc(begin) && this.end == this.begin)
      ensures state == WAITING && repeated == 0 && repeatedBeginDate == this.begin && backoff == 0
      ensures startPrepare == this.begin - prepareTime
      ensures !disabled && !cancelled && firstTryPrepare && !autoincrease && !dontSave && this.justplay == justplay
    {
      var b, e := Trunc(begin) as real, Trunc(end) as real;
      this.begin, repeatedBeginDate := b, b;
      this.end := if e < b then b else e;
      this.justplay := justplay;
      state, repeated, backoff := WAITING, 0, 0;
      disabled, cancelled, firstTryPrepare, autoincrease, dontSave := false, false, true, false, false;
      startPrepare := b - 20.0;
    }

    method TimeChanged()
      modifies this`startPrepare, this`backoff
      ensures startPrepare == begin - prepareTime && backoff == 0
    {
      startPrepare := begin - prepareTime;
      backoff := 0;
    }

    method ResetState()
      modifies this`state, this`cancelled, this`firstTryPrepare, this`startPrepare, this`backoff
      ensures state == WAITING && !cancelled && firstTryPrepare
      ensures startPrepare == begin - prepareTime && backoff == 0
    {
      state := WAITING;
      cancelled := false;
      firstTryPrepare := true;
      TimeChanged();
    }

    method Abort(now: real)
      modifies this`begin, this`end, this`cancelled
      ensures end == now && cancelled
      ensures begin == if old(begin) > now then now else old(begin)
    {
      end := now;
      if begin > end {
        begin := end;
      }
      cancelled := true;
    }

    /** Moves a repeating timer to the first day, counted from the one it stands at, that the loop's test does
        not reject. */
    method ProcessRepeated(now: real, offset: int, findRunning: bool) returns (days: nat)
      requires Repeatable(repeated)
      modifies this`begin, this`end, this`startPrepare, this`backoff
      ensures Rescheduled(old(View()), View(), now, offset, findRunning)
      ensures repeated != 0 ==> MovedBy(days, old(View()), View(), now, offset, findRunning)
      ensures repeated != 0 ==>
                && begin == (old(Trunc(begin)) + days * 86400) as real && startPrepare == begin - 20.0 && backoff == 0
                && forall k: nat | k <= days ::
                     SuitsAfter(k, old(View()), now, offset, findRunning) <==> k == days
    {
      hide Selected, LocalTime, Trunc, Suits;
      days := 0;
      if repeated != 0 {
        var localNow := LocalTime(Trunc(now) + 1, offset);
        var localFirst := LocalTime(Trunc(repeatedBeginDate), offset);
        var localBegin := LocalTime(Trunc(begin), offset);
        var localEnd := LocalTime(Trunc(end), offset);
        var day := DayList(repeated);
        ghost var b, e := localBegin, localEnd;
        ghost var stop := AcceptedWithin(repeated, localFirst, b, e, localNow, findRunning);
        while day[WeekDay(localBegin)] != 0 || MkTime(localFirst, offset) > MkTime(localBegin, offset) ||
              (day[WeekDay(localBegin)] == 0 &&
               ((findRunning && Before(localEnd, localNow)) || (!findRunning && Before(localBegin, localNow))))
          invariant localBegin == Later(b, days) && localEnd == Later(e, days)
          invariant forall k: nat :: k < days ==> RejectedAfter(k, repeated, localFirst, b, e, localNow, findRunning)
          invariant days <= stop
          decreases stop - days
        {
          assert RejectedAfter(days, repeated, localFirst, b, e, localNow, findRunning);
          localBegin := AddOneDay(localBegin);
          localEnd := AddOneDay(localEnd);
          days := days + 1;
        }
        MkTimeLater(Trunc(begin), offset, days);
        MkTimeLater(Trunc(end), offset, days);
        assert !RejectedAfter(days, repeated, localFirst, b, e, localNow, findRunning);
        hide RejectedAfter, MkTime, Later;
        begin := MkTime(localBegin, offset) as real;
        end := MkTime(localEnd, offset) as real;
        if begin == end {
          end := end + 1.0;
        }
        TimeChanged();
        assert MovedBy(days, old(View()), View(), now, offset, findRunning);
        MovedToFirst(days, old(View()), View(), now, offset, findRunning);
      }
    }

    /** removeEntry's first step: the timer is not to come back, and ends now. */
    method Stop(now: real)
      modifies this`repeated, this`autoincrease, this`begin, this`end, this`cancelled
      ensures repeated == 0 && !autoincrease && end == now && cancelled && Doomed(Requeued(View()), now)
      ensures begin == if old(begin) > now then now else old(begin)
    {
      repeated := 0;
      autoincrease := false;
      Abort(now);
    }

    /** What doActivate does to a repeating timer that has ended, before it adds it again. */
    method Restart(now: real, offset: int)
      requires Repeatable(repeated) && repeated != 0
      modifies this`begin, this`end, this`startPrepare, this`backoff, this`state
      ensures Rescheduled(old(View()), View().(state := old(state)), now, offset, true)
      ensures state == WAITING && end >= NextSecond(now)
    {
      var days := ProcessRepeated(now, offset, true);
      ghost var _, _ := RescheduledMeans(old(View()), View(), now, offset, true);
      state := WAITING;
    }

    method DoBackoff()
      modifies this`backoff
      ensures backoff == BackedOff(old(backoff))
    {
      if backoff == 0 {
        backoff := 5;
      } else {
        backoff := backoff * 2;
        if backoff > 100 {
          backoff := 100;
        }
      }
    }

    method TryPrepare(now: real, a: Answer) returns (prepared: bool)
      modifies this`startPrepare, this`backoff
      ensures prepared == (justplay || a.preparation.Prepares?)
      ensures backoff == if !prepared && a.preparation.PrepareError? then BackedOff(old(backoff)) else old(backoff)
      ensures startPrepare == if !prepared && a.preparation.PrepareError? then now + backoff as real
                              else old(startPrepare)
    {
      if justplay {
        return true;
      }
      match a.preparation
      case NoService =>
        return false;
      case PrepareError =>
        DoBackoff();
        startPrepare := now + backoff as real;
        return false;
      case Prepares =>
        return true;
    }

    /** newEnd is what the conflict check leaves of the extra time. */
    method SetAutoincreaseEnd(now: real, newEnd: real) returns (extended: bool)
      modifies this`end
      ensures extended == (autoincrease && newEnd > now)
      ensures end == if extended then newEnd else old(end)
    {
      if !autoincrease {
        return false;
      }
      if newEnd <= now {
        return false;
      }
      end := newEnd;
      return true;
    }

    /** Activates the next state. A timer refused here is due again in the same pass exactly when no service was
        found for it; an extended one exactly when its new end lies within the current second. */
    method Activate(now: real, a: Answer) returns (accepted: bool)
      requires state < ENDED
      modifies this`state, this`begin, this`end, this`startPrepare, this`backoff, this`firstTryPrepare
      ensures accepted == if old(state) == WAITING then justplay || a.preparation == Prepares
                          else if old(state) == PREPARED then cancelled || justplay || !a.startFails
                          else true
      ensures if old(state) == RUNNING && autoincrease && a.newEnd > now then end == a.newEnd && state == PREPARED
              else end == old(end) && state == old(state)
      ensures begin == if !accepted && old(state) == PREPARED then now + backoff as real else old(begin)
      ensures startPrepare == if !accepted && old(state) == WAITING && a.preparation.PrepareError?
                              then now + backoff as real else old(startPrepare)
      ensures backoff == if old(state) == WAITING && accepted then 0
                         else if !accepted && !(old(state) == WAITING && a.preparation.NoService?)
                         then BackedOff(old(backoff))
                         else old(backoff)
      ensures firstTryPrepare == (old(firstTryPrepare) && (accepted || old(state) != WAITING))
      ensures old(Next()) < NextSecond(now) && !accepted ==>
                (Next() < NextSecond(now) <==> old(state) == WAITING && a.preparation.NoService?)
    {
      var nextState := state + 1;
      if nextState == PREPARED {
        var prepared := TryPrepare(now, a);
        if prepared {
          // The recording's file is created and next_activation set; neither is read again.
          backoff := 0;
          return true;
        }
        if firstTryPrepare {
          firstTryPrepare := false;
        }
        return false;
      } else if nextState == RUNNING {
        if cancelled || justplay {
          return true;
        }
        if a.startFails {
          DoBackoff();
          begin := now + backoff as real;
          return false;
        }
        return true;
      } else {
        var extended := SetAutoincreaseEnd(now, a.newEnd);
        if extended {
          state := state - 1;
        }
        return true;
      }
    }

    /** doActivate's treatment of a due entry: an entry that waited past its own end is ended without activating it. */
    method Advance(now: real, a: Answer) returns (activated: bool)
      requires state < ENDED && Next() < NextSecond(now)
      modifies this`state, this`begin, this`end, this`startPrepare, this`backoff, this`firstTryPrepare
      ensures activated <==> old(end) > now || old(state) != WAITING
      ensures !activated ==> View() == old(View()).(state := ENDED)
      ensures activated ==>
                state == match old(state)
                         case 0 => if justplay || a.preparation == Prepares then 1 else 0
                         case 1 => if cancelled || justplay || !a.startFails then 2 else 1
                         case _ => if autoincrease && a.newEnd > now then 2 else 3
      ensures activated ==> Moved(old(View()), View(), justplay, a, now)
      ensures activated && Stalls(old(View()), justplay, a, now) ==> Stuck(old(View()), View(), now)
      ensures !(activated && Stalls(old(View()), justplay, a, now)) ==> Progress(old(View()), View(), now)
      ensures Doomed(old(View()), now) ==> Doomed(View(), now)
    {
      if ShouldSkip(now) {
        state := ENDED;
        return false;
      }
      var accepted := Activate(now, a);
      if accepted {
        state := state + 1;
      }
      return true;
    }
  }

  /** A due timer for which no service is found, however often it is activated: every activation is refused, and leaves
      it exactly as it was. */
  method NoServiceChangesNothing(rounds: nat) returns (e: Entry)
    ensures fresh(e) && e.state == WAITING && e.Next() < NextSecond(90.0) < e.end
    ensures e.begin == 100.0 && e.end == 200.0 && e.startPrepare == 80.0 && e.backoff == 0
  {
    e := new Entry(100.0, 200.0, false);
    assert Trunc(100.0) == 100 && Trunc(200.0) == 200 && Trunc(90.0) == 90;
    for n := 0 to rounds
      invariant fresh(e) && !e.justplay
      invariant e.View() == Settings(100.0, 200.0, 80.0, WAITING, 0, false, 0, false, 100.0, false)
    {
      var accepted := e.Activate(90.0, Answer(NoService, false, 0.0));
    }
  }
}
