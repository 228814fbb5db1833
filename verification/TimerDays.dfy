/** Which days a repeating timer runs on.

    Local time is taken at a fixed offset from UTC, so a broken-down time is the second it names, counted in
    local time from 1970-01-01, together with its tm_isdst mark: 0 when it comes from `localtime`, -1 when
    `addOneDay` made it out of a datetime. The mark is the last component the source compares. */
module TimerDays {

  const DAY := 86400

  datatype Local = Local(seconds: int, isdst: int)

  /** Python's int() of a float. */
  function Trunc(x: real): (t: int)
    ensures if x >= 0.0 then t as real <= x < t as real + 1.0 else x <= t as real < x + 1.0
  {
    if x >= 0.0 then x.Floor else -(-x).Floor
  }

  function LocalTime(clock: int, offset: int): Local {
    Local(clock + offset, 0)
  }

  function MkTime(l: Local, offset: int): int {
    l.seconds - offset
  }

  /** tm_wday, Monday = 0; 1970-01-01 was a Thursday. */
  function WeekDay(l: Local): (day: nat)
    ensures day < 7
  {
    (l.seconds / DAY + 3) % 7
  }

  /** Which day is which: every seventh day, counted from the fifth of January 1970, is a Monday. */
  lemma WeekDayIs(l: Local, w: int, x: nat)
    requires x < 7
    requires (7 * w + 4 + x) * 86400 <= l.seconds < (7 * w + 5 + x) * 86400
    ensures WeekDay(l) == x
  {
    var d := 7 * w + 4 + x;
    assert l.seconds - d * 86400 < 86400;
    assert l.seconds / DAY == d;
    assert (d + 3) % 7 == (7 * (w + 1) + x) % 7 == x;
  }

  lemma WeekDayOf(l: Local) returns (w: int)
    ensures var x := WeekDay(l);
            (7 * w + 4 + x) * 86400 <= l.seconds < (7 * w + 5 + x) * 86400
  {
    w := (l.seconds / DAY + 3) / 7 - 1;
    assert 7 * w + 4 + WeekDay(l) == l.seconds / DAY;
  }

  predicate Before(a: Local, b: Local) {
    a.seconds < b.seconds || (a.seconds == b.seconds && a.isdst < b.isdst)
  }

  function AddOneDay(l: Local): Local {
    Local(l.seconds + DAY, -1)
  }

  /** AddOneDay, n times. */
  function Later(l: Local, n: nat): Local {
    if n == 0 then l else Local(l.seconds + n * DAY, -1)
  }

  lemma MkTimeLater(clock: int, offset: int, n: nat)
    ensures MkTime(Later(LocalTime(clock, offset), n), offset) == clock + n * DAY
  {
  }

  function Weight(x: nat): (w: nat)
    requires x < 7
    ensures w > 0
  {
    [1, 2, 4, 8, 16, 32, 64][x]
  }

  /** Bit x of the repeat flags: the timer repeats on weekday x. */
  predicate Selected(flags: nat, x: nat)
    requires x < 7
  {
    flags / Weight(x) % 2 == 1
  }

  /** The test under which the search moves on to the next day. */
  predicate Rejected(flags: nat, first: Local, begin: Local, end: Local, now: Local, findRunning: bool) {
    || !Selected(flags, WeekDay(begin))
    || first.seconds > begin.seconds
    || (findRunning && Before(end, now))
    || (!findRunning && Before(begin, now))
  }

  /** The test for the n-th day after the one the timer stands at. */
  predicate RejectedAfter(n: nat, flags: nat, first: Local, begin: Local, end: Local, now: Local, findRunning: bool) {
    Rejected(flags, first, Later(begin, n), Later(end, n), now, findRunning)
  }

  lemma WeekDayAfter(l: Local, n: nat)
    ensures WeekDay(Later(l, n)) == (WeekDay(l) + n) % 7
  {
    assert (l.seconds + n * DAY) / DAY == l.seconds / DAY + n;
  }

  lemma AtLeastOnce(m: nat, d: nat)
    requires d > 0
    ensures m * d >= m
  {
    assert m * d == m * (d - 1) + m;
  }

  lemma RemainderIs(x: nat, m: nat, q: nat, r: nat)
    requires r < m && x == m * q + r
    ensures x % m == r
  {
    var d := q - x / m;
    assert m * d == m * q - m * (x / m) && m * -d == -(m * d);
    if d > 0 {
      AtLeastOnce(m, d);
    } else if d < 0 {
      AtLeastOnce(m, -d);
    }
  }

  lemma EvenAndHalf(f: nat, k: nat)
    requires k > 0
    ensures f % (2 * k) == 0 <==> f % 2 == 0 && f / 2 % k == 0
  {
    var half, bit := f / 2, f % 2;
    var q, r := half / k, half % k;
    assert (2 * k) * q == 2 * (k * q);
    RemainderIs(f, 2 * k, q, 2 * r + bit);
  }

  /** Shifting right once more halves the shifted flags. */
  lemma Shifting(flags: nat, x: nat)
    requires x < 6
    ensures flags / Weight(x + 1) == flags / Weight(x) / 2
  {
  }

  lemma AllBitsClear(flags: nat, f: seq<nat>)
    requires |f| == 7 && f[0] == flags
    requires forall x :: 0 <= x < 6 ==> f[x + 1] == f[x] / 2
    ensures flags % 128 == 0 <==> forall x :: 0 <= x < 7 ==> f[x] % 2 == 0
  {
    EvenAndHalf(f[0], 64);
    EvenAndHalf(f[1], 32);
    EvenAndHalf(f[2], 16);
    EvenAndHalf(f[3], 8);
    EvenAndHalf(f[4], 4);
    EvenAndHalf(f[5], 2);
    assert f[1] == f[0] / 2 && f[2] == f[1] / 2 && f[3] == f[2] / 2;
    assert f[4] == f[3] / 2 && f[5] == f[4] / 2 && f[6] == f[5] / 2;
  }

  lemma NoDaySelected(flags: nat)
    ensures flags % 128 == 0 <==> forall x: nat :: x < 7 ==> !Selected(flags, x)
  {
    var f := seq(7, x requires 0 <= x < 7 => flags / Weight(x));
    forall x | 0 <= x < 6
      ensures f[x + 1] == f[x] / 2
    {
      Shifting(flags, x);
    }
    AllBitsClear(flags, f);
    assert forall x: nat :: x < 7 ==> (Selected(flags, x) <==> f[x] % 2 == 1);
  }

  function Gap(a: Local, b: Local): nat {
    if b.seconds > a.seconds then b.seconds - a.seconds else 0
  }

  /** From any weekday, `far` days on, another few days lead to the wanted one. */
  lemma ReachesDay(day: nat, far: nat, wanted: nat) returns (more: nat)
    requires wanted < 7
    ensures (day + (far + more)) % 7 == wanted
  {
    more := (wanted - day - far) % 7;
  }

  lemma AcceptedWithin(flags: nat, first: Local, begin: Local, end: Local, now: Local, findRunning: bool)
    returns (n: nat)
    requires flags % 128 != 0
    ensures !RejectedAfter(n, flags, first, begin, end, now, findRunning)
  {
    NoDaySelected(flags);
    var wanted: nat :| wanted < 7 && Selected(flags, wanted);
    var far := 1 + Gap(begin, first) + Gap(end, now) + Gap(begin, now);
    var more := ReachesDay(WeekDay(begin), far, wanted);
    n := far + more;
    WeekDayAfter(begin, n);
    hide WeekDay, Selected;
    assert Later(begin, n).seconds == begin.seconds + n * DAY;
    assert Later(end, n).seconds == end.seconds + n * DAY;
    assert n * DAY >= n > Gap(begin, first) + Gap(end, now) + Gap(begin, now) - 1;
  }

  /** The search stops at a selected weekday, not before the first day, whose end (or begin) has not passed. A day
      reached by skipping carries tm_isdst -1 while the present carries 0, so there the moment itself counts as
      passed; on the day the timer already stands at it does not. */
  lemma StopsExactly(n: nat, flags: nat, first: Local, begin: Local, end: Local, clock: int, offset: int,
                     findRunning: bool)
    requires begin.isdst == 0 && end.isdst == 0
    ensures var now := LocalTime(clock, offset);
            var watched := MkTime(if findRunning then Later(end, n) else Later(begin, n), offset);
            !RejectedAfter(n, flags, first, begin, end, now, findRunning) <==>
              && Selected(flags, (WeekDay(begin) + n) % 7)
              && first.seconds <= begin.seconds + n * DAY
              && (if n == 0 then watched >= clock else watched > clock)
  {
    WeekDayAfter(begin, n);
  }

  /** Second `t` lies on weekday `x` of week `w`. */
  predicate OnDay(t: int, w: int, x: nat) {
    (7 * w + 4 + x) * 86400 <= t < (7 * w + 5 + x) * 86400
  }

  /** The weekday of `t`, whichever it is, has its bit set. */
  ghost predicate OnSelectedDay(flags: nat, t: int) {
    exists w: int, x: nat | OnDay(t, w, x) :: x < 7 && flags / [1, 2, 4, 8, 16, 32, 64][x] % 2 == 1
  }

  /** The days a timer can run on, said in seconds: the n-th day on is one of its weekdays by the local clock, not
      before the first day, and its end (or begin) is not over, a day skipped to counting as over in its very second. */
  ghost predicate Suits(n: nat, flags: nat, first: int, begin: int, end: int, clock: int, offset: int,
                        findRunning: bool)
  {
    var watched := (if findRunning then end else begin) + n * 86400;
    && OnSelectedDay(flags, begin + n * 86400 + offset)
    && first <= begin + n * 86400
    && (watched > clock || (n == 0 && watched == clock))
  }

  /** The loop's test rejects exactly the days that do not suit. */
  lemma SuitsUnlessRejected(n: nat, flags: nat, first: int, begin: int, end: int, clock: int, offset: int,
                            findRunning: bool)
    ensures Suits(n, flags, first, begin, end, clock, offset, findRunning) <==>
            !RejectedAfter(n, flags, LocalTime(first, offset), LocalTime(begin, offset), LocalTime(end, offset),
                           LocalTime(clock, offset), findRunning)
  {
    var l, t := Later(LocalTime(begin, offset), n), begin + n * 86400 + offset;
    StopsExactly(n, flags, LocalTime(first, offset), LocalTime(begin, offset), LocalTime(end, offset), clock, offset,
                 findRunning);
    WeekDayAfter(LocalTime(begin, offset), n);
    var week := WeekDayOf(l);
    assert OnDay(t, week, WeekDay(l));
    forall w: int, x: nat | x < 7 && OnDay(t, w, x)
      ensures x == WeekDay(l)
    {
      WeekDayIs(l, w, x);
    }
    assert OnSelectedDay(flags, t) <==> Selected(flags, WeekDay(l));
  }

  /** The search for a day ends exactly when one of the seven weekday bits is set. */
  lemma SearchEnds(flags: nat, first: Local, begin: Local, end: Local, now: Local, findRunning: bool)
    ensures (exists n: nat :: !RejectedAfter(n, flags, first, begin, end, now, findRunning)) <==> flags % 128 != 0
  {
    if flags % 128 != 0 {
      var n := AcceptedWithin(flags, first, begin, end, now, findRunning);
    } else {
      NoDaySelected(flags);
      forall n: nat
        ensures RejectedAfter(n, flags, first, begin, end, now, findRunning)
      {
        assert WeekDay(Later(begin, n)) < 7;
      }
    }
  }
}
