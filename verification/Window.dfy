/** The window test of a schedule, in the schedule's local day of the week and minute of the day. */
module Window {

  const DAY := 1440
  const WEEK := 7 * DAY

  /** `days` empty means every day. Minutes count from midnight; day 0 is Sunday. */
  datatype Schedule = Schedule(days: set<int>, start: int, end: int) {
    /** What draft validation lets through, plus `start == end`. */
    predicate Valid() {
      0 <= start < DAY && 0 <= end < DAY && forall d | d in days :: 0 <= d < 7
    }
  }

  /** Same-day windows look at today; overnight windows look at the day on which they started. */
  predicate IsActive(s: Schedule, day: int, minute: int)
    requires 0 <= day < 7
  {
    if s.start <= s.end then
      s.start <= minute < s.end && (s.days == {} || day in s.days)
    else if minute >= s.start then s.days == {} || day in s.days
    else if minute < s.end then s.days == {} || (day + 6) % 7 in s.days
    else false
  }

  // ---- the circular interval -------------------------------------------------------------------

  function Selected(s: Schedule): set<int> {
    if s.days == {} then {0, 1, 2, 3, 4, 5, 6} else s.days
  }

  function Length(s: Schedule): int {
    (s.end - s.start) % DAY
  }

  /** Minutes since the window of day `d` opened, around the week. */
  function Since(s: Schedule, d: int, week: int): int {
    (week - (d * DAY + s.start)) % WEEK
  }

  ghost predicate InInterval(s: Schedule, week: int) {
    exists d :: d in Selected(s) && Since(s, d, week) < Length(s)
  }

  lemma SinceCases(s: Schedule, d: int, day: int, minute: int)
    requires s.Valid() && 0 <= d < 7 && 0 <= day < 7 && 0 <= minute < DAY
    ensures var x := (day - d) * DAY + minute - s.start;
            Since(s, d, day * DAY + minute) == if x >= 0 then x else x + WEEK
  {
    var x := (day - d) * DAY + minute - s.start;
    assert -WEEK < x < WEEK;
    if x < 0 {
      assert (x + WEEK) % WEEK == x % WEEK;
    }
  }

  lemma SinceToday(s: Schedule, day: int, minute: int)
    requires s.Valid() && 0 <= day < 7 && 0 <= minute < DAY
    ensures Since(s, day, day * DAY + minute) < Length(s) <==>
            minute >= s.start && (s.start <= s.end ==> minute < s.end) && (s.start != s.end)
  {
    SinceCases(s, day, day, minute);
    LengthCases(s);
  }

  lemma LengthCases(s: Schedule)
    requires s.Valid()
    ensures Length(s) == if s.start <= s.end then s.end - s.start else s.end - s.start + DAY
  {
    if s.start > s.end {
      assert (s.end - s.start + DAY) % DAY == (s.end - s.start) % DAY;
    }
  }

  lemma SinceYesterday(s: Schedule, day: int, minute: int)
    requires s.Valid() && 0 <= day < 7 && 0 <= minute < DAY
    ensures Since(s, (day + 6) % 7, day * DAY + minute) < Length(s) <==> s.start > s.end && minute < s.end
  {
    SinceCases(s, (day + 6) % 7, day, minute);
    LengthCases(s);
  }

  lemma SinceOther(s: Schedule, d: int, day: int, minute: int)
    requires s.Valid() && 0 <= d < 7 && 0 <= day < 7 && 0 <= minute < DAY
    requires d != day && d != (day + 6) % 7
    ensures Since(s, d, day * DAY + minute) >= Length(s)
  {
    SinceCases(s, d, day, minute);
    LengthCases(s);
  }

  /** The test accepts a local time exactly when it lies inside a selected day's window on the circular week. */
  lemma ActiveIffInInterval(s: Schedule, day: int, minute: int)
    requires s.Valid() && 0 <= day < 7 && 0 <= minute < DAY
    ensures IsActive(s, day, minute) <==> InInterval(s, day * DAY + minute)
  {
    SinceToday(s, day, minute);
    SinceYesterday(s, day, minute);
    var week, yesterday := day * DAY + minute, (day + 6) % 7;
    assert yesterday in {0, 1, 2, 3, 4, 5, 6} && day in {0, 1, 2, 3, 4, 5, 6};
    if IsActive(s, day, minute) {
      if s.start <= s.end || minute >= s.start {
        assert day in Selected(s) && Since(s, day, week) < Length(s);
      } else {
        assert yesterday in Selected(s) && Since(s, yesterday, week) < Length(s);
      }
    }
    if d :| d in Selected(s) && Since(s, d, week) < Length(s) {
      assert 0 <= d < 7;
      if d != day && d != yesterday {
        SinceOther(s, d, day, minute);
      }
    }
  }

  // ---- how long the windows are open -----------------------------------------------------------

  /** The minutes of the week at which the window of some day in `days` is open. */
  ghost function OpenMinutes(s: Schedule, days: set<int>): set<int> {
    set w, d | d in days && 0 <= w < WEEK && Since(s, d, w) < Length(s) :: w
  }

  ghost function DayMinutes(s: Schedule, d: int, n: int): set<int> {
    set w | 0 <= w < WEEK && Since(s, d, w) < n
  }

  /** The minute of the week that lies `k` minutes after the opening of day `d`'s window is unique. */
  lemma SinceInverse(s: Schedule, d: int, k: int, w: int)
    requires 0 <= k < WEEK && 0 <= w < WEEK
    ensures Since(s, d, w) == k <==> w == (d * DAY + s.start + k) % WEEK
  {
    var a := d * DAY + s.start;
    var v := (a + k) % WEEK;
    assert (v - a) % WEEK == k by {
      assert (v - a - k) % WEEK == 0;
      assert v - a == WEEK * ((v - a - k) / WEEK) + k;
    }
    if Since(s, d, w) == k {
      assert (w - v) % WEEK == 0 by {
        var q, r := (w - a) / WEEK, (v - a) / WEEK;
        assert w - a == WEEK * q + k && v - a == WEEK * r + k;
        assert w - v == WEEK * (q - r);
      }
    }
  }

  lemma {:induction false} DaySize(s: Schedule, d: int, n: nat)
    requires n <= WEEK
    ensures |DayMinutes(s, d, n)| == n
  {
    if n == 0 {
      assert DayMinutes(s, d, n) == {};
    } else {
      DaySize(s, d, n - 1);
      var v := (d * DAY + s.start + n - 1) % WEEK;
      forall w | 0 <= w < WEEK ensures Since(s, d, w) == n - 1 <==> w == v {
        SinceInverse(s, d, n - 1, w);
      }
      assert DayMinutes(s, d, n) == DayMinutes(s, d, n - 1) + {v};
    }
  }

  lemma DaysDisjoint(s: Schedule, d: int, e: int, w: int)
    requires s.Valid() && 0 <= d < 7 && 0 <= e < 7 && d != e && 0 <= w < WEEK
    requires Since(s, d, w) < Length(s)
    ensures Since(s, e, w) >= Length(s)
  {
    LengthCases(s);
    var day, minute := w / DAY, w % DAY;
    assert w == day * DAY + minute && 0 <= day < 7;
    SinceCases(s, d, day, minute);
    SinceCases(s, e, day, minute);
  }

  lemma RestDisjoint(s: Schedule, rest: set<int>, d: int)
    requires s.Valid() && 0 <= d < 7 && d !in rest && forall e :: e in rest ==> 0 <= e < 7
    ensures OpenMinutes(s, rest) !! DayMinutes(s, d, Length(s))
  {
    forall w | w in OpenMinutes(s, rest) ensures w !in DayMinutes(s, d, Length(s)) {
      var e :| e in rest && Since(s, e, w) < Length(s);
      DaysDisjoint(s, e, d, w);
    }
  }

  lemma DisjointSizes(a: set<int>, b: set<int>, n: nat, k: nat)
    requires a !! b && |a| == n * k && |b| == k
    ensures |a + b| == (n + 1) * k
  {
    assert |a + b| == |a| + |b|;
  }

  lemma SomeMember<T>(s: set<T>) returns (x: T)
    requires |s| > 0
    ensures x in s
  {
    x :| x in s;
  }

  lemma {:induction false} OpenSize(s: Schedule, days: set<int>, len: nat)
    requires s.Valid() && len == Length(s) && forall d :: d in days ==> 0 <= d < 7
    ensures |OpenMinutes(s, days)| == |days| * len
  {
    if |days| == 0 {
      assert OpenMinutes(s, days) == {};
    } else {
      var d := SomeMember(days);
      OpenSize(s, days - {d}, len);
      OneMoreDay(s, days, d, len, |days - {d}|);
    }
  }

  lemma OneMoreDay(s: Schedule, days: set<int>, d: int, len: nat, n: nat)
    requires s.Valid() && len == Length(s) && d in days && forall e :: e in days ==> 0 <= e < 7
    requires |OpenMinutes(s, days - {d})| == n * len
    ensures |OpenMinutes(s, days)| == (n + 1) * len
  {
    DaySize(s, d, len);
    OpenSplit(s, days, d);
    RestDisjoint(s, days - {d}, d);
    DisjointSizes(OpenMinutes(s, days - {d}), DayMinutes(s, d, len), n, len);
  }

  lemma OpenSplit(s: Schedule, days: set<int>, d: int)
    requires d in days
    ensures OpenMinutes(s, days) == OpenMinutes(s, days - {d}) + DayMinutes(s, d, Length(s))
  {
    assert days == (days - {d}) + {d};
  }

  /** A week has exactly (selected days) x (window length) active minutes. */
  lemma ActiveMinutesPerWeek(s: Schedule)
    requires s.Valid()
    ensures |set w | 0 <= w < WEEK && IsActive(s, w / DAY, w % DAY)| ==
            (if s.days == {} then 7 else |s.days|) * Length(s)
  {
    var active := set w | 0 <= w < WEEK && IsActive(s, w / DAY, w % DAY);
    forall w | 0 <= w < WEEK ensures w in active <==> w in OpenMinutes(s, Selected(s)) {
      ActiveIffInInterval(s, w / DAY, w % DAY);
    }
    assert active == OpenMinutes(s, Selected(s));
    OpenSize(s, Selected(s), Length(s));
  }
}
