/** The stateless scheduler (`operations/scheduler.py`): which jobs are due at a tick, and
    why, without any memory, each slot fires exactly once. */
module Schedule {
  import opened Wrappers

  /** Microseconds since 1970 began, a Thursday. */
  type Instant = int

  const MINUTE := 60000000
  const DAY := 1440 * MINUTE
  const WEEK := 7 * DAY

  /** A job with an interval runs at its multiples; otherwise, with a time of day, on that
      time, every day or on one weekday. */
  datatype Job = Job(name: string, interval: Option<int>, at: Option<Clock>, weekday: Option<int>, operatorOnly: bool)

  datatype Clock = Clock(hour: nat, minute: nat)

  ghost predicate WellFormed(job: Job) {
    && (job.interval.Some? ==> job.interval.value > 0)
    && (job.at.Some? ==> job.at.value.hour < 24 && job.at.value.minute < 60)
    && (job.weekday.Some? ==> 0 <= job.weekday.value < 7)
  }

  /** `interval_due` */
  predicate IntervalDue(interval: int, now: Instant, period: int)
    requires interval > 0
  {
    now / interval != (now - period) / interval
  }

  function OfDay(at: Clock): int {
    at.hour * 60 * MINUTE + at.minute * MINUTE
  }

  /** The time of day on the day of `now`. */
  function Today(at: Clock, now: Instant): Instant {
    now - now % DAY + OfDay(at)
  }

  /** Monday is 0. */
  function Weekday(t: Instant): int {
    (t / DAY + 3) % 7
  }

  /** The slot that `calendar_due` compares with the clock. */
  function Slot(at: Clock, weekday: Option<int>, now: Instant): Instant {
    var today := Today(at, now);
    var slot := if weekday.Some? then today - (Weekday(today) - weekday.value) % 7 * DAY else today;
    if slot > now then slot - (if weekday.Some? then WEEK else DAY) else slot
  }

  predicate CalendarDue(at: Clock, weekday: Option<int>, now: Instant, period: int) {
    now - Slot(at, weekday, now) < period
  }

  predicate Due(job: Job, now: Instant, period: int)
    requires WellFormed(job)
  {
    if job.interval.Some? then IntervalDue(job.interval.value, now, period)
    else job.at.Some? && CalendarDue(job.at.value, job.weekday, now, period)
  }

  /** `due_jobs`: the jobs to run at a tick, in order; operator jobs only for an operator. */
  method DueJobs(now: Instant, period: int, jobs: seq<Job>, operator: bool) returns (out: seq<Job>, ghost at: seq<nat>)
    requires forall i :: 0 <= i < |jobs| ==> WellFormed(jobs[i])
    ensures forall i :: 0 <= i < |jobs| ==>
              (jobs[i] in out <==> Due(jobs[i], now, period) && (jobs[i].operatorOnly ==> operator))
    ensures |at| == |out| && forall k :: 0 <= k < |at| ==> at[k] < |jobs| && out[k] == jobs[at[k]]
    ensures forall k, l :: 0 <= k < l < |at| ==> at[k] < at[l]
    ensures forall i :: 0 <= i < |jobs| ==>
              (i in at <==> Due(jobs[i], now, period) && (jobs[i].operatorOnly ==> operator))
  {
    out, at := [], [];
    for n := 0 to |jobs|
      invariant |at| == |out| && forall k :: 0 <= k < |at| ==> at[k] < n && out[k] == jobs[at[k]]
      invariant forall k, l :: 0 <= k < l < |at| ==> at[k] < at[l]
      invariant forall i :: 0 <= i < n ==>
                  (i in at <==> Due(jobs[i], now, period) && (jobs[i].operatorOnly ==> operator))
    {
      var job := jobs[n];
      if job.operatorOnly && !operator {
        continue;
      }
      if job.interval.Some? {
        if IntervalDue(job.interval.value, now, period) {
          out, at := out + [job], at + [n];
        }
      } else if job.at.Some? && CalendarDue(job.at.value, job.weekday, now, period) {
        out, at := out + [job], at + [n];
      }
    }
  }

  // ----- every schedule is a lattice of instants -----

  /** The instants at which a job is to run. */
  ghost predicate Matches(job: Job, s: Instant)
    requires WellFormed(job)
  {
    if job.interval.Some? then s % job.interval.value == 0
    else
      && job.at.Some?
      && s % DAY == OfDay(job.at.value)
      && (job.weekday.Some? ==> Weekday(s) == job.weekday.value)
  }

  predicate Scheduled(job: Job) {
    job.interval.Some? || job.at.Some?
  }

  ghost function Step(job: Job): (step: int)
    requires WellFormed(job)
    ensures step > 0
  {
    if job.interval.Some? then job.interval.value else if job.weekday.Some? then WEEK else DAY
  }

  ghost function Phase(job: Job): int
    requires WellFormed(job) && Scheduled(job)
  {
    if job.interval.Some? then 0
    else OfDay(job.at.value) + if job.weekday.Some? then (job.weekday.value - 3) * DAY else 0
  }

  /** The number of the last lattice point at or before `t`. */
  ghost function Index(job: Job, t: Instant): int
    requires WellFormed(job) && Scheduled(job)
  {
    (t - Phase(job)) / Step(job)
  }

  lemma Multiple(e: int, d: int)
    requires d > 0
    ensures e >= 1 ==> e * d >= d
    ensures e <= -1 ==> e * d <= -d
  {
    if e >= 1 {
      assert (e - 1) * d >= 0;
    } else if e <= -1 {
      assert (-1 - e) * d >= 0;
    }
  }

  lemma DivisionIs(x: int, d: int, q: int)
    requires d > 0 && q * d <= x < q * d + d
    ensures x / d == q && x % d == x - q * d
  {
    assert (x / d) * d - q * d == (x / d - q) * d;
    Multiple(x / d - q, d);
  }

  lemma DivisionGrows(a: int, b: int, d: int)
    requires d > 0 && a <= b
    ensures a / d <= b / d
    ensures b - a <= d ==> b / d <= a / d + 1
  {
    QuotientGap(a / d, a % d, b / d, b % d, d);
  }

  lemma QuotientGap(m: int, r: int, n: int, s: int, d: int)
    requires 0 <= r < d && 0 <= s < d && m * d + r <= n * d + s
    ensures m <= n
    ensures (n * d + s) - (m * d + r) <= d ==> n <= m + 1
  {
    assert (n - m) * d == n * d - m * d;
    assert (n - m - 1) * d == n * d - m * d - d;
    Multiple(n - m, d);
    Multiple(n - m - 1, d);
  }

  /** Weeks of days: `n` days and a bit are `n / 7` weeks and the days left. */
  lemma Weeks(n: int, bit: int)
    requires 0 <= bit < DAY
    ensures (n * DAY + bit) / WEEK == n / 7 && (n * DAY + bit) % WEEK == (n % 7) * DAY + bit
  {
    DivisionIs(n * DAY + bit, WEEK, n / 7);
  }

  lemma Days(n: int, bit: int)
    requires 0 <= bit < DAY
    ensures (n * DAY + bit) / DAY == n && (n * DAY + bit) % DAY == bit
  {
    DivisionIs(n * DAY + bit, DAY, n);
  }

  lemma ClockFits(at: Clock)
    requires at.hour < 24 && at.minute < 60
    ensures 0 <= OfDay(at) < DAY
  {
  }

  /** The days and the bit since the phase: borrowed from the day when the time of day is
      still to come. */
  lemma SincePhase(now: Instant, off: int) returns (n: int, bit: int)
    requires 0 <= off < DAY
    ensures now - off == n * DAY + bit && 0 <= bit < DAY
    ensures n == now / DAY - if now % DAY < off then 1 else 0
    ensures bit == 0 <==> now % DAY == off
  {
    n := now / DAY - if now % DAY < off then 1 else 0;
    bit := now - off - n * DAY;
  }

  lemma DailyIndex(job: Job, now: Instant)
    requires WellFormed(job) && job.interval.None? && job.at.Some? && job.weekday.None?
    ensures Matches(job, now) <==> (now - Phase(job)) % Step(job) == 0
    ensures Slot(job.at.value, job.weekday, now) == Phase(job) + Index(job, now) * Step(job)
  {
    ClockFits(job.at.value);
    var n, bit := SincePhase(now, OfDay(job.at.value));
    Days(n, bit);
  }

  lemma WeeklyMatch(job: Job, now: Instant)
    requires WellFormed(job) && job.interval.None? && job.at.Some? && job.weekday.Some?
    ensures Matches(job, now) <==> (now - Phase(job)) % Step(job) == 0
  {
    var off, w := OfDay(job.at.value), job.weekday.value;
    ClockFits(job.at.value);
    var n, bit := SincePhase(now, off);
    Weeks(n + 3 - w, bit);
    assert now - Phase(job) == (n + 3 - w) * DAY + bit;
    SameWeekday(now / DAY + 3, n + 3, w);
  }

  lemma WeeklySlot(job: Job, now: Instant)
    requires WellFormed(job) && job.interval.None? && job.at.Some? && job.weekday.Some?
    ensures Slot(job.at.value, job.weekday, now) == Phase(job) + Index(job, now) * Step(job)
  {
    var off, w := OfDay(job.at.value), job.weekday.value;
    ClockFits(job.at.value);
    var n, bit := SincePhase(now, off);
    SlotInDays(job.at.value, w, now, n, bit);
    hide Slot, OfDay;
    Weeks(n + 3 - w, bit);
    assert now - Phase(job) == (n + 3 - w) * DAY + bit;
    assert n + 3 - w == 7 * Index(job, now) + (n + 3 - w) % 7;
  }

  /** The slot of a weekday: as many days back from the last time of day as the weekday is. */
  lemma SlotInDays(at: Clock, w: int, now: Instant, n: int, bit: int)
    requires 0 <= OfDay(at) < DAY && 0 <= w < 7
    requires now - OfDay(at) == n * DAY + bit && 0 <= bit < DAY
    requires n == now / DAY - if now % DAY < OfDay(at) then 1 else 0
    ensures Slot(at, Some(w), now) == OfDay(at) + (n - (n + 3 - w) % 7) * DAY
  {
    hide OfDay;
    Days(now / DAY, OfDay(at));
    assert Today(at, now) == (now / DAY) * DAY + OfDay(at);
    assert Weekday(Today(at, now)) == Weekday(now);
    DaysBack(now / DAY + 3, n + 3, w);
  }

  lemma DaysBack(today: int, n: int, w: int)
    requires 0 <= w < 7 && n <= today <= n + 1
    ensures var back := (today % 7 - w) % 7;
            && (today == n ==> back == (n - w) % 7)
            && (today == n + 1 ==> if back == 0 then (n - w) % 7 == 6 else (n - w) % 7 == back - 1)
  {
  }

  lemma SameWeekday(today: int, n: int, w: int)
    requires 0 <= w < 7 && n <= today <= n + 1
    ensures today % 7 == w <==> (today - w) % 7 == 0
    ensures (today % 7 - w) % 7 == (today - w) % 7
    ensures today == n + 1 ==> (n - w) / 7 == (today - w) / 7 - if (today - w) % 7 == 0 then 1 else 0
  {
  }

  /** The instants that match are the phase and its translates by the step, and the slot
      computed for a clock is the last of them that is not after it. */
  lemma SlotIsLatest(job: Job, now: Instant, s: Instant)
    requires WellFormed(job) && job.interval.None? && job.at.Some?
    ensures var slot := Slot(job.at.value, job.weekday, now);
            && Matches(job, slot) && slot <= now
            && (Matches(job, s) && s <= now ==> s <= slot)
  {
    SlotByIndex(job, now);
    SlotByIndex(job, s);
    var slot := Slot(job.at.value, job.weekday, now);
    SlotByIndex(job, slot);
    hide Slot, Matches, Phase, Step;
    OnLattice(slot - Phase(job), Index(job, now), Step(job));
    if s <= now {
      DivisionGrows(s - Phase(job), now - Phase(job), Step(job));
      Scale(Index(job, s), Index(job, now), Step(job));
    }
  }

  lemma SlotByIndex(job: Job, now: Instant)
    requires WellFormed(job) && job.interval.None? && job.at.Some?
    ensures Matches(job, now) <==> (now - Phase(job)) % Step(job) == 0
    ensures Slot(job.at.value, job.weekday, now) == Phase(job) + Index(job, now) * Step(job)
  {
    if job.weekday.None? {
      DailyIndex(job, now);
    } else {
      WeeklyMatch(job, now);
      WeeklySlot(job, now);
    }
  }

  lemma OnLattice(x: int, k: int, d: int)
    requires d > 0 && x == k * d
    ensures x % d == 0 && x / d == k
  {
    DivisionIs(x, d, k);
  }

  lemma Scale(a: int, b: int, d: int)
    requires a <= b && d > 0
    ensures a * d <= b * d
  {
    assert (b - a) * d >= 0;
  }

  lemma MatchesIsLattice(job: Job, s: Instant)
    requires WellFormed(job) && Scheduled(job)
    ensures Matches(job, s) <==> (s - Phase(job)) % Step(job) == 0
  {
    if job.interval.None? {
      SlotByIndex(job, s);
    }
  }

  /** A job is due when the clock has passed a lattice point since the last tick. */
  lemma DueByIndex(job: Job, now: Instant, period: int)
    requires WellFormed(job) && Scheduled(job) && period >= 0
    ensures Due(job, now, period) <==> Index(job, now) != Index(job, now - period)
  {
    var a, b, d := now - period - Phase(job), now - Phase(job), Step(job);
    if job.interval.None? {
      SlotByIndex(job, now);
      PassedPoint(a, b, d);
    }
  }

  /** Between `a` and `b` lies a multiple of `d` exactly when their quotients differ, and
      then the last one before `b` is one. */
  lemma PassedPoint(a: int, b: int, d: int)
    requires d > 0 && a <= b
    ensures a / d != b / d <==> a < (b / d) * d
    ensures (b / d) * d <= b && ((b / d) * d) % d == 0
  {
    DivisionGrows(a, b, d);
    OnLattice((b / d) * d, b / d, d);
    Scale(a / d + 1, if a / d + 1 <= b / d then b / d else a / d + 1, d);
    assert (a / d + 1) * d == (a / d) * d + d;
  }

  /** A job is due at a tick exactly when one of its instants fell in the tick's window. */
  lemma DueExactly(job: Job, now: Instant, period: int)
    requires WellFormed(job) && period >= 0
    ensures Due(job, now, period) <==> exists s :: now - period < s <= now && Matches(job, s)
  {
    if Scheduled(job) {
      DueByIndex(job, now, period);
      hide Due, Matches, Phase, Step;
      var a, b, d := now - period - Phase(job), now - Phase(job), Step(job);
      PassedPoint(a, b, d);
      MatchesIsLattice(job, Phase(job) + (b / d) * d);
      forall s | now - period < s <= now && Matches(job, s) ensures a / d != b / d {
        MatchesIsLattice(job, s);
        var x := s - Phase(job);
        DivisionGrows(x, b, d);
        Scale(x / d, b / d, d);
      }
      if Due(job, now, period) {
        assert Matches(job, Phase(job) + (b / d) * d);
      }
    }
  }

  // ----- contiguous ticks -----

  /** A tick looks back `period` from `now`. */
  datatype Tick = Tick(now: Instant, period: int)

  /** Each tick looks back exactly to the one before it. */
  ghost predicate Contiguous(ticks: seq<Tick>) {
    && (forall j :: 0 <= j < |ticks| ==> ticks[j].period >= 0)
    && forall j :: 0 < j < |ticks| ==> ticks[j].now - ticks[j].period == ticks[j - 1].now
  }

  ghost predicate Sees(t: Tick, s: Instant) {
    t.now - t.period < s <= t.now
  }

  lemma {:induction false} LaterTicks(ticks: seq<Tick>, i: nat, j: nat)
    requires Contiguous(ticks) && i < j < |ticks|
    ensures ticks[i].now <= ticks[j].now - ticks[j].period
    decreases j
  {
    if i < j - 1 {
      LaterTicks(ticks, i, j - 1);
    }
  }

  lemma {:induction false} SomeTickSees(ticks: seq<Tick>, s: Instant) returns (j: nat)
    requires Contiguous(ticks) && ticks != []
    requires ticks[0].now - ticks[0].period < s <= ticks[|ticks| - 1].now
    ensures j < |ticks| && Sees(ticks[j], s)
    decreases |ticks|
  {
    var n := |ticks| - 1;
    if ticks[n].now - ticks[n].period < s {
      j := n;
    } else {
      j := SomeTickSees(ticks[..n], s);
    }
  }

  /** Every instant of a job in the span of the ticks fires in exactly one of them. */
  lemma EverySlotFiresOnce(job: Job, ticks: seq<Tick>, s: Instant)
    requires WellFormed(job) && Contiguous(ticks) && ticks != [] && Matches(job, s)
    requires ticks[0].now - ticks[0].period < s <= ticks[|ticks| - 1].now
    ensures exists j :: 0 <= j < |ticks| && Sees(ticks[j], s) && Due(job, ticks[j].now, ticks[j].period)
    ensures forall i, j :: 0 <= i < |ticks| && 0 <= j < |ticks| && Sees(ticks[i], s) && Sees(ticks[j], s) ==> i == j
  {
    var j := SomeTickSees(ticks, s);
    DueExactly(job, ticks[j].now, ticks[j].period);
    forall i, k | 0 <= i < k < |ticks| ensures !(Sees(ticks[i], s) && Sees(ticks[k], s)) {
      LaterTicks(ticks, i, k);
    }
  }

  ghost function Firings(job: Job, ticks: seq<Tick>): nat
    requires WellFormed(job)
  {
    if ticks == [] then 0
    else
      var last := ticks[|ticks| - 1];
      Firings(job, ticks[..|ticks| - 1]) + if Due(job, last.now, last.period) then 1 else 0
  }

  /** The instants of a job after `low` and up to `high`. */
  ghost function Instants(job: Job, low: Instant, high: Instant): set<Instant>
    requires WellFormed(job)
  {
    set s | low < s <= high && Matches(job, s)
  }

  /** An instant is where the index moves on, by one. */
  lemma IndexCounts(job: Job, t: Instant)
    requires WellFormed(job) && Scheduled(job)
    ensures Index(job, t) == Index(job, t - 1) + if Matches(job, t) then 1 else 0
  {
    MatchesIsLattice(job, t);
    var x, d := t - Phase(job), Step(job);
    NextQuotient(x, d);
  }

  lemma NextQuotient(x: int, d: int)
    requires d > 0
    ensures x / d == (x - 1) / d + if x % d == 0 then 1 else 0
  {
    var q, r := x / d, x % d;
    assert x == q * d + r;
    if r == 0 {
      assert (q - 1) * d == q * d - d;
      DivisionIs(x - 1, d, q - 1);
    } else {
      DivisionIs(x - 1, d, q);
    }
  }

  lemma {:induction false} InstantsAreIndices(job: Job, low: Instant, high: Instant)
    requires WellFormed(job) && Scheduled(job) && low <= high
    ensures |Instants(job, low, high)| == Index(job, high) - Index(job, low)
    decreases high - low
  {
    hide Matches, Index;
    if low < high {
      InstantsAreIndices(job, low, high - 1);
      IndexCounts(job, high);
      var front := Instants(job, low, high - 1);
      assert Instants(job, low, high) == front + if Matches(job, high) then {high} else {};
      assert high !in front;
    } else {
      assert Instants(job, low, high) == {};
    }
  }

  /** A job never fires more often than it has instants in the span of the ticks, and fires
      once for each of them when no tick looks back further than the job's step (a day, for a
      daily slot). */
  lemma FiringsAreSlots(job: Job, ticks: seq<Tick>)
    requires WellFormed(job) && Scheduled(job) && Contiguous(ticks) && ticks != []
    ensures var slots := |Instants(job, ticks[0].now - ticks[0].period, ticks[|ticks| - 1].now)|;
            && Firings(job, ticks) <= slots
            && ((forall j :: 0 <= j < |ticks| ==> ticks[j].period <= Step(job)) ==> Firings(job, ticks) == slots)
  {
    hide Firings, Instants, Index, Step;
    FiringsByIndex(job, ticks);
    if |ticks| > 1 {
      LaterTicks(ticks, 0, |ticks| - 1);
    }
    InstantsAreIndices(job, ticks[0].now - ticks[0].period, ticks[|ticks| - 1].now);
  }

  lemma {:induction false} FiringsByIndex(job: Job, ticks: seq<Tick>)
    requires WellFormed(job) && Scheduled(job) && Contiguous(ticks) && ticks != []
    ensures var slots := Index(job, ticks[|ticks| - 1].now) - Index(job, ticks[0].now - ticks[0].period);
            && Firings(job, ticks) <= slots
            && ((forall j :: 0 <= j < |ticks| ==> ticks[j].period <= Step(job)) ==> Firings(job, ticks) == slots)
    decreases |ticks|
  {
    hide Due, Phase, Step;
    var n := |ticks| - 1;
    var last := ticks[n];
    DueByIndex(job, last.now, last.period);
    DivisionGrows(last.now - last.period - Phase(job), last.now - Phase(job), Step(job));
    if n > 0 {
      FiringsByIndex(job, ticks[..n]);
    } else {
      assert Firings(job, ticks[..n]) == 0;
    }
  }

  // ----- the clock face -----

  /** Days go Monday to Sunday, and 1970 began on a Thursday. */
  lemma WeekdayExactly(t: Instant)
    ensures 0 <= t < 86_400_000_000 ==> Weekday(t) == 3
    ensures 0 <= Weekday(t) < 7
    ensures Weekday(t + 86_400_000_000) == if Weekday(t) == 6 then 0 else Weekday(t) + 1
  {
    assert (t + DAY) / DAY == t / DAY + 1;
  }

  /** A job runs at the whole multiples of its interval; or at its hour and minute, on the
      minute, every day or on its weekday. */
  lemma MatchesExactly(job: Job, s: Instant)
    requires WellFormed(job)
    ensures job.interval.Some? ==> (Matches(job, s) <==> exists k :: s == k * job.interval.value)
    ensures job.interval.None? && job.at.None? ==> !Matches(job, s)
    ensures job.interval.None? && job.at.Some? ==>
              (Matches(job, s) <==>
                 && s / 3_600_000_000 % 24 == job.at.value.hour
                 && s / 60_000_000 % 60 == job.at.value.minute
                 && s % 60_000_000 == 0
                 && (job.weekday.Some? ==> Weekday(s) == job.weekday.value))
  {
    if job.interval.Some? {
      var d := job.interval.value;
      if Matches(job, s) {
        assert s == s / d * d;
      }
      if k :| s == k * d {
        OnLattice(s, k, d);
      }
    } else if job.at.Some? {
      ClockFace(s, job.at.value);
    }
  }

  lemma ClockFace(s: Instant, at: Clock)
    requires at.hour < 24 && at.minute < 60
    ensures s % DAY == OfDay(at) <==>
              s / 3_600_000_000 % 24 == at.hour && s / 60_000_000 % 60 == at.minute && s % 60_000_000 == 0
  {
    var days, bit := s / DAY, s % DAY;
    var hour, rest := bit / 3_600_000_000, bit % 3_600_000_000;
    var minute, low := rest / 60_000_000, rest % 60_000_000;
    assert s == days * DAY + hour * 3_600_000_000 + minute * 60_000_000 + low;
    assert s / 3_600_000_000 == days * 24 + hour;
    assert s / 60_000_000 == days * 1440 + hour * 60 + minute;
    assert s % 60_000_000 == low;
    assert 0 <= hour < 24 && 0 <= minute < 60;
    assert (days * 24 + hour) % 24 == hour;
    assert (days * 1440 + hour * 60 + minute) % 60 == minute;
  }
}
