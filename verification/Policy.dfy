/** The gate that decides what may happen to one candidate bet without a human
    (`betting/policy.py`), and the one-sided price gate before a placement
    (`betting/drift.py`). */
module Policy {
  import opened Wrappers
  import opened Reals
  import opened Scanner

  datatype Mode = PaperMode | AskMode | Auto | Never

  datatype Sizing = Flat | Kelly

  /** Instants are microseconds since midnight UTC of some day. */
  type Instant = int

  const DAY: int := 86_400_000_000

  function DayOf(at: Instant): int { at / DAY }

  function TimeOfDay(at: Instant): int { at % DAY }

  datatype BettingPolicy = BettingPolicy(
    mode: Mode, bookModes: map<string, Mode>, minEv: real, sizing: Sizing, baseStake: real,
    kellyFraction: real, bankroll: real, maxStake: real, dailyCap: real, maxOpenExposure: real,
    maxBetsPerDay: int, books: set<string>, quietHours: Option<(int, int)>, maxPriceDrift: real,
    basis: EdgeBasis, assumedOverround: real, allowUnverifiedAuto: bool)

  const VERIFIED_BOOKS := {"sportsbet", "tab"}
  const KNOWN_BOOKS := {"sportsbet", "tab", "entain", "unibet"}

  /** What the policy's own validation insists on. */
  predicate ValidPolicy(p: BettingPolicy) {
    && p.maxStake >= 0.0 && p.dailyCap >= 0.0 && p.baseStake >= 0.0 && p.maxOpenExposure >= 0.0
    && 0.0 < p.kellyFraction <= 1.0
    && p.books <= KNOWN_BOOKS
    && p.bookModes.Keys <= KNOWN_BOOKS
  }

  datatype Verdict = PLACE | ASK | PAPER | SKIP

  datatype Reason =
    | UnknownBook | NotEligible | Off | BelowFloor | NotAPrice | NoStake | BetsCap | DailyCap | ExposureCap
    | PaperOnly | SetToAsk | Unverified | QuietHours | Inside

  datatype Decision = Decision(verdict: Verdict, reason: Reason, deferred: bool, stake: real)

  function Skip(reason: Reason): Decision { Decision(SKIP, reason, false, 0.0) }

  function ModeFor(p: BettingPolicy, book: string): Mode {
    if book in p.bookModes then p.bookModes[book] else p.mode
  }

  predicate Eligible(p: BettingPolicy, book: string) {
    book in KNOWN_BOOKS && (p.books == {} || book in p.books)
  }

  function Min(a: real, b: real): real { if b < a then b else a }

  /** The stake before budget trimming. */
  function Size(p: BettingPolicy, edge: real, odds: real): (stake: real)
    ensures 0.0 <= stake
    ensures p.maxStake >= 0.0 ==> stake <= p.maxStake
  {
    if p.sizing == Flat then Clamped(p.baseStake, p.maxStake)
    else
      var b := odds - 1.0;
      if b <= 0.0 || p.bankroll <= 0.0 then 0.0
      else Clamped(KellyStake(p.bankroll, p.kellyFraction, edge, b), p.maxStake)
  }

  /** A fraction of the bankroll proportional to the edge over the net odds. */
  function KellyStake(bankroll: real, fraction: real, edge: real, b: real): real
    requires b > 0.0
  {
    bankroll * (edge / b) * fraction
  }

  function Clamped(raw: real, most: real): real {
    var x := Min(raw, most);
    if x > 0.0 then x else 0.0
  }

  /** Inside the window, which may cross midnight. */
  predicate InQuietHours(p: BettingPolicy, now: Instant) {
    p.quietHours.Some? &&
      var (start, end) := p.quietHours.value;
      var current := TimeOfDay(now);
      if start <= end then start <= current < end else current >= start || current < end
  }

  /** A window on the clock face, crossing midnight or not: the time since its start is less
      than its length, both taken around the clock. */
  lemma QuietAroundTheClock(p: BettingPolicy, now: Instant)
    requires p.quietHours.Some? ==> 0 <= p.quietHours.value.0 < DAY && 0 <= p.quietHours.value.1 < DAY
    ensures p.quietHours.None? ==> !InQuietHours(p, now)
    ensures p.quietHours.Some? ==>
              var (start, end) := p.quietHours.value;
              InQuietHours(p, now) <==>
                (now % 86_400_000_000 - start) % 86_400_000_000 < (end - start) % 86_400_000_000
  {
    if p.quietHours.Some? {
      var (start, end) := p.quietHours.value;
      var c := TimeOfDay(now);
      assert (c - start) % DAY == if c >= start then c - start else c - start + DAY;
      assert (end - start) % DAY == if end >= start then end - start else end - start + DAY;
    }
  }

  /** The single gate: every test in the order in which it is made. */
  function Decide(p: BettingPolicy, book: string, edge: real, odds: real, now: Instant,
                  stakedToday: real, betsToday: int, openExposure: real): Decision
  {
    if book !in KNOWN_BOOKS then Skip(UnknownBook)
    else if p.books != {} && book !in p.books then Skip(NotEligible)
    else if ModeFor(p, book) == Never then Skip(Off)
    else if edge < p.minEv then Skip(BelowFloor)
    else if odds <= 1.0 then Skip(NotAPrice)
    else
      var size := Size(p, edge, odds);
      if size <= 0.0 then Skip(NoStake)
      else if betsToday >= p.maxBetsPerDay then Skip(BetsCap)
      else if p.dailyCap - stakedToday <= 0.0 then Skip(DailyCap)
      else if p.maxOpenExposure - openExposure <= 0.0 then Skip(ExposureCap)
      else
        var stake := Min(Min(size, p.dailyCap - stakedToday), p.maxOpenExposure - openExposure);
        if ModeFor(p, book) == PaperMode then Decision(PAPER, PaperOnly, false, stake)
        else if ModeFor(p, book) == AskMode then Decision(ASK, SetToAsk, false, stake)
        else if book !in VERIFIED_BOOKS && !p.allowUnverifiedAuto then Decision(ASK, Unverified, false, stake)
        else if InQuietHours(p, now) then Decision(ASK, QuietHours, true, stake)
        else Decision(PLACE, Inside, false, stake)
  }

  /** Money moves unattended exactly when the bet clears every test, there is room under
      every budget, the book is on auto with a proven or admitted path, and nobody is asleep;
      and paper mode refuses exactly what a live run would refuse. A book's own mode, `Never`
      included, stands before the default. */
  lemma PlacesExactly(p: BettingPolicy, book: string, edge: real, odds: real, now: Instant,
                      stakedToday: real, betsToday: int, openExposure: real)
    ensures var d := Decide(p, book, edge, odds, now, stakedToday, betsToday, openExposure);
            var mode := if book in p.bookModes then p.bookModes[book] else p.mode;
            var clears :=
              && book in {"sportsbet", "tab", "entain", "unibet"} && (p.books == {} || book in p.books) && mode != Never
              && edge >= p.minEv && odds > 1.0 && Size(p, edge, odds) > 0.0;
            var room := betsToday < p.maxBetsPerDay && stakedToday < p.dailyCap && openExposure < p.maxOpenExposure;
            var proven := book in {"sportsbet", "tab"} || p.allowUnverifiedAuto;
            && (d.verdict == PLACE <==> clears && room && mode == Auto && proven && !InQuietHours(p, now))
            && (d.verdict == SKIP <==> !(clears && room))
            && (d.verdict == PAPER <==> clears && room && mode == PaperMode)
            && (d.deferred <==> clears && room && mode == Auto && proven && InQuietHours(p, now))
  {
  }

  /** The sized stake: the flat stake or the Kelly stake, at most the maximum and not below
      zero. The Kelly stake is to the bankroll, scaled by the fraction, as the edge is to the
      net odds; without net odds or bankroll there is none. */
  lemma SizeExactly(p: BettingPolicy, edge: real, odds: real, raw: real)
    requires p.sizing == Flat ==> raw == p.baseStake
    requires p.sizing == Kelly ==> raw * (odds - 1.0) == p.bankroll * p.kellyFraction * edge
    ensures p.sizing == Kelly && (odds <= 1.0 || p.bankroll <= 0.0) ==> Size(p, edge, odds) == 0.0
    ensures p.sizing == Flat || (odds > 1.0 && p.bankroll > 0.0) ==>
              && (raw <= 0.0 || p.maxStake <= 0.0 ==> Size(p, edge, odds) == 0.0)
              && (0.0 < raw <= p.maxStake ==> Size(p, edge, odds) == raw)
              && (0.0 < p.maxStake < raw ==> Size(p, edge, odds) == p.maxStake)
  {
    if p.sizing == Kelly && odds > 1.0 {
      KellyIs(p.bankroll, p.kellyFraction, edge, odds - 1.0, raw);
    }
  }

  lemma KellyIs(bankroll: real, fraction: real, edge: real, b: real, raw: real)
    requires b > 0.0 && raw * b == bankroll * fraction * edge
    ensures KellyStake(bankroll, fraction, edge, b) == raw
  {
    var k := KellyStake(bankroll, fraction, edge, b);
    QuotientTimes(edge, b);
    calc {
      Times(b, k);
      b * (bankroll * (edge / b) * fraction);
      bankroll * fraction * Times(b, edge / b);
      bankroll * fraction * edge;
      Times(b, raw);
    }
    TimesOrder(b, k, raw);
  }

  /** What is staked is positive, at most the sized stake, and fits every budget; it is
      trimmed only to what is left of one of them. */
  lemma StakeFits(p: BettingPolicy, book: string, edge: real, odds: real, now: Instant,
                  stakedToday: real, betsToday: int, openExposure: real)
    ensures var d := Decide(p, book, edge, odds, now, stakedToday, betsToday, openExposure);
            d.verdict != SKIP ==>
              && 0.0 < d.stake <= Size(p, edge, odds)
              && stakedToday + d.stake <= p.dailyCap
              && openExposure + d.stake <= p.maxOpenExposure
              && (d.stake < Size(p, edge, odds) ==>
                    stakedToday + d.stake == p.dailyCap || openExposure + d.stake == p.maxOpenExposure)
  {
  }

  // ----- the copy of the policy that places one approved bet -----

  function AsPlacingPolicy(p: BettingPolicy, book: string): BettingPolicy {
    p.(bookModes := p.bookModes[book := Auto],
       books := if p.books == {} then {} else p.books + {book},
       allowUnverifiedAuto := true,
       quietHours := None)
  }

  /** The approval answers who may place the bet and when, and nothing else: it turns an ask
      into a placement and changes no stake, no floor, no cap and no refusal that those make. */
  lemma ApprovalIsNoBypass(p: BettingPolicy, book: string, edge: real, odds: real, now: Instant,
                           stakedToday: real, betsToday: int, openExposure: real)
    ensures var q := AsPlacingPolicy(p, book);
            var d := Decide(q, book, edge, odds, now, stakedToday, betsToday, openExposure);
            && Size(q, edge, odds) == Size(p, edge, odds)
            && q.maxStake == p.maxStake && q.dailyCap == p.dailyCap && q.maxOpenExposure == p.maxOpenExposure
            && q.maxBetsPerDay == p.maxBetsPerDay && q.minEv == p.minEv && q.maxPriceDrift == p.maxPriceDrift
            && (d.verdict == PLACE <==>
                  && book in KNOWN_BOOKS && edge >= p.minEv && odds > 1.0 && Size(p, edge, odds) > 0.0
                  && betsToday < p.maxBetsPerDay && stakedToday < p.dailyCap && openExposure < p.maxOpenExposure)
            && (d.verdict == PLACE || d.verdict == SKIP)
            && (Decide(p, book, edge, odds, now, stakedToday, betsToday, openExposure).verdict == ASK ==>
                  d == Decide(p, book, edge, odds, now, stakedToday, betsToday, openExposure)
                         .(verdict := PLACE, reason := Inside, deferred := false))
  {
  }

  // ----- drift -----

  datatype DriftResult = DriftResult(ok: bool, price: real, moved: real)

  /** `drift.check`: only a move against the bettor, beyond the tolerance, abandons the bet. */
  function Drift(quoted: real, current: real, tolerance: real): (r: DriftResult)
    ensures r.price == current
  {
    if quoted <= 1.0 || current <= 1.0 then DriftResult(false, current, 0.0)
    else
      var moved := (current - quoted) / quoted;
      if moved >= 0.0 then DriftResult(true, current, moved)
      else if -moved > tolerance then DriftResult(false, current, moved)
      else DriftResult(true, current, moved)
  }

  /** The least part of the quoted price that the gate lets through. */
  function Worst(tolerance: real): (w: real)
    ensures w <= 1.0 && (tolerance >= 0.0 ==> w == 1.0 - tolerance) && (tolerance <= 0.0 ==> w == 1.0)
  {
    if tolerance > 0.0 then 1.0 - tolerance else 1.0
  }

  /** The gate lets through exactly the usable prices that are no worse than the quoted one,
      or worse by no more than the tolerance. */
  lemma DriftExactly(quoted: real, current: real, tolerance: real)
    ensures Drift(quoted, current, tolerance).ok <==>
              && quoted > 1.0 && current > 1.0
              && (current >= quoted || quoted - current <= tolerance * quoted)
    ensures Drift(quoted, current, tolerance).ok <==>
              quoted > 1.0 && current > 1.0 && current >= Worst(tolerance) * quoted
  {
    if quoted > 1.0 && current > 1.0 {
      var moved := (current - quoted) / quoted;
      QuotientTimes(current - quoted, quoted);
      TimesSign(quoted, moved);
      TimesOrder(quoted, moved, -tolerance);
      assert Times(quoted, -tolerance) == -(tolerance * quoted);
      if tolerance > 0.0 {
        assert Worst(tolerance) * quoted == quoted - tolerance * quoted;
      } else {
        TimesOrder(quoted, tolerance, 0.0);
        assert Times(quoted, tolerance) == tolerance * quoted;
      }
    }
  }

  /** A bet whose edge cleared the floor and whose re-price passed the gate still has, at the
      new price and against the same field, an edge of (1 + floor)(1 - tolerance) - 1, in
      both bases. */
  lemma EdgeAfterDrift(odds: real, price: real, consensus: real, basis: EdgeBasis, overround: real,
                       minEv: real, tolerance: real)
    requires EdgeOf(odds, consensus, basis, overround).Some?
    requires EdgeOf(odds, consensus, basis, overround).value >= minEv
    requires Drift(odds, price, tolerance).ok
    requires tolerance <= 1.0 || minEv >= -1.0
    ensures EdgeOf(price, consensus, basis, overround).Some?
    ensures EdgeOf(price, consensus, basis, overround).value >= (1.0 + minEv) * Worst(tolerance) - 1.0
  {
    DriftExactly(odds, price, tolerance);
    var p := Inverse(consensus);
    InverseTwice(consensus);
    EdgeIsProduct(odds, p, consensus, basis, overround);
    EdgeIsProduct(price, p, consensus, basis, overround);
    WeightPositive(basis, overround);
    KeepsShare(odds, price, p, Weight(basis, overround), 1.0 + minEv, Worst(tolerance));
  }

  lemma KeepsShare(odds: real, price: real, p: real, w: real, floor: real, share: real)
    requires odds > 0.0 && price > 0.0 && p > 0.0 && w > 0.0 && price >= share * odds
    requires Product(odds, p, w) >= floor
    requires share >= 0.0 || floor >= 0.0
    ensures Product(price, p, w) >= floor * share
  {
    var k := p * w;
    assert k > 0.0;
    assert Product(price, p, w) == price * k && Product(odds, p, w) == odds * k;
    assert price * k >= share * odds * k by { TimesOrder(k, price, share * odds); }
    assert share * odds * k == share * (odds * k);
    if share >= 0.0 {
      assert share * (odds * k) >= share * floor;
    } else {
      assert floor * share <= 0.0;
      assert price * k > 0.0;
    }
  }
}
