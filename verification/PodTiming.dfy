/** How fast a run may dial, and how long an enrollment may last: the arithmetic side of the loop. */
module PodTiming {
  import opened Store
  import opened Pod
  import opened PodRuns

  // ---------------------------------------------------------------- backoff

  function Pow2(k: nat): nat {
    if k == 0 then 1 else 2 * Pow2(k - 1)
  }

  function Min(a: nat, b: nat): nat {
    if a <= b then a else b
  }

  /** The backoff after `k` waits: nothing clamps the configured minimum before the first of them. */
  function BackoffAfter(cfg: Config, k: nat): nat {
    if k == 0 then cfg.backoffMin else Min(cfg.backoffMin * Pow2(k), cfg.backoffMax)
  }

  ghost predicate StableDrop(cfg: Config, p: Pod, t: Turn) {
    p.pc.Serving? && t.answer.Says? && t.answer.reply.up >= cfg.stableAfter
  }

  /** Waits since the start, or since the last connection that dropped after being stable. */
  ghost function WaitsSinceStable(cfg: Config, src: Source, turns: seq<Turn>): nat {
    if turns == [] then 0
    else
      var before := turns[..|turns| - 1];
      var p := At(cfg, src, before, |before|);
      var t := turns[|turns| - 1];
      if StableDrop(cfg, p, t) then 0
      else WaitsSinceStable(cfg, src, before) + if Happens(cfg, src, Waits, p, t) then 1 else 0
  }

  lemma WidenIsTheNextBackoff(cfg: Config, k: nat)
    ensures Widen(cfg, BackoffAfter(cfg, k)) == BackoffAfter(cfg, k + 1)
  {
    var x := cfg.backoffMin * Pow2(k);
    assert cfg.backoffMin * Pow2(k + 1) == 2 * x;
    assert k == 0 ==> Pow2(k) == 1;
  }

  /** The backoff of any run in closed form. */
  lemma {:induction false} BackoffClosedForm(cfg: Config, src: Source, turns: seq<Turn>)
    ensures At(cfg, src, turns, |turns|).backoff == BackoffAfter(cfg, WaitsSinceStable(cfg, src, turns))
    decreases |turns|
  {
    if turns == [] {
      assert turns[..0] == [];
    } else {
      var n := |turns| - 1;
      var before := turns[..n];
      BackoffClosedForm(cfg, src, before);
      assert before[..n] == before;
      OneTurn(cfg, src, turns, n);
      WidenIsTheNextBackoff(cfg, WaitsSinceStable(cfg, src, before));
      BackoffStep(cfg, src, At(cfg, src, turns, n), turns[n]);
    }
  }

  lemma BackoffStep(cfg: Config, src: Source, p: Pod, t: Turn)
    ensures Step(cfg, src, p, t.disk, t.answer).pod.backoff ==
            if StableDrop(cfg, p, t) then cfg.backoffMin
            else if Happens(cfg, src, Waits, p, t) then Widen(cfg, p.backoff)
            else p.backoff
  {
  }

  // ---------------------------------------------------------------- dial rate

  /** Time slept, in thousandths of a millisecond: each wait is its backoff times its jitter. */
  ghost function Slept(cfg: Config, src: Source, turns: seq<Turn>): nat {
    if turns == [] then 0
    else
      var before := turns[..|turns| - 1];
      var p := At(cfg, src, before, |before|);
      var t := turns[|turns| - 1];
      Slept(cfg, src, before) +
      if Happens(cfg, src, Waits, p, t) then p.backoff * (t.answer.reply.factor as int) else 0
  }

  /** How many of the two dials allowed between waits are used up. */
  ghost function DialsUsed(p: Pod): int {
    if p.pc.Serving? || p.pc.Waiting? || Ended(p.pc) then 2 else if p.spent then 1 else 0
  }

  lemma DialPotentialStep(cfg: Config, src: Source, p: Pod, t: Turn)
    requires Coherent(src, p)
    ensures var q := Step(cfg, src, p, t.disk, t.answer).pod;
            One(Happens(cfg, src, Dials, p, t)) - 2 * One(Happens(cfg, src, Waits, p, t)) <=
            DialsUsed(q) - DialsUsed(p)
  {
  }

  lemma {:induction false} DialPotential(cfg: Config, src: Source, turns: seq<Turn>, i: nat, j: nat)
    requires i <= j <= |turns|
    ensures Between(cfg, src, Dials, turns, i, j) - 2 * Between(cfg, src, Waits, turns, i, j) <=
            DialsUsed(At(cfg, src, turns, j)) - DialsUsed(At(cfg, src, turns, i))
    decreases j - i
  {
    hide At, Tally, Step, Coherent, Happens, DialsUsed;
    if i < j {
      DialPotential(cfg, src, turns, i, j - 1);
      BetweenStep(cfg, src, Dials, turns, i, j - 1);
      BetweenStep(cfg, src, Waits, turns, i, j - 1);
      OneTurn(cfg, src, turns, j - 1);
      CoherentAt(cfg, src, turns, j - 1);
      DialPotentialStep(cfg, src, At(cfg, src, turns, j - 1), turns[j - 1]);
    }
  }

  /** The least backoff a run ever sleeps on. */
  function Floor(cfg: Config): nat {
    Min(cfg.backoffMin, cfg.backoffMax)
  }

  lemma BackoffAtLeastFloor(cfg: Config, k: nat)
    ensures BackoffAfter(cfg, k) >= Floor(cfg)
  {
    Pow2AtLeastOne(k);
    assert cfg.backoffMin * Pow2(k) >= cfg.backoffMin * 1;
  }

  lemma Pow2AtLeastOne(k: nat)
    ensures Pow2(k) >= 1
  {
  }

  lemma Widens(a: nat, b: nat, x: nat, y: nat)
    requires a <= b && x <= y
    ensures a * x <= b * y
  {
  }

  lemma OneMore(w: int, unit: int)
    ensures (w + 1) * unit == w * unit + unit
  {
  }

  /** The backoffs waited on, without their jitter. */
  ghost function Planned(cfg: Config, src: Source, turns: seq<Turn>): nat {
    if turns == [] then 0
    else
      var before := turns[..|turns| - 1];
      var p := At(cfg, src, before, |before|);
      Planned(cfg, src, before) + if Happens(cfg, src, Waits, p, turns[|turns| - 1]) then p.backoff else 0
  }

  lemma JitterStep(cfg: Config, src: Source, turns: seq<Turn>, n: nat)
    requires n < |turns|
    ensures var planned := Planned(cfg, src, turns[..n + 1]) - Planned(cfg, src, turns[..n]);
            var slept := Slept(cfg, src, turns[..n + 1]) - Slept(cfg, src, turns[..n]);
            && 800 * planned <= slept <= 1200 * planned && (planned > 0 ==> slept < 1200 * planned)
            && planned == if Happens(cfg, src, Waits, At(cfg, src, turns, n), turns[n]) then At(cfg, src, turns, n).backoff else 0
  {
    assert turns[..n + 1][..n] == turns[..n] && turns[..n][..n] == turns[..n];
    var p := At(cfg, src, turns, n);
    if Happens(cfg, src, Waits, p, turns[n]) {
      Widens(p.backoff, p.backoff, 800, turns[n].answer.reply.factor as int);
      Widens(p.backoff, p.backoff, turns[n].answer.reply.factor as int, 1199);
    }
  }

  /** The most a run ever waits on. */
  function Ceiling(cfg: Config): nat {
    if cfg.backoffMin <= cfg.backoffMax then cfg.backoffMax else cfg.backoffMin
  }

  lemma BackoffWithin(cfg: Config, src: Source, turns: seq<Turn>, n: nat)
    requires n <= |turns|
    ensures Floor(cfg) <= At(cfg, src, turns, n).backoff <= Ceiling(cfg)
  {
    assert turns[..n][..n] == turns[..n];
    BackoffClosedForm(cfg, src, turns[..n]);
    BackoffAtLeastFloor(cfg, WaitsSinceStable(cfg, src, turns[..n]));
  }

  /** At least 0.8 and less than 1.2 of the planned time (in thousandths) was slept, or none was planned
      and none slept; and each of the waits was planned between the floor and the ceiling. */
  ghost predicate WithinJitter(cfg: Config, waits: int, planned: int, slept: int) {
    && 800 * planned <= slept && (if planned == 0 then slept == 0 else slept < 1200 * planned)
    && 0 <= waits && waits * Floor(cfg) <= planned <= waits * Ceiling(cfg)
  }

  lemma NoWaits(cfg: Config)
    ensures WithinJitter(cfg, 0, 0, 0)
  {
  }

  lemma OneMoreWait(cfg: Config, waits: int, planned: int, slept: int, backoff: nat, more: int)
    requires WithinJitter(cfg, waits, planned, slept) && Floor(cfg) <= backoff <= Ceiling(cfg)
    requires 800 * backoff <= more <= 1200 * backoff && (backoff > 0 ==> more < 1200 * backoff)
    ensures WithinJitter(cfg, waits + 1, planned + backoff, slept + more)
  {
    hide Floor, Ceiling;
    OneMore(waits, Floor(cfg));
    OneMore(waits, Ceiling(cfg));
  }

  /** Over any stretch of any run, what is slept is at least 0.8 and less than 1.2 of the backoffs waited
      on (and nothing if they are all nothing), each of which lies between the floor and the ceiling. */
  lemma {:induction false} SleptWithinJitter(cfg: Config, src: Source, turns: seq<Turn>, i: nat, j: nat)
    requires i <= j <= |turns|
    ensures WithinJitter(cfg, Between(cfg, src, Waits, turns, i, j),
                         Planned(cfg, src, turns[..j]) - Planned(cfg, src, turns[..i]),
                         Slept(cfg, src, turns[..j]) - Slept(cfg, src, turns[..i]))
    decreases j - i
  {
    hide At, Slept, Planned, Tally, Happens, WithinJitter, Floor, Ceiling;
    if i < j {
      SleptWithinJitter(cfg, src, turns, i, j - 1);
      BetweenStep(cfg, src, Waits, turns, i, j - 1);
      JitterStep(cfg, src, turns, j - 1);
      BackoffWithin(cfg, src, turns, j - 1);
      if Happens(cfg, src, Waits, At(cfg, src, turns, j - 1), turns[j - 1]) {
        OneMoreWait(cfg, Between(cfg, src, Waits, turns, i, j - 1),
                    Planned(cfg, src, turns[..j - 1]) - Planned(cfg, src, turns[..i]),
                    Slept(cfg, src, turns[..j - 1]) - Slept(cfg, src, turns[..i]),
                    At(cfg, src, turns, j - 1).backoff,
                    Slept(cfg, src, turns[..j]) - Slept(cfg, src, turns[..j - 1]));
      }
    } else {
      NoWaits(cfg);
    }
  }

  /** In any stretch of any run there are at most two dials more than twice the waits, so never three
      dials without a wait between; and against the time slept, `dials <= 2 * (T / (0.8 * floor) + 1)`. */
  lemma DialRate(cfg: Config, src: Source, turns: seq<Turn>, i: nat, j: nat)
    requires i <= j <= |turns|
    ensures Between(cfg, src, Dials, turns, i, j) <= 2 * (Between(cfg, src, Waits, turns, i, j) + 1)
    ensures var slept := Slept(cfg, src, turns[..j]) - Slept(cfg, src, turns[..i]);
            Between(cfg, src, Dials, turns, i, j) * (800 * Floor(cfg)) <= 2 * (slept + 800 * Floor(cfg))
  {
    var unit := 800 * Floor(cfg);
    DialPotential(cfg, src, turns, i, j);
    SleptWithinJitter(cfg, src, turns, i, j);
    EightTenths(Between(cfg, src, Waits, turns, i, j), Floor(cfg), Planned(cfg, src, turns[..j]) - Planned(cfg, src, turns[..i]));
    RateArithmetic(Between(cfg, src, Dials, turns, i, j), Between(cfg, src, Waits, turns, i, j), unit,
                   Slept(cfg, src, turns[..j]) - Slept(cfg, src, turns[..i]));
  }

  /** How many of the two askings allowed between waits are used up, and how many of the two requests. */
  ghost function AsksUsed(p: Pod): int {
    if p.pc.Serving? || p.pc.Waiting? || Ended(p.pc) then 2
    else if p.pc.Asking? then One(p.spent)
    else if InForget(p.pc) then 1
    else 1 + One(p.spent)
  }

  ghost function RequestsUsed(p: Pod): int {
    if p.pc.Requesting? || (p.pc.Discarding? && p.pc.after.ThenEnroll?) then One(p.spent) else AsksUsed(p)
  }

  lemma AskPotentialStep(cfg: Config, src: Source, p: Pod, t: Turn)
    requires Coherent(src, p)
    ensures var q := Step(cfg, src, p, t.disk, t.answer).pod;
            && One(Happens(cfg, src, Asks, p, t)) - 2 * One(Happens(cfg, src, Waits, p, t)) <= AsksUsed(q) - AsksUsed(p)
            && One(Happens(cfg, src, Requests, p, t)) - 2 * One(Happens(cfg, src, Waits, p, t)) <=
               RequestsUsed(q) - RequestsUsed(p)
  {
  }

  lemma {:induction false} AskPotential(cfg: Config, src: Source, turns: seq<Turn>, i: nat, j: nat)
    requires i <= j <= |turns|
    ensures Between(cfg, src, Asks, turns, i, j) - 2 * Between(cfg, src, Waits, turns, i, j) <=
            AsksUsed(At(cfg, src, turns, j)) - AsksUsed(At(cfg, src, turns, i))
    ensures Between(cfg, src, Requests, turns, i, j) - 2 * Between(cfg, src, Waits, turns, i, j) <=
            RequestsUsed(At(cfg, src, turns, j)) - RequestsUsed(At(cfg, src, turns, i))
    decreases j - i
  {
    hide At, Tally, Step, Coherent, Happens, AsksUsed, RequestsUsed;
    if i < j {
      AskPotential(cfg, src, turns, i, j - 1);
      BetweenStep(cfg, src, Asks, turns, i, j - 1);
      BetweenStep(cfg, src, Requests, turns, i, j - 1);
      BetweenStep(cfg, src, Waits, turns, i, j - 1);
      OneTurn(cfg, src, turns, j - 1);
      CoherentAt(cfg, src, turns, j - 1);
      AskPotentialStep(cfg, src, At(cfg, src, turns, j - 1), turns[j - 1]);
    }
  }

  /** Nor is anybody asked faster than that: in any stretch of any run the source is asked for a bearer, and
      the server for an enrollment, each at most twice for each wait and twice more, so a source or a server
      that stays unavailable is waited out and not hammered. */
  lemma AskRate(cfg: Config, src: Source, turns: seq<Turn>, i: nat, j: nat)
    requires i <= j <= |turns|
    ensures Between(cfg, src, Asks, turns, i, j) <= 2 * (Between(cfg, src, Waits, turns, i, j) + 1)
    ensures Between(cfg, src, Requests, turns, i, j) <= 2 * (Between(cfg, src, Waits, turns, i, j) + 1)
    ensures var slept := Slept(cfg, src, turns[..j]) - Slept(cfg, src, turns[..i]);
            && Between(cfg, src, Asks, turns, i, j) * (800 * Floor(cfg)) <= 2 * (slept + 800 * Floor(cfg))
            && Between(cfg, src, Requests, turns, i, j) * (800 * Floor(cfg)) <= 2 * (slept + 800 * Floor(cfg))
  {
    var unit := 800 * Floor(cfg);
    var waits := Between(cfg, src, Waits, turns, i, j);
    var slept := Slept(cfg, src, turns[..j]) - Slept(cfg, src, turns[..i]);
    AskPotential(cfg, src, turns, i, j);
    SleptWithinJitter(cfg, src, turns, i, j);
    EightTenths(waits, Floor(cfg), Planned(cfg, src, turns[..j]) - Planned(cfg, src, turns[..i]));
    RateArithmetic(Between(cfg, src, Asks, turns, i, j), waits, unit, slept);
    RateArithmetic(Between(cfg, src, Requests, turns, i, j), waits, unit, slept);
  }

  lemma AskingComesOfStep(cfg: Config, src: Source, p: Pod, t: Turn)
    ensures var q := Step(cfg, src, p, t.disk, t.answer).pod;
            && (q.pc.Asking? <==> One(Happens(cfg, src, Waits, p, t)) + One(Happens(cfg, src, Forgets, p, t)) == 1
                                  || (p.pc.Asking? && t.answer.Stop? && !AtAwait(src, p.pc)))
            && (Happens(cfg, src, Asks, p, t) ==> p.pc.Asking? && !q.pc.Asking?)
  {
  }

  /** The book of askings balances: every one was led to by the start, a wait or a forget that came back
      `Ok(true)`, and every one of those leads to an asking, but for the last when it is still to come or the
      process ended first. */
  lemma {:induction false} AskingsBalance(cfg: Config, src: Source, turns: seq<Turn>)
    ensures var led := 1 + Tally(cfg, src, Waits, turns) + Tally(cfg, src, Forgets, turns) - Tally(cfg, src, Asks, turns);
            && (At(cfg, src, turns, |turns|).pc.Asking? ==> led == 1)
            && (!At(cfg, src, turns, |turns|).pc.Asking? && !Ended(At(cfg, src, turns, |turns|).pc) ==> led == 0)
            && 0 <= led <= 1
    decreases |turns|
  {
    if turns == [] {
      assert turns[..0] == [];
    } else {
      var n := |turns| - 1;
      AskingsBalance(cfg, src, turns[..n]);
      assert turns[..n][..n] == turns[..n] && turns[..|turns|] == turns;
      OneTurn(cfg, src, turns, n);
      AskingComesOfStep(cfg, src, At(cfg, src, turns, n), turns[n]);
      hide Happens;
      EndedIsQuiet(cfg, src, At(cfg, src, turns, n), turns[n]);
      hide Step;
    }
  }

  lemma EndedIsQuiet(cfg: Config, src: Source, p: Pod, t: Turn)
    ensures Ended(p.pc) ==> Step(cfg, src, p, t.disk, t.answer).pod == p
    ensures Ended(p.pc) ==> !Happens(cfg, src, Waits, p, t) && !Happens(cfg, src, Forgets, p, t) && !Happens(cfg, src, Asks, p, t)
    ensures !(Happens(cfg, src, Waits, p, t) && Happens(cfg, src, Forgets, p, t))
    ensures Happens(cfg, src, Waits, p, t) || Happens(cfg, src, Forgets, p, t) ==> !p.pc.Asking?
    ensures p.pc.Asking? && !Happens(cfg, src, Asks, p, t) ==>
              var pc := Step(cfg, src, p, t.disk, t.answer).pod.pc; pc.Asking? || Ended(pc)
  {
  }

  lemma EightTenths(waits: int, floor: nat, planned: int)
    requires waits * floor <= planned
    ensures waits * (800 * floor) <= 800 * planned
  {
    assert waits * (800 * floor) == 800 * (waits * floor);
  }

  lemma RateArithmetic(dials: int, waits: int, unit: nat, slept: int)
    requires dials <= 2 * (waits + 1) && slept >= waits * unit
    ensures dials * unit <= 2 * (slept + unit)
  {
    assert (2 * (waits + 1) - dials) * unit >= 0;
    assert 2 * (waits + 1) * unit == 2 * (waits * unit) + 2 * unit;
  }

  // ---------------------------------------------------------------- enrollment

  ghost predicate CodeShown(p: Pod, t: Turn) {
    (p.pc.Requesting? || p.pc.Renewing?) && t.answer.Says? && t.answer.reply.start.CodeIssued?
  }

  /** Codes shown, codes lapsed, and empty polls on the code now showing, all counted since the
      enrollment under way was asked for. */
  datatype Enrollment = Enrollment(codes: nat, lapses: nat, idle: nat)

  ghost function Advance(e: Enrollment, p: Pod, t: Turn): Enrollment {
    if !t.answer.Says? then e
    else if CodeShown(p, t) then
      if p.pc.Requesting? then Enrollment(1, 0, 0) else e.(codes := e.codes + 1, idle := 0)
    else if p.pc.Polling? && t.answer.reply.poll.CodeLapsed? then e.(lapses := e.lapses + 1)
    else if p.pc.Polling? && t.answer.reply.poll.StillWaiting? then e.(idle := e.idle + 1)
    else e
  }

  ghost function Progress(cfg: Config, src: Source, turns: seq<Turn>): Enrollment {
    if turns == [] then Enrollment(0, 0, 0)
    else
      var before := turns[..|turns| - 1];
      Advance(Progress(cfg, src, before), At(cfg, src, before, |before|), turns[|turns| - 1])
  }

  ghost predicate Bounded(e: Enrollment, pc: Pc) {
    && e.codes <= MAX_RENEWALS + 1
    && (pc.Polling? ==> e.lapses == pc.renewals && e.codes == e.lapses + 1)
    && (pc.Renewing? ==> e.lapses == pc.renewals && e.codes == e.lapses)
  }

  lemma AdvanceStaysBounded(cfg: Config, src: Source, e: Enrollment, p: Pod, t: Turn)
    requires Coherent(src, p) && Bounded(e, p.pc)
    ensures Bounded(Advance(e, p, t), Step(cfg, src, p, t.disk, t.answer).pod.pc)
  {
  }

  /** The renewal counter is exactly the codes that lapsed in this enrollment; it shows at most
      `MAX_RENEWALS + 1` codes, and it is the lapse of the last of them that ends it. */
  lemma {:induction false} EnrollmentIsBounded(cfg: Config, src: Source, turns: seq<Turn>)
    ensures var pc := At(cfg, src, turns, |turns|).pc; var e := Progress(cfg, src, turns);
            && e.codes <= MAX_RENEWALS + 1
            && (pc.Polling? ==> e.lapses == pc.renewals && e.codes == e.lapses + 1)
            && (pc.Renewing? ==> e.lapses == pc.renewals && e.codes == e.lapses)
    decreases |turns|
  {
    if turns == [] {
      assert turns[..0] == [];
    } else {
      var n := |turns| - 1;
      EnrollmentIsBounded(cfg, src, turns[..n]);
      assert turns[..n][..n] == turns[..n];
      OneTurn(cfg, src, turns, n);
      RunsAreCoherent(cfg, src, Absent, turns[..n]);
      AdvanceStaysBounded(cfg, src, Progress(cfg, src, turns[..n]), At(cfg, src, turns, n), turns[n]);
    }
  }

  /** Turns an enrollment may still take when no code is polled in vain more than `bound` times:
      renewals left first, polls left on the current code second. */
  ghost function TurnsLeft(pc: Pc, idle: nat, bound: nat): int {
    var perCode := bound + 3;
    match pc
    case Requesting => 4 * perCode
    case Polling(n) => CodesLeft(n, perCode) + (bound - idle) + 1
    case Renewing(n) => CodesLeft(n, perCode) + bound + 2
    case _ => 0
  }

  ghost function CodesLeft(renewals: nat, perCode: nat): nat {
    if renewals == 0 then 3 * perCode
    else if renewals == 1 then 2 * perCode
    else if renewals == 2 then perCode
    else 0
  }

  ghost function Left(cfg: Config, src: Source, turns: seq<Turn>, bound: nat): int {
    TurnsLeft(At(cfg, src, turns, |turns|).pc, Progress(cfg, src, turns).idle, bound)
  }

  /** At turn `k` an enrollment is under way, its code polled in vain at most `bound` times. */
  ghost predicate Pending(cfg: Config, src: Source, turns: seq<Turn>, k: nat, bound: nat)
    requires k < |turns|
  {
    && Enrolling(At(cfg, src, turns, k).pc) && turns[k].answer.Says?
    && (At(cfg, src, turns, k).pc.Polling? ==> Progress(cfg, src, turns[..k]).idle <= bound)
  }

  /** An enrollment in which no code is polled in vain more than `bound` times is over within
      `(MAX_RENEWALS + 1) * (bound + 3)` turns. */
  lemma {:induction false} EnrollmentEnds(cfg: Config, src: Source, turns: seq<Turn>, i: nat, j: nat, bound: nat)
    requires i <= j <= |turns| && At(cfg, src, turns, i).pc.Requesting?
    requires forall k :: i <= k < j ==> Pending(cfg, src, turns, k, bound)
    ensures Left(cfg, src, turns[..j], bound) <= (MAX_RENEWALS + 1) * (bound + 3) - (j - i)
    ensures j - i <= (MAX_RENEWALS + 1) * (bound + 3)
    decreases j - i
  {
    assert turns[..j][..j] == turns[..j];
    if i < j {
      var n := j - 1;
      EnrollmentEnds(cfg, src, turns, i, n, bound);
      assert Pending(cfg, src, turns, n, bound);
      assert turns[..n][..n] == turns[..n];
      RunsAreCoherent(cfg, src, Absent, turns[..n]);
      EnrollStep(cfg, src, turns[..n], turns[n], bound);
      assert turns[..n] + [turns[n]] == turns[..j];
    }
  }

  lemma AdvanceSpendsATurn(cfg: Config, src: Source, e: Enrollment, p: Pod, t: Turn, bound: nat)
    requires Coherent(src, p) && Enrolling(p.pc) && t.answer.Says? && (p.pc.Polling? ==> e.idle <= bound)
    ensures TurnsLeft(p.pc, e.idle, bound) >= 1
    ensures TurnsLeft(Step(cfg, src, p, t.disk, t.answer).pod.pc, Advance(e, p, t).idle, bound) <= TurnsLeft(p.pc, e.idle, bound) - 1
  {
  }

  lemma EnrollStep(cfg: Config, src: Source, before: seq<Turn>, t: Turn, bound: nat)
    requires var p := At(cfg, src, before, |before|); Coherent(src, p) && Enrolling(p.pc) && t.answer.Says?
    requires At(cfg, src, before, |before|).pc.Polling? ==> Progress(cfg, src, before).idle <= bound
    ensures Left(cfg, src, before, bound) >= 1
    ensures Left(cfg, src, before + [t], bound) <= Left(cfg, src, before, bound) - 1
  {
    assert (before + [t])[..|before|] == before;
    assert before[..|before|] == before;
    OneTurn(cfg, src, before + [t], |before|);
    assert (before + [t])[..|before| + 1] == before + [t];
    AdvanceSpendsATurn(cfg, src, Progress(cfg, src, before), At(cfg, src, before, |before|), t, bound);
  }
}
