/** What every run of one process keeps, whatever the world answers and whatever anyone else does to
    the credential file between its turns. */
module PodRuns {
  import opened Wrappers
  import opened Store
  import opened Sources
  import opened Pod

  /** The pc's in which the process is inside `stored`, `enroll` or `forget_refused` and about to
      write, or asking a person. */
  predicate Enrolling(pc: Pc) {
    pc.Requesting? || pc.Polling? || pc.Renewing?
  }

  predicate MayWrite(pc: Pc) {
    pc.Discarding? || pc.Saving? || pc.Clearing?
  }

  predicate InForget(pc: Pc) {
    pc.Forgetting? || pc.Clearing? || (pc.Discarding? && pc.after.ThenForget?)
  }

  /** The parked connection, the held credential and the loop's flag, related to what the process is
      doing. The live slot holds a connection exactly while that connection is served, and what was
      dialled, is served, or is being forgotten is the secret held. */
  ghost predicate Coherent(src: Source, p: Pod) {
    && p.live == (if p.pc.Serving? then Some(p.pc.conn) else None)
    && (Enrolling(p.pc) || MayWrite(p.pc) ==> src.DeviceGrant? && p.held.None?)
    && (p.pc.Polling? ==> p.pc.renewals <= MAX_RENEWALS)
    && (p.pc.Renewing? ==> 1 <= p.pc.renewals <= MAX_RENEWALS)
    && (src.DeviceGrant? && (p.pc.Dialling? || p.pc.Serving? || p.pc.Forgetting?) ==>
          p.held.Some? && p.held.value.secret == p.pc.bearer)
    && (InForget(p.pc) ==> p.spent)
  }

  lemma StepKeepsCoherent(cfg: Config, src: Source, p: Pod, d: Disk, a: Answer)
    requires Coherent(src, p)
    ensures Coherent(src, Step(cfg, src, p, d, a).pod)
  {
    if a.Says? {
      RespondKeepsCoherent(cfg, src, p, d, a.reply);
    }
  }

  lemma RespondKeepsCoherent(cfg: Config, src: Source, p: Pod, d: Disk, r: Reply)
    requires Coherent(src, p)
    ensures Coherent(src, Respond(cfg, src, p, d, r).pod)
  {
    match p.pc
    case Asking => AskKeepsCoherent(src, p, d, r);
    case Polling(n) => PollKeepsCoherent(src, p, n, r.poll);
    case Dialling(bearer) => DialKeepsCoherent(src, p, bearer, r.dial);
    case Forgetting(bearer) => ForgetKeepsCoherent(src, p, bearer, d, r);
    case _ =>
  }

  lemma AskKeepsCoherent(src: Source, p: Pod, d: Disk, r: Reply)
    requires p.pc.Asking? && Coherent(src, p)
    ensures Coherent(src, AskStep(src, p, d, r))
  {
  }

  lemma PollKeepsCoherent(src: Source, p: Pod, n: nat, reply: PollReply)
    requires p.pc == Polling(n) && Coherent(src, p)
    ensures Coherent(src, PollStep(p, n, reply))
  {
  }

  lemma DialKeepsCoherent(src: Source, p: Pod, bearer: string, reply: DialReply)
    requires p.pc == Dialling(bearer) && Coherent(src, p)
    ensures Coherent(src, DialStep(p, bearer, reply))
  {
  }

  lemma ForgetKeepsCoherent(src: Source, p: Pod, bearer: string, d: Disk, r: Reply)
    requires p.pc == Forgetting(bearer) && Coherent(src, p)
    ensures Coherent(src, ForgetStep(src, p, bearer, d, r))
  {
  }

  lemma {:induction false} RunsAreCoherent(cfg: Config, src: Source, start: Disk, turns: seq<Turn>)
    ensures Coherent(src, Run(cfg, src, start, turns).pod)
    decreases |turns|
  {
    if turns != [] {
      var last := turns[|turns| - 1];
      RunsAreCoherent(cfg, src, start, turns[..|turns| - 1]);
      StepKeepsCoherent(cfg, src, Run(cfg, src, start, turns[..|turns| - 1]).pod, last.disk, last.answer);
    }
  }

  lemma CoherentAt(cfg: Config, src: Source, turns: seq<Turn>, i: nat)
    requires i <= |turns|
    ensures Coherent(src, At(cfg, src, turns, i))
  {
    RunsAreCoherent(cfg, src, Absent, turns[..i]);
  }

  // ---------------------------------------------------------------- counting

  datatype Kind = Asks | Requests | Dials | Ups | Forgets | Saves | Waits

  /** Whether the turn is one of these. A forget counts when it comes back `Ok(true)`. */
  ghost predicate Happens(cfg: Config, src: Source, k: Kind, p: Pod, t: Turn) {
    t.answer.Says? &&
    match k
    case Asks => p.pc.Asking?
    case Requests => p.pc.Requesting?
    case Dials => p.pc.Dialling?
    case Ups => p.pc.Dialling? && t.answer.reply.dial.Up?
    case Forgets =>
      (p.pc.Forgetting? || p.pc.Clearing?) && Step(cfg, src, p, t.disk, t.answer).pod.pc.Asking?
    case Saves => p.pc.Saving? && t.answer.reply.ok
    case Waits => p.pc.Waiting?
  }

  ghost function Tally(cfg: Config, src: Source, k: Kind, turns: seq<Turn>): nat {
    if turns == [] then 0
    else
      var before := turns[..|turns| - 1];
      Tally(cfg, src, k, before) +
      if Happens(cfg, src, k, At(cfg, src, before, |before|), turns[|turns| - 1]) then 1 else 0
  }

  /** How many turns of kind `k` lie in `turns[i..j]`, in a process started before them all. */
  ghost function Between(cfg: Config, src: Source, k: Kind, turns: seq<Turn>, i: nat, j: nat): int
    requires i <= j <= |turns|
  {
    Tally(cfg, src, k, turns[..j]) - Tally(cfg, src, k, turns[..i])
  }

  lemma BetweenStep(cfg: Config, src: Source, k: Kind, turns: seq<Turn>, i: nat, j: nat)
    requires i <= j < |turns|
    ensures Between(cfg, src, k, turns, i, j + 1) == Between(cfg, src, k, turns, i, j) +
            if Happens(cfg, src, k, At(cfg, src, turns, j), turns[j]) then 1 else 0
  {
    assert turns[..j + 1][..j] == turns[..j];
    assert turns[..j][..j] == turns[..j];
  }

  // ---------------------------------------------------------------- re-enrollment budget

  /** 1 while a re-enrollment has been spent and not yet earned back by a connection. */
  ghost function SpentOf(p: Pod): int {
    if p.spent && !InForget(p.pc) then 1 else 0
  }

  /** 1 while a credential is held, or was until the forget under way took it. */
  ghost function HoldingOf(src: Source, p: Pod): int {
    if src.DeviceGrant? && (p.held.Some? || InForget(p.pc) || Ended(p.pc)) then 1 else 0
  }

  /** Within any stretch of any run, successful forgets are at most the successful dials plus one, and
      successful enrollments at most the successful dials plus two. */
  lemma {:induction false} ReenrollmentBudget(cfg: Config, src: Source, turns: seq<Turn>, i: nat, j: nat)
    requires i <= j <= |turns|
    ensures Between(cfg, src, Forgets, turns, i, j) <= Between(cfg, src, Ups, turns, i, j) + 1
    ensures Between(cfg, src, Saves, turns, i, j) <= Between(cfg, src, Ups, turns, i, j) + 2
  {
    BudgetPotential(cfg, src, turns, i, j);
  }

  lemma {:induction false} BudgetPotential(cfg: Config, src: Source, turns: seq<Turn>, i: nat, j: nat)
    requires i <= j <= |turns|
    ensures Between(cfg, src, Forgets, turns, i, j) - Between(cfg, src, Ups, turns, i, j) <=
            SpentOf(At(cfg, src, turns, j)) - SpentOf(At(cfg, src, turns, i))
    ensures Between(cfg, src, Saves, turns, i, j) - Between(cfg, src, Forgets, turns, i, j) <=
            HoldingOf(src, At(cfg, src, turns, j)) - HoldingOf(src, At(cfg, src, turns, i))
    decreases j - i
  {
    hide At, Tally, Step, Coherent, Happens, SpentOf, HoldingOf;
    if i < j {
      BudgetPotential(cfg, src, turns, i, j - 1);
      BetweenStep(cfg, src, Forgets, turns, i, j - 1);
      BetweenStep(cfg, src, Ups, turns, i, j - 1);
      BetweenStep(cfg, src, Saves, turns, i, j - 1);
      OneTurn(cfg, src, turns, j - 1);
      CoherentAt(cfg, src, turns, j - 1);
      BudgetStep(cfg, src, At(cfg, src, turns, j - 1), turns[j - 1]);
    }
  }

  ghost function One(b: bool): int {
    if b then 1 else 0
  }

  lemma BudgetStep(cfg: Config, src: Source, p: Pod, t: Turn)
    requires Coherent(src, p)
    ensures var q := Step(cfg, src, p, t.disk, t.answer).pod;
            && One(Happens(cfg, src, Forgets, p, t)) - One(Happens(cfg, src, Ups, p, t)) <= SpentOf(q) - SpentOf(p)
            && One(Happens(cfg, src, Saves, p, t)) - One(Happens(cfg, src, Forgets, p, t)) <= HoldingOf(src, q) - HoldingOf(src, p)
  {
  }

  /** A dial the server would not take this credential for. */
  ghost predicate RefusedDial(p: Pod, t: Turn) {
    p.pc.Dialling? && t.answer.Says? && t.answer.reply.dial.Down? &&
    (t.answer.reply.dial.error == Unauthorized || t.answer.reply.dial.error == Revoked)
  }

  /** `forget_refused` of a foreign source could not be reached: the attempt is handed back. */
  ghost predicate ForgetUnavailable(src: Source, p: Pod, t: Turn) {
    src.Custom? && p.pc.Forgetting? && t.answer.Says? && t.answer.reply.forget == Err(Unavailable)
  }

  /** A refusal before turn `j` that no connection since, and no handing back, has made good. */
  ghost predicate Outstanding(cfg: Config, src: Source, turns: seq<Turn>, i: nat, j: nat)
    requires i < j <= |turns|
  {
    && RefusedDial(At(cfg, src, turns, i), turns[i])
    && (forall k :: i < k < j ==> !MadeGood(cfg, src, turns, k))
  }

  ghost predicate MadeGood(cfg: Config, src: Source, turns: seq<Turn>, k: nat)
    requires k < |turns|
  {
    var p := At(cfg, src, turns, k);
    Happens(cfg, src, Ups, p, turns[k]) || ForgetUnavailable(src, p, turns[k])
  }

  lemma SpentStep(cfg: Config, src: Source, p: Pod, t: Turn)
    ensures Step(cfg, src, p, t.disk, t.answer).pod.spent <==>
            RefusedDial(p, t) || (p.spent && !Happens(cfg, src, Ups, p, t) && !ForgetUnavailable(src, p, t))
  {
  }

  lemma SpentAt(cfg: Config, src: Source, turns: seq<Turn>, k: nat)
    requires k < |turns|
    ensures At(cfg, src, turns, k + 1).spent <==>
            RefusedDial(At(cfg, src, turns, k), turns[k]) || (At(cfg, src, turns, k).spent && !MadeGood(cfg, src, turns, k))
  {
    OneTurn(cfg, src, turns, k);
    SpentStep(cfg, src, At(cfg, src, turns, k), turns[k]);
  }

  /** The loop's flag is set exactly while a refusal is outstanding. */
  lemma {:induction false} SpentMeansOutstanding(cfg: Config, src: Source, turns: seq<Turn>, j: nat)
    requires j <= |turns|
    ensures At(cfg, src, turns, j).spent <==> exists i :: 0 <= i < j && Outstanding(cfg, src, turns, i, j)
    decreases j
  {
    hide At, MadeGood, RefusedDial;
    if j > 0 {
      SpentMeansOutstanding(cfg, src, turns, j - 1);
      SpentAt(cfg, src, turns, j - 1);
      if RefusedDial(At(cfg, src, turns, j - 1), turns[j - 1]) {
        assert Outstanding(cfg, src, turns, j - 1, j);
      } else if At(cfg, src, turns, j - 1).spent && !MadeGood(cfg, src, turns, j - 1) {
        var i :| 0 <= i < j - 1 && Outstanding(cfg, src, turns, i, j - 1);
        assert Outstanding(cfg, src, turns, i, j);
      } else {
        forall i | 0 <= i < j ensures !Outstanding(cfg, src, turns, i, j) {
          if i < j - 1 && !MadeGood(cfg, src, turns, j - 1) {
            assert !Outstanding(cfg, src, turns, i, j - 1);
          }
        }
      }
    } else {
      NothingSpentYet(cfg, src, turns);
    }
  }

  lemma NothingSpentYet(cfg: Config, src: Source, turns: seq<Turn>)
    ensures !At(cfg, src, turns, 0).spent
  {
    assert turns[..0] == [];
  }

  /** A refused dial is answered with a forget exactly when no earlier refusal is outstanding. Otherwise,
      however many waits, outages and enrollments lie between, it ends the run with exit 1. */
  lemma RefusalIsAnsweredOnce(cfg: Config, src: Source, turns: seq<Turn>, j: nat)
    requires j < |turns| && RefusedDial(At(cfg, src, turns, j), turns[j])
    ensures var again := exists i :: 0 <= i < j && Outstanding(cfg, src, turns, i, j);
            var next := At(cfg, src, turns, j + 1).pc;
            && (!again <==> next == Forgetting(At(cfg, src, turns, j).pc.bearer))
            && (again <==> next == Exited(Failed(ServerRefused)))
            && (again ==> ExitCode(next.ending) == 1)
  {
    SpentMeansOutstanding(cfg, src, turns, j);
    OneTurn(cfg, src, turns, j);
  }

  // ---------------------------------------------------------------- persist before use

  /** The file a turn leaves. */
  function LeftBy(cfg: Config, src: Source, turns: seq<Turn>, k: nat): Disk
    requires k < |turns|
  {
    Step(cfg, src, At(cfg, src, turns, k), turns[k].disk, turns[k].answer).disk
  }

  ghost predicate StoredAt(cfg: Config, src: Source, turns: seq<Turn>, k: nat, secret: string)
    requires k < |turns|
  {
    SecretOn(turns[k].disk) == Some(secret) || SecretOn(LeftBy(cfg, src, turns, k)) == Some(secret)
  }

  /** Whatever a self-enrolling process holds, and so whatever it dials, stood in the store on an
      earlier turn: no secret is presented that a restart would not find. */
  lemma {:induction false} DialledSecretsWereStored(cfg: Config, turns: seq<Turn>, i: nat)
    returns (k: nat)
    requires i <= |turns| && At(cfg, DeviceGrant, turns, i).held.Some?
    ensures k < i && StoredAt(cfg, DeviceGrant, turns, k, At(cfg, DeviceGrant, turns, i).held.value.secret)
    ensures At(cfg, DeviceGrant, turns, i).pc.Dialling? ==>
              StoredAt(cfg, DeviceGrant, turns, k, At(cfg, DeviceGrant, turns, i).pc.bearer)
    decreases i
  {
    RunsAreCoherent(cfg, DeviceGrant, Absent, turns[..i]);
    assert i != 0;
    OneTurn(cfg, DeviceGrant, turns, i - 1);
    var p := At(cfg, DeviceGrant, turns, i - 1);
    var q := At(cfg, DeviceGrant, turns, i);
    if p.held == q.held {
      k := DialledSecretsWereStored(cfg, turns, i - 1);
    } else {
      k := i - 1;
    }
  }

  /** A credential once held is what every dial presents, until one is refused. */
  lemma {:induction false} HeldIsPresentedUntilRefused(cfg: Config, turns: seq<Turn>, i: nat, j: nat)
    requires i <= j <= |turns| && At(cfg, DeviceGrant, turns, i).held.Some?
    requires forall k :: i <= k < j ==> !At(cfg, DeviceGrant, turns, k).pc.Forgetting?
    ensures var p := At(cfg, DeviceGrant, turns, j);
            && p.held == At(cfg, DeviceGrant, turns, i).held
            && (p.pc.Dialling? ==> p.pc.bearer == p.held.value.secret)
    decreases j - i
  {
    RunsAreCoherent(cfg, DeviceGrant, Absent, turns[..j]);
    if i < j {
      HeldIsPresentedUntilRefused(cfg, turns, i, j - 1);
      RunsAreCoherent(cfg, DeviceGrant, Absent, turns[..j - 1]);
      OneTurn(cfg, DeviceGrant, turns, j - 1);
    }
  }

  /** A person is asked for a code only over an empty store: the turn that starts an enrollment leaves no
      file behind it. And a process that does not enroll for itself never writes one. */
  lemma CodesOnlyOverAnEmptyStore(cfg: Config, src: Source, turns: seq<Turn>, i: nat)
    requires i < |turns|
    ensures !At(cfg, src, turns, i).pc.Requesting? && At(cfg, src, turns, i + 1).pc.Requesting? ==>
              LeftBy(cfg, src, turns, i) == Absent
    ensures !src.DeviceGrant? ==> LeftBy(cfg, src, turns, i) == turns[i].disk
  {
    RunsAreCoherent(cfg, src, Absent, turns[..i]);
    OneTurn(cfg, src, turns, i);
  }

  // ---------------------------------------------------------------- an exposed file

  ghost predicate ReadsTheStore(p: Pod) {
    (p.pc.Asking? && p.held.None?) || p.pc.Forgetting?
  }

  lemma ExposedStep(cfg: Config, p: Pod, t: Turn)
    requires !Enrolling(p.pc) && !MayWrite(p.pc)
    requires t.disk.File? && (t.disk.mode / 8 % 8 != 0 || t.disk.mode % 8 != 0)
    ensures var n := Step(cfg, DeviceGrant, p, t.disk, t.answer);
            && !Enrolling(n.pod.pc) && !MayWrite(n.pod.pc) && n.disk == t.disk
            && (ReadsTheStore(p) && t.answer.Says? ==> n.pod.pc == Exited(Failed(CredentialsFailed(NeedsOperator))))
  {
    RefusedExactlyWhenExposed(t.disk);
  }

  /** Once the stored file has group or other bits, from any moment the process is not already past
      reading it, nothing clears or overwrites it and no code is asked for; the first turn that reads
      it ends the run with exit 2. */
  lemma {:induction false} ExposedFileIsPreserved(cfg: Config, turns: seq<Turn>, i: nat, j: nat)
    requires i <= j < |turns|
    requires var pc := At(cfg, DeviceGrant, turns, i).pc; !Enrolling(pc) && !MayWrite(pc)
    requires forall k :: i <= k <= j ==>
               turns[k].disk.File? && (turns[k].disk.mode / 8 % 8 != 0 || turns[k].disk.mode % 8 != 0)
    ensures var p := At(cfg, DeviceGrant, turns, j);
            && !Enrolling(p.pc) && !MayWrite(p.pc)
            && LeftBy(cfg, DeviceGrant, turns, j) == turns[j].disk
            && (ReadsTheStore(p) && turns[j].answer.Says? ==>
                  && At(cfg, DeviceGrant, turns, j + 1).pc == Exited(Failed(CredentialsFailed(NeedsOperator)))
                  && ExitCode(At(cfg, DeviceGrant, turns, j + 1).pc.ending) == 2)
    decreases j
  {
    hide At, Step, ReadsTheStore;
    OneTurn(cfg, DeviceGrant, turns, j);
    if i < j {
      ExposedFileIsPreserved(cfg, turns, i, j - 1);
      OneTurn(cfg, DeviceGrant, turns, j - 1);
      ExposedStep(cfg, At(cfg, DeviceGrant, turns, j - 1), turns[j - 1]);
    }
    ExposedStep(cfg, At(cfg, DeviceGrant, turns, j), turns[j]);
  }
}
