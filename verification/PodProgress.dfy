/** What a process gets done, and how promptly: stops are noticed, enrollments go on until they are over, what
    is presented is what the source gave, and with nothing in the way the node comes to serve. */
module PodProgress {
  import opened Wrappers
  import opened Store
  import opened Sources
  import opened Pod
  import opened PodRuns

  // ---------------------------------------------------------------- stopping

  /** Work over in the poll that starts it: a store call, asking a source that answers out of memory or the
      store, having it forget, or nothing at all any more. */
  predicate WithinOnePoll(src: Source, pc: Pc) {
    || MayWrite(pc) || Ended(pc)
    || (pc.Asking? && (src.DeviceGrant? || src.StaticToken?))
    || (pc.Forgetting? && !src.Custom?)
  }

  /** The process is suspended at turn `i`, and the turn is a stop. */
  ghost predicate StopLands(cfg: Config, src: Source, turns: seq<Turn>, i: nat) {
    i < |turns| && turns[i].answer.Stop? && !WithinOnePoll(src, At(cfg, src, turns, i).pc)
  }

  lemma {:induction false} EndedStaysEnded(cfg: Config, src: Source, turns: seq<Turn>, i: nat, j: nat)
    requires i <= j <= |turns| && Ended(At(cfg, src, turns, i).pc)
    ensures At(cfg, src, turns, j) == At(cfg, src, turns, i)
    decreases j - i
  {
    if i < j {
      EndedStaysEnded(cfg, src, turns, i, j - 1);
      OneTurn(cfg, src, turns, j - 1);
    }
  }

  /** A stop that meets the process asking for or polling an enrollment, dialling, serving, sleeping, reading
      a mounted credential or waiting on a foreign source ends the run for good with exit 0, and closes
      exactly the connection being served, or none. One that meets it in a store call, or asking a source
      that answers at once, changes nothing. */
  lemma StopsAreNoticed(cfg: Config, src: Source, turns: seq<Turn>, i: nat, j: nat)
    requires i < j <= |turns| && turns[i].answer.Stop?
    ensures var p := At(cfg, src, turns, i);
            var closed := if p.pc.Serving? then Some(p.pc.conn) else None;
            (p.pc.Requesting? || p.pc.Polling? || p.pc.Renewing? || p.pc.Dialling? || p.pc.Serving? || p.pc.Waiting? ||
             (p.pc.Asking? && (src.TokenFile? || src.Custom?)) || (p.pc.Forgetting? && src.Custom?)) ==>
              && At(cfg, src, turns, j).pc == Exited(Stopped(closed))
              && ExitCode(At(cfg, src, turns, j).pc.ending) == 0
              && At(cfg, src, turns, j).live == None
              && LeftBy(cfg, src, turns, i) == turns[i].disk
    ensures WithinOnePoll(src, At(cfg, src, turns, i).pc) ==>
              At(cfg, src, turns, i + 1) == At(cfg, src, turns, i) && LeftBy(cfg, src, turns, i) == turns[i].disk
    ensures StopLands(cfg, src, turns, i) ==>
              At(cfg, src, turns, j).pc.Exited? && ExitCode(At(cfg, src, turns, j).pc.ending) == 0
  {
    RunsAreCoherent(cfg, src, Absent, turns[..i]);
    OneTurn(cfg, src, turns, i);
    if Ended(At(cfg, src, turns, i + 1).pc) { EndedStaysEnded(cfg, src, turns, i + 1, j); }
  }

  // ---------------------------------------------------------------- an enrollment goes on

  /** An answer an enrollment goes on after: a code is shown, nobody has approved it yet, or it lapsed and
      was not the last. */
  predicate GoesOn(p: Pod, t: Turn) {
    && t.answer.Says?
    && (p.pc.Requesting? || p.pc.Renewing? ==> t.answer.reply.start.CodeIssued?)
    && (p.pc.Polling? ==> t.answer.reply.poll.StillWaiting? ||
                          (t.answer.reply.poll.CodeLapsed? && p.pc.renewals < MAX_RENEWALS))
  }

  lemma GoingOnStep(cfg: Config, src: Source, p: Pod, t: Turn)
    requires Enrolling(p.pc) && GoesOn(p, t)
    ensures Enrolling(Step(cfg, src, p, t.disk, t.answer).pod.pc)
  {
  }

  lemma {:induction false} EnrollmentGoesOn(cfg: Config, src: Source, turns: seq<Turn>, i: nat, j: nat)
    requires i <= j <= |turns| && Enrolling(At(cfg, src, turns, i).pc)
    requires forall k :: i <= k < j ==> GoesOn(At(cfg, src, turns, k), turns[k])
    ensures Enrolling(At(cfg, src, turns, j).pc)
    decreases j - i
  {
    hide At, Step, GoesOn, Enrolling;
    if i < j {
      EnrollmentGoesOn(cfg, src, turns, i, j - 1);
      OneTurn(cfg, src, turns, j - 1);
      GoingOnStep(cfg, src, At(cfg, src, turns, j - 1), turns[j - 1]);
    }
  }

  /** However often nobody has approved yet, and through every lapse but the last, an approval counts: the
      credential granted is on disk, held, and the next thing dialled. */
  lemma ApprovalIsNeverTooLate(cfg: Config, src: Source, turns: seq<Turn>, i: nat, j: nat, c: Credential)
    requires i <= j && j + 1 < |turns| && Enrolling(At(cfg, src, turns, i).pc)
    requires forall k :: i <= k < j ==> GoesOn(At(cfg, src, turns, k), turns[k])
    requires At(cfg, src, turns, j).pc.Polling?
    requires turns[j].answer.Says? && turns[j].answer.reply.poll == Granted(c)
    requires turns[j + 1].answer.Says? && turns[j + 1].answer.reply.ok
    ensures At(cfg, src, turns, j + 2).pc == Dialling(c.secret) && At(cfg, src, turns, j + 2).held == Some(c)
    ensures LeftBy(cfg, src, turns, j + 1) == SavedFile(c)
  {
    OneTurn(cfg, src, turns, j);
    OneTurn(cfg, src, turns, j + 1);
  }

  /** One code: polled in vain any number of times it is still the code polled, approved it is dialled with. */
  lemma {:induction false} PatientPolling(cfg: Config, src: Source, turns: seq<Turn>, i: nat, j: nat, renewals: nat)
    requires i <= j <= |turns| && At(cfg, src, turns, i).pc == Polling(renewals)
    requires forall k :: i <= k < j ==> turns[k].answer.Says? && turns[k].answer.reply.poll.StillWaiting?
    ensures At(cfg, src, turns, j).pc == Polling(renewals)
    decreases j - i
  {
    if i < j {
      PatientPolling(cfg, src, turns, i, j - 1, renewals);
      OneTurn(cfg, src, turns, j - 1);
    }
  }

  /** A lapse before the fourth is answered with the next code, which is polled in its turn. */
  lemma LapseIsRenewed(cfg: Config, src: Source, turns: seq<Turn>, i: nat, renewals: nat)
    requires i + 1 < |turns| && At(cfg, src, turns, i).pc == Polling(renewals) && renewals < 3
    requires turns[i].answer.Says? && turns[i].answer.reply.poll.CodeLapsed?
    requires turns[i + 1].answer.Says? && turns[i + 1].answer.reply.start.CodeIssued?
    ensures At(cfg, src, turns, i + 1).pc == Renewing(renewals + 1) && At(cfg, src, turns, i + 2).pc == Polling(renewals + 1)
  {
    OneTurn(cfg, src, turns, i);
    OneTurn(cfg, src, turns, i + 1);
  }

  /** The call failed for a reason that may pass. */
  predicate MayPass(e: EnrollError) {
    e == EnrollLapsed || e == EnrollUnreachable
  }

  /** How an enrollment is left, each way exactly when it should be: to save what was granted, to wait out a
      failure that may pass, or to exit over one that will not; and otherwise it is not left. */
  lemma EnrollmentIsLeft(cfg: Config, src: Source, turns: seq<Turn>, i: nat)
    requires i < |turns| && Enrolling(At(cfg, src, turns, i).pc) && turns[i].answer.Says?
    ensures var p := At(cfg, src, turns, i);
            var q := At(cfg, src, turns, i + 1);
            var r := turns[i].answer.reply;
            var failed := if p.pc.Polling? then r.poll.PollFailed? else r.start.StartFailed?;
            && (q.pc.Waiting? <==> failed && MayPass(if p.pc.Polling? then r.poll.error else r.start.error))
            && (forall c :: q.pc == Saving(c) <==> p.pc.Polling? && r.poll == Granted(c))
            && (q.pc.Exited? <==> (failed && !MayPass(if p.pc.Polling? then r.poll.error else r.start.error)) ||
                                  (p.pc.Polling? && (r.poll.Declined? || (r.poll.CodeLapsed? && p.pc.renewals == 3))))
            && (Enrolling(q.pc) <==> GoesOn(p, turns[i]))
            && (Enrolling(q.pc) || q.pc.Waiting? || q.pc.Saving? || q.pc.Exited?)
            && q.held == p.held && LeftBy(cfg, src, turns, i) == turns[i].disk
  {
    RunsAreCoherent(cfg, src, Absent, turns[..i]);
    OneTurn(cfg, src, turns, i);
  }

  // ---------------------------------------------------------------- what is made of the store

  /** A self-enrolling source asked for its bearer: what it holds, else what the store has, which it holds
      from then on; an exposed file is the end, and only nothing, or nothing usable, leads to an enrollment. */
  lemma AskingDecides(cfg: Config, turns: seq<Turn>, i: nat)
    requires i < |turns| && At(cfg, DeviceGrant, turns, i).pc.Asking? && turns[i].answer.Says?
    ensures var p := At(cfg, DeviceGrant, turns, i);
            var q := At(cfg, DeviceGrant, turns, i + 1);
            var loaded := Load(turns[i].disk);
            && (p.held.Some? ==> q == p.(pc := Dialling(p.held.value.secret)))
            && (p.held.None? ==>
                  && (forall c: Credential :: loaded == Ok(Some(c)) ==> q == p.(held := Some(c), pc := Dialling(c.secret)))
                  && (q.pc.Exited? <==> loaded == Err(Refused))
                  && (q.pc == Requesting <==> turns[i].disk.Absent?)
                  && (q.pc == Discarding(ThenEnroll) <==> loaded == Err(Unusable)))
            && LeftBy(cfg, DeviceGrant, turns, i) == turns[i].disk
  {
    OneTurn(cfg, DeviceGrant, turns, i);
    RefusedExactlyWhenExposed(turns[i].disk);
  }

  /** And asked to forget a refused one: it asks again at once exactly when the store has a usable credential
      with another secret, which it holds from then on; otherwise it lets go of what it held and goes on to
      remove the file, by way of throwing it away first where it cannot be used, unless it is exposed. */
  lemma ForgettingDecides(cfg: Config, turns: seq<Turn>, i: nat)
    requires i < |turns| && At(cfg, DeviceGrant, turns, i).pc.Forgetting? && turns[i].answer.Says?
    ensures var p := At(cfg, DeviceGrant, turns, i);
            var q := At(cfg, DeviceGrant, turns, i + 1);
            var loaded := Load(turns[i].disk);
            && (q.pc.Asking? <==> loaded.Ok? && loaded.value.Some? && loaded.value.value.secret != p.pc.bearer)
            && q.held == (if q.pc.Asking? then loaded.value else None)
            && (q.pc.Exited? <==> loaded == Err(Refused))
            && (q.pc == Discarding(ThenForget(p.pc.bearer)) <==> loaded == Err(Unusable))
            && (q.pc == Clearing(p.pc.bearer) <==>
                  loaded == Ok(None) || (loaded.Ok? && loaded.value.Some? && loaded.value.value.secret == p.pc.bearer))
            && LeftBy(cfg, DeviceGrant, turns, i) == turns[i].disk
  {
    CoherentAt(cfg, DeviceGrant, turns, i);
    OneTurn(cfg, DeviceGrant, turns, i);
  }

  /** A removal that works leaves no file, and goes on to what it was for; one that does not needs a person. */
  lemma RemovingDecides(cfg: Config, src: Source, turns: seq<Turn>, i: nat)
    requires i < |turns| && turns[i].answer.Says?
    requires At(cfg, src, turns, i).pc.Clearing? || At(cfg, src, turns, i).pc.Discarding?
    ensures var pc := At(cfg, src, turns, i).pc;
            var q := At(cfg, src, turns, i + 1);
            if turns[i].answer.reply.ok then
              && LeftBy(cfg, src, turns, i) == Absent && q.held == None
              && (pc.Clearing? ==> q.pc == Asking)
              && (pc == Discarding(ThenEnroll) ==> q.pc == Requesting)
              && (forall b :: pc == Discarding(ThenForget(b)) ==> q.pc == Clearing(b))
            else LeftBy(cfg, src, turns, i) == turns[i].disk && q.pc.Exited? && ExitCode(q.pc.ending) == 2
  {
    CoherentAt(cfg, src, turns, i);
    OneTurn(cfg, src, turns, i);
  }

  /** Death is the end of a run wherever it comes, with at most the write under way left behind. */
  lemma DeathIsTheEnd(cfg: Config, src: Source, turns: seq<Turn>, i: nat, j: nat)
    requires i < j <= |turns| && turns[i].answer.Crash? && !Ended(At(cfg, src, turns, i).pc)
    ensures At(cfg, src, turns, j).pc == Killed
    ensures !(MayWrite(At(cfg, src, turns, i).pc) && turns[i].answer.landed) ==> LeftBy(cfg, src, turns, i) == turns[i].disk
  {
    OneTurn(cfg, src, turns, i);
    EndedStaysEnded(cfg, src, turns, i + 1, j);
  }

  // ---------------------------------------------------------------- what is presented, and what is served

  /** An operator's credential is presented as the source gave it the moment before: the token, the text of
      the file without the space around it, or what the foreign source said. */
  lemma PresentedAsGiven(cfg: Config, src: Source, turns: seq<Turn>, i: nat)
    requires i <= |turns| && At(cfg, src, turns, i).pc.Dialling? && !src.DeviceGrant?
    ensures i > 0 && At(cfg, src, turns, i - 1).pc.Asking? && turns[i - 1].answer.Says?
    ensures var bearer := At(cfg, src, turns, i).pc.bearer;
            var r := turns[i - 1].answer.reply;
            && (src.StaticToken? ==> bearer == src.token)
            && (src.TokenFile? ==> r.read.Contents? && bearer == Trim(r.read.text) && "zc_" <= bearer)
            && (src.Custom? ==> r.bearer == Ok(bearer))
  {
    assert turns[..0] == [];
    OneTurn(cfg, src, turns, i - 1);
    RunsAreCoherent(cfg, src, Absent, turns[..i - 1]);
    if src.TokenFile? && turns[i - 1].answer.Says? && turns[i - 1].answer.reply.read.Contents? {
      var _, _ := ValidateMeaning(turns[i - 1].answer.reply.read.text);
    }
  }

  lemma ServingStarts(cfg: Config, src: Source, p: Pod, t: Turn)
    ensures var q := Step(cfg, src, p, t.disk, t.answer).pod;
            && (q.pc.Serving? && q.pc != p.pc ==>
                  p.pc == Dialling(q.pc.bearer) && t.answer.Says? && t.answer.reply.dial == Up(q.pc.conn))
            && (p.pc.Dialling? && t.answer.Says? && t.answer.reply.dial.Up? ==>
                  q.pc == Serving(p.pc.bearer, t.answer.reply.dial.conn))
            && (p.pc.Serving? ==> if t.answer.Says? then q.pc.Waiting? else Ended(q.pc))
            && (p.pc.Waiting? && t.answer.Says? ==> q.pc.Asking?)
  {
  }

  /** What is served is the connection that the dial of that very bearer has just brought up. */
  lemma ServedAsDialled(cfg: Config, src: Source, turns: seq<Turn>, i: nat)
    requires i <= |turns| && At(cfg, src, turns, i).pc.Serving?
    ensures i > 0 && At(cfg, src, turns, i - 1).pc == Dialling(At(cfg, src, turns, i).pc.bearer)
    ensures turns[i - 1].answer.Says? && turns[i - 1].answer.reply.dial == Up(At(cfg, src, turns, i).pc.conn)
  {
    assert turns[..0] == [];
    OneTurn(cfg, src, turns, i - 1);
    ServingStarts(cfg, src, At(cfg, src, turns, i - 1), turns[i - 1]);
  }

  /** A dial that comes up is served; when the connection drops, the loop sleeps once and asks again. */
  lemma UpIsServed(cfg: Config, src: Source, turns: seq<Turn>, i: nat, conn: nat)
    requires i + 2 < |turns| && At(cfg, src, turns, i).pc.Dialling?
    requires turns[i].answer.Says? && turns[i].answer.reply.dial == Up(conn)
    requires turns[i + 1].answer.Says? && turns[i + 2].answer.Says?
    ensures At(cfg, src, turns, i + 1).pc == Serving(At(cfg, src, turns, i).pc.bearer, conn)
    ensures At(cfg, src, turns, i + 2).pc.Waiting? && At(cfg, src, turns, i + 3).pc.Asking?
  {
    hide At, Step;
    OneTurn(cfg, src, turns, i);
    OneTurn(cfg, src, turns, i + 1);
    OneTurn(cfg, src, turns, i + 2);
    ServingStarts(cfg, src, At(cfg, src, turns, i), turns[i]);
    ServingStarts(cfg, src, At(cfg, src, turns, i + 1), turns[i + 1]);
    ServingStarts(cfg, src, At(cfg, src, turns, i + 2), turns[i + 2]);
  }

  // ---------------------------------------------------------------- with nothing in the way

  /** Nothing goes wrong at this turn: the source gives its bearer, the person approves, the store works and
      is not exposed, the server takes the dial. */
  predicate Helps(src: Source, t: Turn) {
    && t.answer.Says? && !(t.disk.File? && Exposed(t.disk.mode))
    && var r := t.answer.reply;
       && r.ok && r.start.CodeIssued? && r.poll.Granted? && r.dial.Up? && r.bearer.Ok? && r.forget == Ok(true)
       && (src.TokenFile? ==> TokenFileBearer(r.read).Ok?)
  }

  /** The most turns it takes to be serving a new connection. */
  function Turns(pc: Pc): nat {
    match pc
    case Dialling(_) => 1
    case Saving(_) => 2
    case Polling(_) => 3
    case Requesting | Renewing(_) => 4
    case Discarding(ThenEnroll) => 5
    case Asking => 6
    case Clearing(_) | Waiting => 7
    case Discarding(ThenForget(_)) | Serving(_, _) => 8
    case Forgetting(_) => 9
    case Exited(_) | Killed => 0
  }

  /** The operator's own credential was refused: there is no going on from that. */
  predicate GoingOn(src: Source, pc: Pc) {
    !Ended(pc) && (pc.Forgetting? ==> src.DeviceGrant? || src.Custom?)
  }

  lemma HelpedStep(cfg: Config, src: Source, p: Pod, t: Turn)
    requires Coherent(src, p) && GoingOn(src, p.pc) && Helps(src, t)
    ensures var q := Step(cfg, src, p, t.disk, t.answer).pod;
            && GoingOn(src, q.pc)
            && (if q.pc.Serving? then p.pc.Dialling? else Turns(q.pc) < Turns(p.pc))
            && (q.pc.Waiting? ==> p.pc.Serving?)
  {
    RefusedExactlyWhenExposed(t.disk);
  }

  lemma HelpedTurn(cfg: Config, src: Source, turns: seq<Turn>, i: nat)
    requires i < |turns| && GoingOn(src, At(cfg, src, turns, i).pc) && Helps(src, turns[i])
    ensures var p := At(cfg, src, turns, i);
            var q := At(cfg, src, turns, i + 1);
            && GoingOn(src, q.pc)
            && (if q.pc.Serving? then p.pc.Dialling? else Turns(q.pc) < Turns(p.pc))
            && (q.pc.Waiting? ==> p.pc.Serving?)
  {
    RunsAreCoherent(cfg, src, Absent, turns[..i]);
    OneTurn(cfg, src, turns, i);
    HelpedStep(cfg, src, At(cfg, src, turns, i), turns[i]);
  }

  /** From wherever a run has got to, short of its end, a node that nothing goes wrong for is serving a new
      connection within a handful of turns; and it sleeps on the way only if it was asleep already, or once
      when the connection it was serving has dropped. */
  lemma {:induction false} ComesToServe(cfg: Config, src: Source, turns: seq<Turn>, i: nat) returns (k: nat)
    requires i <= |turns| && GoingOn(src, At(cfg, src, turns, i).pc)
    requires i + Turns(At(cfg, src, turns, i).pc) <= |turns|
    requires forall m :: i <= m < i + Turns(At(cfg, src, turns, i).pc) ==> Helps(src, turns[m])
    ensures i < k <= i + Turns(At(cfg, src, turns, i).pc) && At(cfg, src, turns, k).pc.Serving?
    ensures forall m :: i < m < k && At(cfg, src, turns, m).pc.Waiting? ==> m == i + 1 && At(cfg, src, turns, i).pc.Serving?
    decreases Turns(At(cfg, src, turns, i).pc)
  {
    hide At, Helps;
    var p := At(cfg, src, turns, i);
    HelpedTurn(cfg, src, turns, i);
    if At(cfg, src, turns, i + 1).pc.Serving? {
      k := i + 1;
    } else {
      k := ComesToServe(cfg, src, turns, i + 1);
    }
  }
}
