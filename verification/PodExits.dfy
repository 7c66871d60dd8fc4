/** The exit-code table over whole runs. */
module PodExits {
  import opened Wrappers
  import opened Store
  import opened Sources
  import opened Pod
  import opened PodRuns
  import opened PodTiming
  import opened PodProgress

  /** The enrollment layer said something only a person can change. */
  predicate PersonSaidNo(e: EnrollError) {
    e == ScopeUnknown || e == EnrollDenied
  }

  predicate StoreRefused(d: Disk) {
    d.File? && (d.mode / 8 % 8 != 0 || d.mode % 8 != 0)
  }

  /** What a person has to fix, read off the turn it happened on: nobody approved the last code or
      somebody declined, a scope the deployment does not know, a write the store could not keep, an
      exposed credential file, or a mounted credential that is empty or may not be read. */
  ghost predicate NeedsPerson(src: Source, lapses: nat, p: Pod, d: Disk, r: Reply) {
    || (p.pc.Polling? && r.poll.CodeLapsed? && lapses == MAX_RENEWALS)
    || (p.pc.Polling? && r.poll.Declined?)
    || (p.pc.Polling? && r.poll.PollFailed? && PersonSaidNo(r.poll.error))
    || ((p.pc.Requesting? || p.pc.Renewing?) && r.start.StartFailed? && PersonSaidNo(r.start.error))
    || (MayWrite(p.pc) && !r.ok)
    || (src.DeviceGrant? && ReadsTheStore(p) && StoreRefused(d))
    || (src.TokenFile? && p.pc.Asking? &&
          (r.read.PermissionDenied? || (r.read.Contents? && AllSpace(r.read.text))))
    || (src.Custom? && p.pc.Asking? && r.bearer == Err(NeedsOperator))
    || (src.Custom? && p.pc.Forgetting? && r.forget == Err(NeedsOperator))
  }

  /** What no dial and no person at this node can change: a refusal after the one re-enrollment, a
      version or TLS mismatch, a source that will not part with its credential, a malformed one. */
  ghost predicate Hopeless(src: Source, p: Pod, r: Reply) {
    || (p.pc.Dialling? && r.dial.Down? && (r.dial.error == VersionMismatch || r.dial.error == NoTlsProvider))
    || (p.pc.Dialling? && r.dial.Down? && (r.dial.error == Unauthorized || r.dial.error == Revoked) && p.spent)
    || (p.pc.Forgetting? && (src.TokenFile? || src.StaticToken?))
    || (p.pc.Forgetting? && src.Custom? && (r.forget == Ok(false) || r.forget == Err(Fatal)))
    || (p.pc.Asking? && src.Custom? && r.bearer == Err(Fatal))
    || (p.pc.Asking? && src.TokenFile? && r.read.Contents? && ValidateCredential(r.read.text) == Err(Fatal))
  }

  /** The turn on which an ended process ended. */
  lemma {:induction false} LastTurn(cfg: Config, src: Source, turns: seq<Turn>) returns (i: nat)
    requires Ended(At(cfg, src, turns, |turns|).pc)
    ensures i < |turns| && !Ended(At(cfg, src, turns, i).pc)
    ensures At(cfg, src, turns, i + 1).pc == At(cfg, src, turns, |turns|).pc
    decreases |turns|
  {
    assert turns != [];
    var n := |turns| - 1;
    OneTurn(cfg, src, turns, n);
    if Ended(At(cfg, src, turns, n).pc) {
      assert turns[..n][..n] == turns[..n];
      i := LastTurn(cfg, src, turns[..n]);
      assert turns[..n][..i] == turns[..i] && turns[..n][..i + 1] == turns[..i + 1];
    } else {
      i := n;
    }
  }

  lemma EndingStep(cfg: Config, src: Source, p: Pod, d: Disk, r: Reply)
    requires Coherent(src, p) && !Ended(p.pc)
    ensures var pc := Respond(cfg, src, p, d, r).pod.pc;
            var lapses := if p.pc.Polling? then p.pc.renewals else 0;
            && !pc.Killed?
            && (pc.Exited? ==> pc.ending.Failed? && pc.ending != Failed(CredentialsFailed(Unavailable)))
            && (pc.Exited? && ExitCode(pc.ending) == 2 <==> NeedsPerson(src, lapses, p, d, r))
            && (pc.Exited? && ExitCode(pc.ending) == 1 <==> Hopeless(src, p, r))
  {
    RefusedExactlyWhenExposed(d);
    if r.read.Contents? {
      var _, _ := ValidateMeaning(r.read.text);
    }
    match p.pc
    case Asking => EndingAsk(src, p, d, r);
    case Forgetting(bearer) => EndingForget(src, p, bearer, d, r);
    case _ =>
  }

  lemma EndingAsk(src: Source, p: Pod, d: Disk, r: Reply)
    requires p.pc.Asking? && Coherent(src, p)
    requires Load(d) == Err(Store.Refused) <==> StoreRefused(d)
    requires r.read.Contents? ==> (ValidateCredential(r.read.text) == Err(NeedsOperator) <==> AllSpace(r.read.text))
    ensures var pc := AskStep(src, p, d, r).pc;
            && (pc.Exited? ==> pc.ending.Failed? && pc.ending != Failed(CredentialsFailed(Unavailable)))
            && (pc.Exited? && ExitCode(pc.ending) == 2 <==> NeedsPerson(src, 0, p, d, r))
            && (pc.Exited? && ExitCode(pc.ending) == 1 <==> Hopeless(src, p, r))
            && !pc.Killed?
  {
  }

  lemma EndingForget(src: Source, p: Pod, bearer: string, d: Disk, r: Reply)
    requires p.pc == Forgetting(bearer)
    requires Load(d) == Err(Store.Refused) <==> StoreRefused(d)
    ensures var pc := ForgetStep(src, p, bearer, d, r).pc;
            && (pc.Exited? ==> pc.ending.Failed? && pc.ending != Failed(CredentialsFailed(Unavailable)))
            && (pc.Exited? && ExitCode(pc.ending) == 2 <==> NeedsPerson(src, 0, p, d, r))
            && (pc.Exited? && ExitCode(pc.ending) == 1 <==> Hopeless(src, p, r))
            && !pc.Killed?
  {
  }

  /** The run ends at turn `i`, with 0 exactly for a stop, 2 exactly for what a person must answer (the
      lapse that ends an enrollment being its fourth), and 1 exactly for the hopeless rest. */
  ghost predicate EndsAt(cfg: Config, src: Source, turns: seq<Turn>, i: nat, code: int)
    requires i < |turns|
  {
    var p := At(cfg, src, turns, i);
    var a := turns[i].answer;
    && !Ended(p.pc) && At(cfg, src, turns, i + 1).pc.Exited?
    && (code == 0 <==> a.Stop?)
    && (code == 2 <==> a.Says? && NeedsPerson(src, Progress(cfg, src, turns[..i]).lapses, p, turns[i].disk, a.reply))
    && (code == 1 <==> a.Says? && Hopeless(src, p, a.reply))
  }

  /** Every run that exits does so for the reason its code gives, and a source that is merely unavailable
      never ends a run. */
  lemma ExitCodesAreSound(cfg: Config, src: Source, turns: seq<Turn>) returns (i: nat)
    requires At(cfg, src, turns, |turns|).pc.Exited?
    ensures i < |turns| && EndsAt(cfg, src, turns, i, ExitCode(At(cfg, src, turns, |turns|).pc.ending))
    ensures At(cfg, src, turns, |turns|).pc.ending != Failed(CredentialsFailed(Unavailable))
  {
    i := LastTurn(cfg, src, turns);
    OneTurn(cfg, src, turns, i);
    RunsAreCoherent(cfg, src, Absent, turns[..i]);
    EnrollmentIsBounded(cfg, src, turns[..i]);
    assert turns[..i][..i] == turns[..i];
    var p := At(cfg, src, turns, i);
    var a := turns[i].answer;
    if a.Says? {
      EndingStep(cfg, src, p, turns[i].disk, a.reply);
      assert p.pc.Polling? ==> Progress(cfg, src, turns[..i]).lapses == p.pc.renewals;
    }
  }

  /** A run exits with 0 if and only if a stop lands in it. */
  lemma ZeroExactlyForAStop(cfg: Config, src: Source, turns: seq<Turn>)
    ensures var pc := At(cfg, src, turns, |turns|).pc;
            pc.Exited? && ExitCode(pc.ending) == 0 <==> exists i :: 0 <= i < |turns| && StopLands(cfg, src, turns, i)
  {
    var pc := At(cfg, src, turns, |turns|).pc;
    if i :| 0 <= i < |turns| && StopLands(cfg, src, turns, i) {
      StopsAreNoticed(cfg, src, turns, i, |turns|);
    } else if pc.Exited? && ExitCode(pc.ending) == 0 {
      var i := ExitCodesAreSound(cfg, src, turns);
      StopsAreNoticed(cfg, src, turns, i, i + 1);
      assert !WithinOnePoll(src, At(cfg, src, turns, i).pc);
      assert StopLands(cfg, src, turns, i);
    }
  }
}
