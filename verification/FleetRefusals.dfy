/** When a pod can dial a secret it was refused on again. */
module FleetRefusals {
  import opened Wrappers
  import opened Store
  import opened Sources
  import opened Pod
  import opened PodRuns
  import opened Fleet
  import opened FleetRuns

  /** A load of this file comes back with this secret. */
  predicate Loadable(d: Disk, secret: string) {
    Load(d).Ok? && Load(d).value.Some? && Load(d).value.value.secret == secret
  }

  /** Someone outside the fleet puts in place a file that loads with this secret. One others can read, or
      of another version, does not count, since no pod would take it. */
  predicate PutsBack(l: Label, secret: string) {
    l.Outside? && Loadable(l.disk, secret)
  }

  /** The pod has the secret and will present it as it goes on. */
  predicate WillPresent(p: Pod, secret: string) {
    p.held.Some? && p.held.value.secret == secret && (p.pc.Asking? || p.pc.Dialling? || p.pc.Serving? || p.pc.Waiting?)
  }

  /** The secret has been granted and stored before, and pod `p` is as good as without it. */
  ghost predicate OutOfReach(s: State, p: nat, secret: string)
    requires p < |s.fleet.pods|
  {
    secret in s.ledger.stored && !Loadable(s.fleet.disk, secret) && !WillPresent(s.fleet.pods[p], secret)
  }

  /** A pod comes to present a secret by having it, by loading it, or by saving it. */
  lemma TurnPresents(cfg: Config, p: Pod, d: Disk, a: Answer, secret: string)
    requires Coherent(DeviceGrant, p)
    ensures WillPresent(Step(cfg, DeviceGrant, p, d, a).pod, secret) ==>
              || WillPresent(p, secret) || Loadable(d, secret)
              || (p.pc.Saving? && p.pc.credential.secret == secret)
  {
    if a.Says? && !Ended(p.pc) {
      match p.pc
      case Asking => AskedSecretIsStored(p, d, a.reply);
      case Forgetting(bearer) => AdoptedSecretIsStored(p, bearer, d, a.reply);
      case _ =>
    }
  }

  lemma SavedIsLoadable(c: Credential, secret: string)
    ensures Loadable(SavedFile(c), secret) ==> c.secret == secret
    ensures !Loadable(Absent, secret)
  {
  }

  lemma OutOfReachStep(cfg: Config, s: State, l: Label, p: nat, secret: string)
    requires Sound(s) && p < |s.fleet.pods| && OutOfReach(s, p, secret) && !PutsBack(l, secret)
    ensures OutOfReach(Next(cfg, s, l), p, secret)
  {
    if l.Turns? && l.pod < |s.fleet.pods| {
      var q := s.fleet.pods[l.pod];
      assert PodSound(q, s.ledger.forgotten[l.pod], s);
      DiskMoves(cfg, q, s.fleet.disk, l.answer);
      if q.pc.Saving? { SavedIsLoadable(q.pc.credential, secret); }
      TurnPresents(cfg, q, s.fleet.disk, l.answer, secret);
      hide Step, Coherent, Loadable;
      SavedIsLoadable(Credential(0, "", ""), secret);
    }
  }

  ghost predicate NeverPutBack(labels: seq<Label>, i: nat, j: nat, secret: string)
    requires j <= |labels|
  {
    forall k :: i <= k < j ==> !PutsBack(labels[k], secret)
  }

  lemma {:induction false} StaysOutOfReach(cfg: Config, pods: nat, disk: Disk, labels: seq<Label>, i: nat, j: nat, p: nat, secret: string)
    requires i <= j <= |labels| && p < pods && LegalRun(cfg, pods, disk, labels)
    requires OutOfReach(After(cfg, pods, disk, labels[..i]), p, secret) && NeverPutBack(labels, i, j, secret)
    ensures OutOfReach(After(cfg, pods, disk, labels[..j]), p, secret)
    decreases j - i
  {
    hide After, LegalRun, Next, Sound, OutOfReach, PutsBack;
    if i < j {
      StaysOutOfReach(cfg, pods, disk, labels, i, j - 1, p, secret);
      SoundAt(cfg, pods, disk, labels, j - 1);
      OutOfReachStep(cfg, After(cfg, pods, disk, labels[..j - 1]), labels[j - 1], p, secret);
    }
  }

  lemma DiallingIsPresenting(s: State, p: nat)
    requires Sound(s) && p < |s.fleet.pods| && s.fleet.pods[p].pc.Dialling?
    ensures WillPresent(s.fleet.pods[p], s.fleet.pods[p].pc.bearer)
  {
    assert PodSound(s.fleet.pods[p], s.ledger.forgotten[p], s);
  }

  /** Forgetting puts the secret out of reach. */
  lemma ForgettingStep(cfg: Config, s: State, p: nat, a: Answer)
    requires Sound(s) && p < |s.fleet.pods|
    requires ForgottenBy(s.fleet.pods[p], Next(cfg, s, Turns(p, a)).fleet.pods[p]).Some?
    ensures OutOfReach(Next(cfg, s, Turns(p, a)), p, s.fleet.pods[p].pc.bearer)
  {
    var q := s.fleet.pods[p];
    assert PodSound(q, s.ledger.forgotten[p], s);
    assert a.Says?;
    if q.pc.Forgetting? { AdoptedSecretIsStored(q, q.pc.bearer, s.fleet.disk, a.reply); }
  }

  // ---------------------------------------------------------------- the way back

  /** From here, with nobody outside touching the file, the pod can come to dial the secret. */
  ghost predicate CanDial(cfg: Config, pods: nat, disk: Disk, labels: seq<Label>, p: nat, secret: string)
    requires p < pods
  {
    exists more :: NobodyOutside(more) && LegalRun(cfg, pods, disk, labels + more) &&
                   After(cfg, pods, disk, labels + more).fleet.pods[p].pc == Dialling(secret)
  }

  predicate NobodyOutside(labels: seq<Label>) {
    forall k :: 0 <= k < |labels| ==> !labels[k].Outside?
  }

  predicate WithinReach(s: State, p: nat, secret: string)
    requires p < |s.fleet.pods|
  {
    Loadable(s.fleet.disk, secret) || WillPresent(s.fleet.pods[p], secret)
  }

  /** How many labels away the dial is. */
  function Away(p: Pod, secret: string): nat {
    if WillPresent(p, secret) then
      if p.pc.Dialling? then 0 else if p.pc.Asking? then 1 else if p.pc.Waiting? then 2 else 3
    else if p.pc.Asking? && p.held.None? then 1
    else if Ended(p.pc) then 2
    else 3
  }

  /** A way back: go on with the secret, or die and come back to load it. */
  function Toward(p: nat, pod: Pod, secret: string): Label {
    if WillPresent(pod, secret) || (pod.pc.Asking? && pod.held.None?) then Turns(p, Rollover(""))
    else if Ended(pod.pc) then Boot(p)
    else Turns(p, Crash(false))
  }

  lemma TowardTurn(cfg: Config, pod: Pod, d: Disk, p: nat, secret: string)
    requires Coherent(DeviceGrant, pod) && !Ended(pod.pc) && pod.pc != Dialling(secret)
    requires Loadable(d, secret) || WillPresent(pod, secret)
    ensures var l := Toward(p, pod, secret);
            && l.Turns? && l.pod == p && GrantBy(pod, l.answer).None?
            && var n := Step(cfg, DeviceGrant, pod, d, l.answer);
               && n.disk == d && (Loadable(d, secret) || WillPresent(n.pod, secret))
               && Away(n.pod, secret) < Away(pod, secret)
  {
  }

  lemma TowardStep(cfg: Config, s: State, p: nat, secret: string)
    requires Sound(s) && p < |s.fleet.pods| && WithinReach(s, p, secret) && s.fleet.pods[p].pc != Dialling(secret)
    ensures var l := Toward(p, s.fleet.pods[p], secret);
            && Legal(s, l) && !l.Outside?
            && WithinReach(Next(cfg, s, l), p, secret)
            && Away(Next(cfg, s, l).fleet.pods[p], secret) < Away(s.fleet.pods[p], secret)
  {
    assert PodSound(s.fleet.pods[p], s.ledger.forgotten[p], s);
    if !Ended(s.fleet.pods[p].pc) { TowardTurn(cfg, s.fleet.pods[p], s.fleet.disk, p, secret); }
    hide Step, Coherent, Loadable, Sound;
  }

  lemma {:induction false} Reach(cfg: Config, pods: nat, disk: Disk, labels: seq<Label>, p: nat, secret: string)
    requires p < pods && LegalRun(cfg, pods, disk, labels) && WithinReach(After(cfg, pods, disk, labels), p, secret)
    ensures CanDial(cfg, pods, disk, labels, p, secret)
    decreases Away(After(cfg, pods, disk, labels).fleet.pods[p], secret)
  {
    hide After, LegalRun, Next, Sound, Legal, Toward, Away, WithinReach;
    var s := After(cfg, pods, disk, labels);
    if s.fleet.pods[p].pc == Dialling(secret) {
      assert labels + [] == labels;
      assert NobodyOutside([]);
    } else {
      RunsAreSound(cfg, pods, disk, labels);
      var l := Toward(p, s.fleet.pods[p], secret);
      TowardStep(cfg, s, p, secret);
      Extend(cfg, pods, disk, labels, l);
      Reach(cfg, pods, disk, labels + [l], p, secret);
      var more :| NobodyOutside(more) && LegalRun(cfg, pods, disk, labels + [l] + more) &&
                  After(cfg, pods, disk, labels + [l] + more).fleet.pods[p].pc == Dialling(secret);
      assert labels + ([l] + more) == labels + [l] + more;
      assert NobodyOutside([l] + more);
    }
  }

  /** A secret once stored can come to be dialled, with no help from outside, exactly when a load would find
      it now or the pod already has it to present. */
  lemma CanDialExactly(cfg: Config, pods: nat, disk: Disk, labels: seq<Label>, p: nat, secret: string)
    requires p < pods && LegalRun(cfg, pods, disk, labels) && secret in After(cfg, pods, disk, labels).ledger.stored
    ensures CanDial(cfg, pods, disk, labels, p, secret) <==> WithinReach(After(cfg, pods, disk, labels), p, secret)
  {
    if WithinReach(After(cfg, pods, disk, labels), p, secret) {
      Reach(cfg, pods, disk, labels, p, secret);
    } else if more :| NobodyOutside(more) && LegalRun(cfg, pods, disk, labels + more) &&
                      After(cfg, pods, disk, labels + more).fleet.pods[p].pc == Dialling(secret) {
      hide After, LegalRun;
      var whole := labels + more;
      assert whole[..|labels|] == labels && whole[..|whole|] == whole;
      assert NeverPutBack(whole, |labels|, |whole|, secret);
      StaysOutOfReach(cfg, pods, disk, whole, |labels|, |whole|, p, secret);
      RunsAreSound(cfg, pods, disk, whole);
      DiallingIsPresenting(After(cfg, pods, disk, whole), p);
      assert false;
    }
  }

  /** The forget at label `i` came back `Ok(true)`. */
  ghost predicate ForgotAt(cfg: Config, pods: nat, disk: Disk, labels: seq<Label>, i: nat, p: nat, secret: string)
    requires p < pods
  {
    && i < |labels| && labels[i].Turns? && labels[i].pod == p
    && ForgottenBy(After(cfg, pods, disk, labels[..i]).fleet.pods[p], After(cfg, pods, disk, labels[..i + 1]).fleet.pods[p]) ==
       Some(secret)
  }

  lemma ForgottenIsOutOfReach(cfg: Config, pods: nat, disk: Disk, labels: seq<Label>, i: nat, p: nat, secret: string)
    requires p < pods && LegalRun(cfg, pods, disk, labels) && ForgotAt(cfg, pods, disk, labels, i, p, secret)
    ensures OutOfReach(After(cfg, pods, disk, labels[..i + 1]), p, secret)
  {
    hide LegalRun, Sound, OutOfReach;
    SoundAt(cfg, pods, disk, labels, i);
    ForgettingStep(cfg, After(cfg, pods, disk, labels[..i]), p, labels[i].answer);
  }

  lemma BackInReachIsPutBack(cfg: Config, pods: nat, disk: Disk, labels: seq<Label>, i: nat, j: nat, p: nat, secret: string)
    requires p < pods && LegalRun(cfg, pods, disk, labels) && ForgotAt(cfg, pods, disk, labels, i, p, secret)
    requires i < j <= |labels| && WithinReach(After(cfg, pods, disk, labels[..j]), p, secret)
    ensures exists k :: i < k < j && PutsBack(labels[k], secret)
  {
    hide After, LegalRun, PutsBack;
    ForgottenIsOutOfReach(cfg, pods, disk, labels, i, p, secret);
    if NeverPutBack(labels, i + 1, j, secret) {
      StaysOutOfReach(cfg, pods, disk, labels, i + 1, j, p, secret);
    }
  }

  /** Once a pod's forget of a secret has come back `Ok(true)`, that pod dials the secret again, adopted,
      loaded, granted or after a restart, only if someone outside the fleet has put a file that loads with
      it back into the store since. */
  lemma RefusedSecretIsNotRedialled(cfg: Config, pods: nat, disk: Disk, labels: seq<Label>, i: nat, j: nat, p: nat, secret: string)
    requires p < pods && LegalRun(cfg, pods, disk, labels) && ForgotAt(cfg, pods, disk, labels, i, p, secret)
    requires i < j <= |labels| && After(cfg, pods, disk, labels[..j]).fleet.pods[p].pc == Dialling(secret)
    ensures exists k :: i < k < j && PutsBack(labels[k], secret)
  {
    SoundAt(cfg, pods, disk, labels, j);
    hide LegalRun, ForgotAt, Sound, PutsBack;
    DiallingIsPresenting(After(cfg, pods, disk, labels[..j]), p);
    BackInReachIsPutBack(cfg, pods, disk, labels, i, j, p, secret);
  }

  lemma ForgottenWasStored(cfg: Config, pods: nat, disk: Disk, labels: seq<Label>, i: nat, j: nat, p: nat, secret: string)
    requires p < pods && LegalRun(cfg, pods, disk, labels) && ForgotAt(cfg, pods, disk, labels, i, p, secret) && i < j <= |labels|
    ensures secret in After(cfg, pods, disk, labels[..j]).ledger.stored
  {
    hide LegalRun, ForgotAt;
    ForgottenIsOutOfReach(cfg, pods, disk, labels, i, p, secret);
    StoredStays(cfg, pods, disk, labels, i + 1, j, secret);
  }

  lemma StoredStep(cfg: Config, s: State, l: Label)
    requires WellFormed(s)
    ensures s.ledger.stored <= Next(cfg, s, l).ledger.stored
  {
    hide Step;
  }

  lemma {:induction false} StoredStays(cfg: Config, pods: nat, disk: Disk, labels: seq<Label>, i: nat, j: nat, secret: string)
    requires i <= j <= |labels| && secret in After(cfg, pods, disk, labels[..i]).ledger.stored
    ensures secret in After(cfg, pods, disk, labels[..j]).ledger.stored
    decreases j - i
  {
    hide After, Next;
    if i < j {
      StoredStays(cfg, pods, disk, labels, i, j - 1, secret);
      OneLabel(cfg, pods, disk, labels, j - 1);
      StoredStep(cfg, After(cfg, pods, disk, labels[..j - 1]), labels[j - 1]);
    }
  }

  /** And it can dial it again, with no more help from outside, exactly when that has happened and the file
      is still there or the pod has already taken the secret up; so right after it has happened, always. */
  lemma RedialledExactlyWhenPutBack(cfg: Config, pods: nat, disk: Disk, labels: seq<Label>, i: nat, p: nat, secret: string)
    requires p < pods && LegalRun(cfg, pods, disk, labels) && ForgotAt(cfg, pods, disk, labels, i, p, secret)
    ensures CanDial(cfg, pods, disk, labels, p, secret) <==>
            (exists k :: i < k < |labels| && PutsBack(labels[k], secret)) && WithinReach(After(cfg, pods, disk, labels), p, secret)
    ensures PutsBack(labels[|labels| - 1], secret) ==> CanDial(cfg, pods, disk, labels, p, secret)
  {
    var n := |labels|;
    assert labels[..n] == labels;
    ForgottenWasStored(cfg, pods, disk, labels, i, n, p, secret);
    CanDialExactly(cfg, pods, disk, labels, p, secret);
    if PutsBack(labels[n - 1], secret) { OneLabel(cfg, pods, disk, labels, n - 1); }
    hide After, LegalRun, ForgotAt, CanDial;
    if WithinReach(After(cfg, pods, disk, labels), p, secret) {
      BackInReachIsPutBack(cfg, pods, disk, labels, i, n, p, secret);
    }
  }

  // ---------------------------------------------------------------- a run in which it happens

  lemma RestoredFile(cfg: Config, labels: seq<Label>) returns (longer: seq<Label>)
    requires LegalRun(cfg, 2, SavedFile(OLD_CREDENTIAL), labels)
    requires "zc_old" in After(cfg, 2, SavedFile(OLD_CREDENTIAL), labels).ledger.stored
    ensures longer == labels + [Outside(SavedFile(OLD_CREDENTIAL))] && LegalRun(cfg, 2, SavedFile(OLD_CREDENTIAL), longer)
    ensures After(cfg, 2, SavedFile(OLD_CREDENTIAL), longer).fleet ==
            After(cfg, 2, SavedFile(OLD_CREDENTIAL), labels).fleet.(disk := SavedFile(OLD_CREDENTIAL))
  {
    hide After, LegalRun;
    longer := labels + [Outside(SavedFile(OLD_CREDENTIAL))];
    Extend(cfg, 2, SavedFile(OLD_CREDENTIAL), labels, Outside(SavedFile(OLD_CREDENTIAL)));
  }

  lemma ClearedAndReloaded(cfg: Config)
    ensures var a := Rollover("zc_new");
            && Step(cfg, DeviceGrant, AboutToForget(cfg), SavedFile(OLD_CREDENTIAL), a) ==
               Situation(AboutToClear(cfg), SavedFile(OLD_CREDENTIAL))
            && Step(cfg, DeviceGrant, AboutToClear(cfg), SavedFile(OLD_CREDENTIAL), a) ==
               Situation(AboutToClear(cfg).(pc := Asking), Absent)
            && Step(cfg, DeviceGrant, AboutToClear(cfg).(pc := Asking), SavedFile(OLD_CREDENTIAL), a) ==
               Situation(AboutToForget(cfg).(pc := Dialling("zc_old")), SavedFile(OLD_CREDENTIAL))
            && SecretsOn(SavedFile(OLD_CREDENTIAL)) == {"zc_old"}
  {
  }

  /** A pod is refused on a secret and forgets it, someone puts a backup of the file back, and the pod dials
      the secret again. */
  lemma RestoredSecretIsRedialled(cfg: Config) returns (labels: seq<Label>, i: nat)
    ensures var disk := SavedFile(OLD_CREDENTIAL);
            && LegalRun(cfg, 2, disk, labels) && ForgotAt(cfg, 2, disk, labels, i, 0, "zc_old")
            && After(cfg, 2, disk, labels).fleet.pods[0].pc == Dialling("zc_old")
  {
    var disk := SavedFile(OLD_CREDENTIAL);
    var a := Rollover("zc_new");
    hide After, LegalRun, Step;
    ClearedAndReloaded(cfg);
    labels := BothRefused(cfg);
    labels := Play(cfg, disk, labels, 0, a, AboutToClear(cfg), disk);
    i := |labels|;
    var before := labels;
    labels := Play(cfg, disk, labels, 0, a, AboutToClear(cfg).(pc := Asking), Absent);
    var forgot := labels;
    labels := RestoredFile(cfg, labels);
    labels := Play(cfg, disk, labels, 0, a, AboutToForget(cfg).(pc := Dialling("zc_old")), disk);
    assert labels[..i] == before && labels[..i + 1] == forgot;
  }
}
