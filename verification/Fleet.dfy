/** Any number of self-enrolling pods over one volume, each a machine of module `Pod`, interleaved at
    its await points and store calls, crashing and being restarted (src/enroll.rs:120-241). */
module Fleet {
  import opened Wrappers
  import opened Store
  import opened Pod
  import opened PodRuns

  datatype Fleet = Fleet(pods: seq<Pod>, disk: Disk)

  /** One pod's turn, a restart of an ended one, or a change to the file from outside the fleet. */
  datatype Label = Turns(pod: nat, answer: Answer) | Boot(pod: nat) | Outside(disk: Disk)

  /** What has happened so far, kept only to state properties: the secrets there are, those that ever
      stood in the store, those each pod was refused and then forgot and nobody has put back since, and
      the grants whose save failed or was cut short with how often either happened. */
  datatype Ledger = Ledger(
    granted: set<string>,
    stored: set<string>,
    forgotten: seq<set<string>>,
    lost: set<string>,
    crashes: nat,
    failedSaves: nat)

  datatype State = State(fleet: Fleet, ledger: Ledger)

  function SecretsOn(d: Disk): set<string> {
    if SecretOn(d).Some? then {SecretOn(d).value} else {}
  }

  function Start(cfg: Config, pods: nat, disk: Disk): State {
    State(Fleet(seq(pods, i => Fresh(cfg)), disk),
          Ledger(SecretsOn(disk), SecretsOn(disk), seq(pods, i => {}), {}, 0, 0))
  }

  predicate WellFormed(s: State) {
    |s.ledger.forgotten| == |s.fleet.pods|
  }

  /** The secret this turn grants, if it grants one. */
  function GrantBy(p: Pod, a: Answer): Option<string> {
    if p.pc.Polling? && a.Says? && a.reply.poll.Granted? then Some(a.reply.poll.credential.secret) else None
  }

  /** A forget that comes back `Ok(true)`, with the secret it was about. */
  function ForgottenBy(p: Pod, q: Pod): Option<string> {
    if (p.pc.Forgetting? || p.pc.Clearing?) && q.pc.Asking? then Some(p.pc.bearer) else None
  }

  function Just(o: Option<string>): set<string> {
    if o.Some? then {o.value} else {}
  }

  /** A grant on its way to the store that this turn keeps from getting there. */
  function LostBy(p: Pod, a: Answer): set<string> {
    if p.pc.Saving? && ((a.Says? && !a.reply.ok) || (a.Crash? && !a.landed))
    then {p.pc.credential.secret} else {}
  }

  function PodTurn(cfg: Config, s: State, i: nat, a: Answer): State
    requires WellFormed(s) && i < |s.fleet.pods|
  {
    var p := s.fleet.pods[i];
    var next := Step(cfg, DeviceGrant, p, s.fleet.disk, a);
    var l := s.ledger;
    State(Fleet(s.fleet.pods[i := next.pod], next.disk),
          Ledger(l.granted + Just(GrantBy(p, a)),
                 l.stored + SecretsOn(next.disk),
                 l.forgotten[i := l.forgotten[i] + Just(ForgottenBy(p, next.pod))],
                 l.lost + LostBy(p, a),
                 l.crashes + (if a.Crash? then 1 else 0),
                 l.failedSaves + (if p.pc.Saving? && a.Says? && !a.reply.ok then 1 else 0)))
  }

  function Next(cfg: Config, s: State, l: Label): State
    requires WellFormed(s)
  {
    match l
    case Turns(i, a) => if i < |s.fleet.pods| then PodTurn(cfg, s, i, a) else s
    case Boot(i) =>
      if i < |s.fleet.pods| && Ended(s.fleet.pods[i].pc)
      then s.(fleet := s.fleet.(pods := s.fleet.pods[i := Fresh(cfg)])) else s
    case Outside(d) =>
      var l := s.ledger;
      State(s.fleet.(disk := d),
            l.(granted := l.granted + SecretsOn(d),
               stored := l.stored + SecretsOn(d),
               forgotten := seq(|l.forgotten|, i requires 0 <= i < |l.forgotten| => l.forgotten[i] - SecretsOn(d))))
  }

  /** The server grants a secret to one pod once, so never one that is about already, and nobody else
      has it before that pod has stored it. Otherwise anything may happen to the file from outside: it may
      be hidden, exposed, corrupted, removed, replaced, or restored from long ago. */
  ghost predicate Legal(s: State, l: Label) {
    match l
    case Turns(i, a) =>
      i < |s.fleet.pods| && GrantBy(s.fleet.pods[i], a).Some? ==>
        GrantBy(s.fleet.pods[i], a).value !in s.ledger.granted
    case Boot(_) => true
    case Outside(d) => SecretsOn(d) !! s.ledger.granted - s.ledger.stored
  }

  /** The state after a run of labels. */
  ghost function After(cfg: Config, pods: nat, disk: Disk, labels: seq<Label>): (s: State)
    ensures WellFormed(s) && |s.fleet.pods| == pods
  {
    if labels == [] then Start(cfg, pods, disk)
    else Next(cfg, After(cfg, pods, disk, labels[..|labels| - 1]), labels[|labels| - 1])
  }

  ghost predicate LegalRun(cfg: Config, pods: nat, disk: Disk, labels: seq<Label>) {
    forall k :: 0 <= k < |labels| ==> Legal(After(cfg, pods, disk, labels[..k]), labels[k])
  }

  lemma LegalPrefix(cfg: Config, pods: nat, disk: Disk, labels: seq<Label>, n: nat)
    requires n <= |labels| && LegalRun(cfg, pods, disk, labels)
    ensures LegalRun(cfg, pods, disk, labels[..n])
  {
    forall k | 0 <= k < n
      ensures Legal(After(cfg, pods, disk, labels[..n][..k]), labels[..n][k])
    {
      assert labels[..n][..k] == labels[..k];
    }
  }

  lemma OneLabel(cfg: Config, pods: nat, disk: Disk, labels: seq<Label>, k: nat)
    requires k < |labels|
    ensures After(cfg, pods, disk, labels[..k + 1]) == Next(cfg, After(cfg, pods, disk, labels[..k]), labels[k])
  {
    assert labels[..k + 1][..k] == labels[..k];
  }

  // ---------------------------------------------------------------- the fleet invariant

  /** Where pod `p`'s secrets may be: what it holds, dials or is forgetting has been in the store, and
      what it is about to save never has. */
  ghost predicate SecretsInPlace(p: Pod, forgotten: set<string>, granted: set<string>, stored: set<string>, d: Disk) {
    && (p.held.Some? ==> p.held.value.secret in stored && p.held.value.secret !in forgotten)
    && (p.pc.Clearing? ==> p.pc.bearer in stored)
    && (p.pc.Discarding? && p.pc.after.ThenForget? ==> p.pc.after.bearer in stored)
    && (p.pc.Saving? ==> p.pc.credential.secret in granted - stored)
    && forgotten <= stored - SecretsOn(d)
  }

  ghost predicate PodSound(p: Pod, forgotten: set<string>, s: State) {
    Coherent(DeviceGrant, p) && SecretsInPlace(p, forgotten, s.ledger.granted, s.ledger.stored, s.fleet.disk)
  }

  ghost predicate Sound(s: State) {
    && WellFormed(s)
    && SecretsOn(s.fleet.disk) <= s.ledger.stored <= s.ledger.granted
    && (forall i :: 0 <= i < |s.fleet.pods| ==> PodSound(s.fleet.pods[i], s.ledger.forgotten[i], s))
    && (forall i, j :: 0 <= i < j < |s.fleet.pods| && s.fleet.pods[i].pc.Saving? && s.fleet.pods[j].pc.Saving? ==>
          s.fleet.pods[i].pc.credential.secret != s.fleet.pods[j].pc.credential.secret)
    && (forall x :: x in s.ledger.granted - s.ledger.stored ==> x in s.ledger.lost || x in OnTheWay(s))
    && |s.ledger.lost| <= s.ledger.crashes + s.ledger.failedSaves
  }

  /** Grants some pod is holding on its way to the store. */
  ghost function OnTheWay(s: State): set<string> {
    set i | 0 <= i < |s.fleet.pods| && s.fleet.pods[i].pc.Saving? :: s.fleet.pods[i].pc.credential.secret
  }

  /** What one turn does to the secret on disk: it stays, it goes, or the secret being saved arrives. */
  lemma DiskMoves(cfg: Config, p: Pod, d: Disk, a: Answer)
    ensures var e := Step(cfg, DeviceGrant, p, d, a).disk;
            e == d || e == Absent || (p.pc.Saving? && e == SavedFile(p.pc.credential))
  {
  }

  /** The turning pod itself, on the state its turn leaves. */
  lemma TurnerStaysSound(cfg: Config, p: Pod, forgotten: set<string>, granted: set<string>, stored: set<string>, d: Disk, a: Answer)
    requires Coherent(DeviceGrant, p) && SecretsInPlace(p, forgotten, granted, stored, d)
    requires SecretsOn(d) <= stored <= granted
    requires GrantBy(p, a).Some? ==> GrantBy(p, a).value !in granted
    ensures var n := Step(cfg, DeviceGrant, p, d, a);
            SecretsInPlace(n.pod, forgotten + Just(ForgottenBy(p, n.pod)), granted + Just(GrantBy(p, a)),
                           stored + SecretsOn(n.disk), n.disk)
  {
    var n := Step(cfg, DeviceGrant, p, d, a);
    DiskMoves(cfg, p, d, a);
    if a.Says? && !Ended(p.pc) {
      match p.pc
      case Asking => AskedSecretIsStored(p, d, a.reply);
      case Forgetting(bearer) => AdoptedSecretIsStored(p, bearer, d, a.reply);
      case Polling(_) => assert n.pod.held == p.held && n.disk == d;
      case Dialling(_) => assert n.pod.held == p.held && n.disk == d;
      case Discarding(_) => assert n.pod.held == None;
      case Saving(_) =>
      case _ =>
    }
  }

  lemma AskedSecretIsStored(p: Pod, d: Disk, r: Reply)
    requires p.pc.Asking?
    ensures var q := AskStep(DeviceGrant, p, d, r);
            && (q.held == p.held || (q.held.Some? && SecretsOn(d) == {q.held.value.secret}))
            && !q.pc.Clearing? && !q.pc.Saving? && !q.pc.Asking? && (q.pc.Discarding? ==> q.pc.after.ThenEnroll?)
  {
  }

  lemma AdoptedSecretIsStored(p: Pod, bearer: string, d: Disk, r: Reply)
    requires p.pc == Forgetting(bearer) && Coherent(DeviceGrant, p)
    ensures var q := ForgetStep(DeviceGrant, p, bearer, d, r);
            && !q.pc.Saving?
            && (q.held.Some? ==> SecretsOn(d) == {q.held.value.secret} && q.held.value.secret != bearer)
            && (q.pc.Asking? ==> q.held.Some?)
            && (q.pc.Clearing? ==> q.pc.bearer == bearer)
            && (q.pc.Discarding? ==> q.pc.after == ThenForget(bearer))
  {
  }

  /** Every other pod, on the state someone else's turn leaves. */
  lemma OthersStaySound(cfg: Config, s: State, i: nat, a: Answer, j: nat)
    requires Sound(s) && i < |s.fleet.pods| && j < |s.fleet.pods| && i != j
    ensures var t := PodTurn(cfg, s, i, a); PodSound(t.fleet.pods[j], t.ledger.forgotten[j], t)
  {
    var p := s.fleet.pods[i];
    var q := s.fleet.pods[j];
    assert PodSound(p, s.ledger.forgotten[i], s) && PodSound(q, s.ledger.forgotten[j], s);
    DiskMoves(cfg, p, s.fleet.disk, a);
    hide Step, Coherent;
  }

  lemma LedgerStaysSound(cfg: Config, s: State, i: nat, a: Answer)
    requires Sound(s) && i < |s.fleet.pods| && Legal(s, Turns(i, a))
    ensures var t := PodTurn(cfg, s, i, a);
            && SecretsOn(t.fleet.disk) <= t.ledger.stored <= t.ledger.granted
            && (forall x :: x in t.ledger.granted - t.ledger.stored ==> x in t.ledger.lost || x in OnTheWay(t))
            && |t.ledger.lost| <= t.ledger.crashes + t.ledger.failedSaves
  {
    var p := s.fleet.pods[i];
    var t := PodTurn(cfg, s, i, a);
    assert PodSound(p, s.ledger.forgotten[i], s);
    DiskMoves(cfg, p, s.fleet.disk, a);
    hide Step, Coherent;
    forall x | x in t.ledger.granted - t.ledger.stored
      ensures x in t.ledger.lost || x in OnTheWay(t)
    {
      if GrantBy(p, a) == Some(x) {
        GrantIsSaved(cfg, p, s.fleet.disk, a);
        assert t.fleet.pods[i].pc.Saving?;
      } else if x !in s.ledger.lost {
        var k :| 0 <= k < |s.fleet.pods| && s.fleet.pods[k].pc.Saving? && s.fleet.pods[k].pc.credential.secret == x;
        if k == i {
          SavingResolves(cfg, p, s.fleet.disk, a);
        }
        assert (t.fleet.pods[k].pc.Saving? && t.fleet.pods[k].pc.credential.secret == x) || x in LostBy(p, a);
      }
    }
  }

  /** A save under way stays under way, fails or dies unlanded, or lands. */
  lemma SavingResolves(cfg: Config, p: Pod, d: Disk, a: Answer)
    requires p.pc.Saving?
    ensures var n := Step(cfg, DeviceGrant, p, d, a);
            || n.pod.pc == p.pc
            || LostBy(p, a) == {p.pc.credential.secret}
            || SecretsOn(n.disk) == {p.pc.credential.secret}
  {
  }

  /** What a pod is about to save it was already about to save, or has just been granted. */
  lemma SavingStarts(cfg: Config, p: Pod, d: Disk, a: Answer)
    ensures var q := Step(cfg, DeviceGrant, p, d, a).pod;
            q.pc.Saving? ==> q.pc == p.pc || GrantBy(p, a) == Some(q.pc.credential.secret)
  {
  }

  /** A grant takes a polling pod to saving it. */
  lemma GrantIsSaved(cfg: Config, p: Pod, d: Disk, a: Answer)
    requires GrantBy(p, a).Some?
    ensures var n := Step(cfg, DeviceGrant, p, d, a);
            n.pod.pc.Saving? && n.pod.pc.credential.secret == GrantBy(p, a).value && n.disk == d
  {
  }

  lemma SaversStayApart(cfg: Config, s: State, i: nat, a: Answer)
    requires Sound(s) && i < |s.fleet.pods| && Legal(s, Turns(i, a))
    ensures var t := PodTurn(cfg, s, i, a);
            forall k, j :: 0 <= k < j < |t.fleet.pods| && t.fleet.pods[k].pc.Saving? && t.fleet.pods[j].pc.Saving? ==>
              t.fleet.pods[k].pc.credential.secret != t.fleet.pods[j].pc.credential.secret
  {
    SavingStarts(cfg, s.fleet.pods[i], s.fleet.disk, a);
    hide Step, Coherent;
    forall j | 0 <= j < |s.fleet.pods| && s.fleet.pods[j].pc.Saving?
      ensures s.fleet.pods[j].pc.credential.secret in s.ledger.granted
    {
      assert PodSound(s.fleet.pods[j], s.ledger.forgotten[j], s);
    }
  }

  lemma NextStaysSound(cfg: Config, s: State, l: Label)
    requires Sound(s) && Legal(s, l)
    ensures Sound(Next(cfg, s, l))
  {
    var t := Next(cfg, s, l);
    match l
    case Turns(i, a) =>
      if i < |s.fleet.pods| {
        forall j | 0 <= j < |t.fleet.pods|
          ensures PodSound(t.fleet.pods[j], t.ledger.forgotten[j], t)
        {
          if j == i {
            assert PodSound(s.fleet.pods[i], s.ledger.forgotten[i], s);
            StepKeepsCoherent(cfg, DeviceGrant, s.fleet.pods[i], s.fleet.disk, a);
            TurnerStaysSound(cfg, s.fleet.pods[i], s.ledger.forgotten[i], s.ledger.granted, s.ledger.stored, s.fleet.disk, a);
          } else {
            OthersStaySound(cfg, s, i, a, j);
          }
        }
        LedgerStaysSound(cfg, s, i, a);
        SaversStayApart(cfg, s, i, a);
      }
    case Boot(i) =>
      if t != s {
        forall j | 0 <= j < |t.fleet.pods|
          ensures PodSound(t.fleet.pods[j], t.ledger.forgotten[j], t)
        {
          assert PodSound(s.fleet.pods[j], s.ledger.forgotten[j], s);
        }
        forall x | x in OnTheWay(s) ensures x in OnTheWay(t) {
          var k :| 0 <= k < |s.fleet.pods| && s.fleet.pods[k].pc.Saving? && s.fleet.pods[k].pc.credential.secret == x;
          assert t.fleet.pods[k] == s.fleet.pods[k];
        }
      }
    case Outside(d) =>
      forall j | 0 <= j < |t.fleet.pods|
        ensures PodSound(t.fleet.pods[j], t.ledger.forgotten[j], t)
      {
        assert PodSound(s.fleet.pods[j], s.ledger.forgotten[j], s);
      }
      assert OnTheWay(t) == OnTheWay(s);
  }

  lemma {:induction false} RunsAreSound(cfg: Config, pods: nat, disk: Disk, labels: seq<Label>)
    requires LegalRun(cfg, pods, disk, labels)
    ensures Sound(After(cfg, pods, disk, labels))
    decreases |labels|
  {
    if labels != [] {
      var n := |labels| - 1;
      LegalPrefix(cfg, pods, disk, labels, n);
      RunsAreSound(cfg, pods, disk, labels[..n]);
      assert Legal(After(cfg, pods, disk, labels[..n]), labels[n]);
      NextStaysSound(cfg, After(cfg, pods, disk, labels[..n]), labels[n]);
    }
  }
}
