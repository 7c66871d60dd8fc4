/** Safety of the shared volume over whole fleet runs, and exactly where it stops. */
module FleetRuns {
  import opened Wrappers
  import opened Store
  import opened Sources
  import opened Pod
  import opened PodRuns
  import opened Fleet

  // ---------------------------------------------------------------- gone for good

  lemma SoundAt(cfg: Config, pods: nat, disk: Disk, labels: seq<Label>, k: nat)
    requires k <= |labels| && LegalRun(cfg, pods, disk, labels)
    ensures Sound(After(cfg, pods, disk, labels[..k]))
    ensures k < |labels| ==>
              && Legal(After(cfg, pods, disk, labels[..k]), labels[k])
              && After(cfg, pods, disk, labels[..k + 1]) == Next(cfg, After(cfg, pods, disk, labels[..k]), labels[k])
  {
    LegalPrefix(cfg, pods, disk, labels, k);
    RunsAreSound(cfg, pods, disk, labels[..k]);
    if k < |labels| { OneLabel(cfg, pods, disk, labels, k); }
  }

  ghost predicate Gone(s: State, secret: string) {
    secret in s.ledger.stored - SecretsOn(s.fleet.disk)
  }

  /** Someone outside the fleet puts a file with this secret in place. */
  predicate Restores(l: Label, secret: string) {
    l.Outside? && SecretOn(l.disk) == Some(secret)
  }

  lemma GoneStep(cfg: Config, s: State, l: Label, secret: string)
    requires Sound(s) && Legal(s, l) && Gone(s, secret)
    ensures Gone(Next(cfg, s, l), secret) <==> !Restores(l, secret)
  {
    if l.Turns? && l.pod < |s.fleet.pods| {
      assert PodSound(s.fleet.pods[l.pod], s.ledger.forgotten[l.pod], s);
      DiskMoves(cfg, s.fleet.pods[l.pod], s.fleet.disk, l.answer);
    }
  }

  lemma GoneAt(cfg: Config, pods: nat, disk: Disk, labels: seq<Label>, k: nat, secret: string)
    requires k < |labels| && LegalRun(cfg, pods, disk, labels)
    requires Gone(After(cfg, pods, disk, labels[..k]), secret)
    ensures Gone(After(cfg, pods, disk, labels[..k + 1]), secret) <==> !Restores(labels[k], secret)
  {
    SoundAt(cfg, pods, disk, labels, k);
    GoneStep(cfg, After(cfg, pods, disk, labels[..k]), labels[k], secret);
  }

  ghost predicate StaysGone(cfg: Config, pods: nat, disk: Disk, labels: seq<Label>, i: nat, j: nat, secret: string)
    requires j <= |labels|
  {
    forall k :: i <= k <= j ==> Gone(After(cfg, pods, disk, labels[..k]), secret)
  }

  predicate NeverRestored(labels: seq<Label>, i: nat, j: nat, secret: string)
    requires j <= |labels|
  {
    forall k :: i <= k < j ==> !Restores(labels[k], secret)
  }

  lemma StillGone(cfg: Config, pods: nat, disk: Disk, labels: seq<Label>, i: nat, j: nat, secret: string)
    requires i <= j <= |labels| && StaysGone(cfg, pods, disk, labels, i, j, secret)
    ensures Gone(After(cfg, pods, disk, labels[..j]), secret)
  {
  }

  lemma OneMoreGone(cfg: Config, pods: nat, disk: Disk, labels: seq<Label>, i: nat, j: nat, secret: string)
    requires i <= j < |labels|
    ensures StaysGone(cfg, pods, disk, labels, i, j + 1, secret) <==>
            StaysGone(cfg, pods, disk, labels, i, j, secret) && Gone(After(cfg, pods, disk, labels[..j + 1]), secret)
  {
    hide After, Gone;
  }

  /** A secret that has left the store stays out of it exactly until someone outside the fleet restores
      it: no pod, whatever it held or was in the middle of, ever brings one back. */
  lemma {:induction false} GoneUntilRestored(cfg: Config, pods: nat, disk: Disk, labels: seq<Label>, i: nat, j: nat, secret: string)
    requires i <= j <= |labels| && LegalRun(cfg, pods, disk, labels)
    requires Gone(After(cfg, pods, disk, labels[..i]), secret)
    ensures StaysGone(cfg, pods, disk, labels, i, j, secret) <==> NeverRestored(labels, i, j, secret)
    decreases j - i
  {
    hide LegalRun, After, Gone;
    if i < j {
      GoneUntilRestored(cfg, pods, disk, labels, i, j - 1, secret);
      OneMoreGone(cfg, pods, disk, labels, i, j - 1, secret);
      hide StaysGone;
      if NeverRestored(labels, i, j - 1, secret) {
        StillGone(cfg, pods, disk, labels, i, j - 1, secret);
        GoneAt(cfg, pods, disk, labels, j - 1, secret);
      }
    }
  }

  /** The grants that neither reached the store nor are on their way to it are at most the crashes
      plus the failed saves. */
  lemma LostGrantsAreCounted(cfg: Config, pods: nat, disk: Disk, labels: seq<Label>)
    requires LegalRun(cfg, pods, disk, labels)
    ensures var s := After(cfg, pods, disk, labels);
            && |s.ledger.granted - s.ledger.stored - OnTheWay(s)| <= s.ledger.crashes + s.ledger.failedSaves
            && (forall i :: 0 <= i < pods && s.fleet.pods[i].pc.Dialling? ==> s.fleet.pods[i].pc.bearer in s.ledger.stored)
  {
    RunsAreSound(cfg, pods, disk, labels);
    var s := After(cfg, pods, disk, labels);
    SubsetSize(s.ledger.granted - s.ledger.stored - OnTheWay(s), s.ledger.lost);
    forall i | 0 <= i < pods && s.fleet.pods[i].pc.Dialling?
      ensures s.fleet.pods[i].pc.bearer in s.ledger.stored
    {
      assert PodSound(s.fleet.pods[i], s.ledger.forgotten[i], s);
    }
  }

  lemma SubsetSize<T>(a: set<T>, b: set<T>)
    requires a <= b
    ensures |a| <= |b|
  {
    assert b == a + (b - a);
    assert |b| == |a| + |b - a|;
  }

  // ---------------------------------------------------------------- losing a credential

  /** From reading the store to the write that reading led to. */
  predicate Writing(pc: Pc) {
    Enrolling(pc) || MayWrite(pc)
  }

  /** The secret a clear under way is about: none when it makes room for an enrollment, and none when
      what is under way is an enrollment. */
  function Refused(pc: Pc): Option<string> {
    match pc
    case Clearing(bearer) => Some(bearer)
    case Discarding(ThenForget(bearer)) => Some(bearer)
    case _ => None
  }

  /** Pod `p` read the store at turn `l`, and at `j` has still to write what it then decided on. */
  ghost predicate LastRead(cfg: Config, pods: nat, disk: Disk, labels: seq<Label>, l: nat, j: nat, p: nat)
    requires p < pods
  {
    && l < j <= |labels| && labels[l].Turns? && labels[l].pod == p && labels[l].answer.Says?
    && ReadsTheStore(After(cfg, pods, disk, labels[..l]).fleet.pods[p])
    && (forall k :: l < k <= j ==> Writing(After(cfg, pods, disk, labels[..k]).fleet.pods[p].pc))
  }

  predicate Lands(a: Answer) {
    (a.Says? && a.reply.ok) || (a.Crash? && a.landed)
  }

  /** At `k` a pod's save of `c` lands. */
  ghost predicate SavedAt(cfg: Config, pods: nat, disk: Disk, labels: seq<Label>, k: nat, c: Credential)
    requires k < |labels|
  {
    && labels[k].Turns? && labels[k].pod < pods && Lands(labels[k].answer)
    && After(cfg, pods, disk, labels[..k]).fleet.pods[labels[k].pod].pc == Saving(c)
  }

  /** At `k` someone outside the fleet makes `c` what a load finds. */
  ghost predicate PutInAt(cfg: Config, pods: nat, disk: Disk, labels: seq<Label>, k: nat, c: Credential)
    requires k < |labels|
  {
    && labels[k].Outside? && Load(labels[k].disk) == Ok(Some(c))
    && Load(After(cfg, pods, disk, labels[..k]).fleet.disk) != Ok(Some(c))
  }

  /** A turn that leads to a write read the store, and found no usable credential but the refused one. */
  lemma BeginsWriting(cfg: Config, p: Pod, d: Disk, a: Answer)
    requires Coherent(DeviceGrant, p) && !Writing(p.pc) && Writing(Step(cfg, DeviceGrant, p, d, a).pod.pc)
    ensures a.Says? && ReadsTheStore(p)
    ensures Load(d).Ok? && Load(d).value.Some? ==>
              Refused(Step(cfg, DeviceGrant, p, d, a).pod.pc) == Some(Load(d).value.value.secret)
  {
    assert a.Says?;
    match p.pc
    case Asking =>
    case Forgetting(bearer) =>
    case _ =>
  }

  lemma GoesOnWriting(cfg: Config, p: Pod, d: Disk, a: Answer)
    requires Writing(p.pc) && Writing(Step(cfg, DeviceGrant, p, d, a).pod.pc)
    ensures Refused(Step(cfg, DeviceGrant, p, d, a).pod.pc) == Refused(p.pc)
    ensures p.pc.Saving? ==> !Lands(a)
  {
  }

  lemma WritingStep(cfg: Config, s: State, l: Label, p: nat)
    requires Sound(s) && p < |s.fleet.pods| && Writing(Next(cfg, s, l).fleet.pods[p].pc)
    ensures var q := s.fleet.pods[p]; var seen := Load(s.fleet.disk); var pc := Next(cfg, s, l).fleet.pods[p].pc;
            if Writing(q.pc) then Refused(pc) == Refused(q.pc) && (q.pc.Saving? && l.Turns? && l.pod == p ==> !Lands(l.answer))
            else
              && l.Turns? && l.pod == p && l.answer.Says? && ReadsTheStore(q)
              && (seen.Ok? && seen.value.Some? ==> Refused(pc) == Some(seen.value.value.secret))
  {
    var q := s.fleet.pods[p];
    assert PodSound(q, s.ledger.forgotten[p], s);
    if l.Turns? && l.pod == p {
      if Writing(q.pc) {
        GoesOnWriting(cfg, q, s.fleet.disk, l.answer);
      } else {
        BeginsWriting(cfg, q, s.fleet.disk, l.answer);
      }
    }
    hide Step, Coherent;
  }

  /** Every write comes of a reading of the store. */
  lemma {:induction false} FindLastRead(cfg: Config, pods: nat, disk: Disk, labels: seq<Label>, j: nat, p: nat) returns (l: nat)
    requires p < pods && j <= |labels| && LegalRun(cfg, pods, disk, labels)
    requires Writing(After(cfg, pods, disk, labels[..j]).fleet.pods[p].pc)
    ensures LastRead(cfg, pods, disk, labels, l, j, p)
    ensures var seen := Load(After(cfg, pods, disk, labels[..l]).fleet.disk);
            seen.Ok? && seen.value.Some? ==>
              Refused(After(cfg, pods, disk, labels[..j]).fleet.pods[p].pc) == Some(seen.value.value.secret)
    ensures forall k :: l < k <= j ==>
              Refused(After(cfg, pods, disk, labels[..k]).fleet.pods[p].pc) ==
              Refused(After(cfg, pods, disk, labels[..j]).fleet.pods[p].pc)
    decreases j
  {
    hide LegalRun, Sound, Next, Load, Writing, Refused, ReadsTheStore;
    assert j > 0 by { NoneWritesAtTheStart(cfg, pods, disk, labels, p); }
    SoundAt(cfg, pods, disk, labels, j - 1);
    var s := After(cfg, pods, disk, labels[..j - 1]);
    WritingStep(cfg, s, labels[j - 1], p);
    if Writing(s.fleet.pods[p].pc) {
      l := FindLastRead(cfg, pods, disk, labels, j - 1, p);
    } else {
      l := j - 1;
    }
  }

  lemma NoneWritesAtTheStart(cfg: Config, pods: nat, disk: Disk, labels: seq<Label>, p: nat)
    requires p < pods
    ensures !Writing(After(cfg, pods, disk, labels[..0]).fleet.pods[p].pc)
  {
    assert labels[..0] == [];
  }

  lemma ArrivalStep(cfg: Config, s: State, l: Label, c: Credential)
    requires WellFormed(s) && Load(s.fleet.disk) != Ok(Some(c)) && Load(Next(cfg, s, l).fleet.disk) == Ok(Some(c))
    ensures l.Outside? ==> Load(l.disk) == Ok(Some(c))
    ensures !l.Outside? ==>
              l.Turns? && l.pod < |s.fleet.pods| && Lands(l.answer) && s.fleet.pods[l.pod].pc == Saving(c)
  {
    if l.Turns? && l.pod < |s.fleet.pods| {
      UsableMoves(cfg, s.fleet.pods[l.pod], s.fleet.disk, l.answer);
    }
  }

  /** What a turn leaves of the file: what was there, nothing, or what was being saved. */
  lemma UsableMoves(cfg: Config, p: Pod, d: Disk, a: Answer)
    ensures var e := Step(cfg, DeviceGrant, p, d, a).disk;
            if MayWrite(p.pc) && Lands(a) then e == (if p.pc.Saving? then SavedFile(p.pc.credential) else Absent)
            else e == d
  {
  }

  /** A credential that can be loaded now and could not be then was saved in between, or put in. */
  lemma {:induction false} FindArrival(cfg: Config, pods: nat, disk: Disk, labels: seq<Label>, l: nat, j: nat, c: Credential) returns (k: nat)
    requires l <= j <= |labels|
    requires Load(After(cfg, pods, disk, labels[..l]).fleet.disk) != Ok(Some(c))
    requires Load(After(cfg, pods, disk, labels[..j]).fleet.disk) == Ok(Some(c))
    ensures l <= k < j
    ensures SavedAt(cfg, pods, disk, labels, k, c) || PutInAt(cfg, pods, disk, labels, k, c)
    decreases j - l
  {
    hide Next, Load;
    var s := After(cfg, pods, disk, labels[..j - 1]);
    if Load(s.fleet.disk) == Ok(Some(c)) {
      k := FindArrival(cfg, pods, disk, labels, l, j - 1, c);
    } else {
      k := j - 1;
      OneLabel(cfg, pods, disk, labels, k);
      ArrivalStep(cfg, s, labels[k], c);
    }
  }

  lemma RefusedIsStored(s: State, p: nat)
    requires Sound(s) && p < |s.fleet.pods| && Refused(s.fleet.pods[p].pc).Some?
    ensures Refused(s.fleet.pods[p].pc).value in s.ledger.stored
  {
    assert PodSound(s.fleet.pods[p], s.ledger.forgotten[p], s);
  }

  /** A save that lands while a pod is forgetting lands another secret than the one that pod forgets. */
  lemma SavedIsNotRefused(s: State, p: nat, q: nat)
    requires Sound(s) && p < |s.fleet.pods| && q < |s.fleet.pods| && s.fleet.pods[q].pc.Saving?
    requires !ReadsTheStore(s.fleet.pods[p]) || s.fleet.pods[p].pc.Asking?
    ensures Refused(s.fleet.pods[p].pc) != Some(s.fleet.pods[q].pc.credential.secret)
  {
    assert PodSound(s.fleet.pods[q], s.ledger.forgotten[q], s);
    if Refused(s.fleet.pods[p].pc).Some? { RefusedIsStored(s, p); }
  }

  lemma SavedSinceIsNotRefused(cfg: Config, pods: nat, disk: Disk, labels: seq<Label>, l: nat, k: nat, j: nat, p: nat, c: Credential)
    requires p < pods && LegalRun(cfg, pods, disk, labels) && LastRead(cfg, pods, disk, labels, l, j, p)
    requires l <= k < j && SavedAt(cfg, pods, disk, labels, k, c)
    requires forall i :: l < i <= j ==>
               Refused(After(cfg, pods, disk, labels[..i]).fleet.pods[p].pc) ==
               Refused(After(cfg, pods, disk, labels[..j]).fleet.pods[p].pc)
    ensures labels[k].pod != p
    ensures Refused(After(cfg, pods, disk, labels[..j]).fleet.pods[p].pc) != Some(c.secret)
  {
    SoundAt(cfg, pods, disk, labels, k);
    var s := After(cfg, pods, disk, labels[..k]);
    var pc := After(cfg, pods, disk, labels[..j]).fleet.pods[p].pc;
    assert k != l;
    WritingStep(cfg, s, labels[k], p);
    SavedIsNotRefused(s, p, labels[k].pod);
  }

  /** Pod `p`'s turn at `j`, answered or cut short by death, takes the usable credential `c` off the disk. */
  ghost predicate TakesOff(cfg: Config, pods: nat, disk: Disk, labels: seq<Label>, j: nat, p: nat, c: Credential)
    requires p < pods
  {
    && j < |labels| && labels[j].Turns? && labels[j].pod == p
    && Load(After(cfg, pods, disk, labels[..j]).fleet.disk) == Ok(Some(c))
    && Load(After(cfg, pods, disk, labels[..j + 1]).fleet.disk) != Ok(Some(c))
  }

  lemma TakingOffIsAWrite(cfg: Config, pods: nat, disk: Disk, labels: seq<Label>, j: nat, p: nat, c: Credential)
    requires p < pods && LegalRun(cfg, pods, disk, labels) && TakesOff(cfg, pods, disk, labels, j, p, c)
    ensures var pc := After(cfg, pods, disk, labels[..j]).fleet.pods[p].pc;
            var left := After(cfg, pods, disk, labels[..j + 1]).fleet.disk;
            && MayWrite(pc) && Lands(labels[j].answer)
            && (pc.Saving? ==> left == SavedFile(pc.credential) && pc.credential.secret != c.secret)
            && (!pc.Saving? ==> left == Absent)
  {
    SoundAt(cfg, pods, disk, labels, j);
    var s := After(cfg, pods, disk, labels[..j]);
    UsableMoves(cfg, s.fleet.pods[p], s.fleet.disk, labels[j].answer);
    assert PodSound(s.fleet.pods[p], s.ledger.forgotten[p], s);
    assert c.secret in SecretsOn(s.fleet.disk);
  }

  /** Every way a pod can cost the fleet a usable credential: discarding an unusable file, clearing a
      refused one, or saving over one, each having read the store at `l`. If what goes is not the secret
      the pod was refused on (and making room for an enrollment or saving one, it was refused on none),
      then it came into the store after that reading. What a sibling saved after the reading never is the
      refused secret; so where nobody outside put it there, a credential other than the refused one goes
      exactly when a sibling's save of it landed between the reading and the write. */
  lemma LostCredentialsArrivedLate(cfg: Config, pods: nat, disk: Disk, labels: seq<Label>, j: nat, p: nat, c: Credential) returns (l: nat)
    requires p < pods && LegalRun(cfg, pods, disk, labels) && TakesOff(cfg, pods, disk, labels, j, p, c)
    ensures LastRead(cfg, pods, disk, labels, l, j, p)
    ensures var refused := Refused(After(cfg, pods, disk, labels[..j]).fleet.pods[p].pc);
            && (refused != Some(c.secret) ==>
                  exists k :: l <= k < j && (SavedAt(cfg, pods, disk, labels, k, c) || PutInAt(cfg, pods, disk, labels, k, c)))
            && (forall k :: l <= k < j && SavedAt(cfg, pods, disk, labels, k, c) ==>
                  labels[k].pod != p && refused != Some(c.secret))
            && ((forall k :: l <= k < j ==> !PutInAt(cfg, pods, disk, labels, k, c)) ==>
                  (refused != Some(c.secret) <==> exists k :: l <= k < j && SavedAt(cfg, pods, disk, labels, k, c)))
  {
    TakingOffIsAWrite(cfg, pods, disk, labels, j, p, c);
    l := FindLastRead(cfg, pods, disk, labels, j, p);
    var refused := Refused(After(cfg, pods, disk, labels[..j]).fleet.pods[p].pc);
    hide After, LegalRun, LastRead, Refused, SavedAt, PutInAt, Load;
    forall k | l <= k < j && SavedAt(cfg, pods, disk, labels, k, c)
      ensures labels[k].pod != p && refused != Some(c.secret)
    {
      SavedSinceIsNotRefused(cfg, pods, disk, labels, l, k, j, p, c);
    }
    if refused != Some(c.secret) {
      var k := FindArrival(cfg, pods, disk, labels, l, j, c);
    }
  }

  /** So a pod whose reading is still good when it writes, nothing having come into the store since,
      only ever removes the secret it was refused on. */
  lemma QuietWindowIsSafe(cfg: Config, pods: nat, disk: Disk, labels: seq<Label>, j: nat, p: nat, c: Credential)
    requires p < pods && LegalRun(cfg, pods, disk, labels) && TakesOff(cfg, pods, disk, labels, j, p, c)
    requires forall l: nat, k: nat :: LastRead(cfg, pods, disk, labels, l, j, p) && l <= k < j ==>
               !SavedAt(cfg, pods, disk, labels, k, c) && !PutInAt(cfg, pods, disk, labels, k, c)
    ensures Refused(After(cfg, pods, disk, labels[..j]).fleet.pods[p].pc) == Some(c.secret)
  {
    hide After, LegalRun, LastRead, Refused, SavedAt, PutInAt, TakesOff;
    var l := LostCredentialsArrivedLate(cfg, pods, disk, labels, j, p, c);
  }

  // ---------------------------------------------------------------- the window is real

  lemma Extend(cfg: Config, pods: nat, disk: Disk, labels: seq<Label>, l: Label)
    requires LegalRun(cfg, pods, disk, labels) && Legal(After(cfg, pods, disk, labels), l)
    ensures LegalRun(cfg, pods, disk, labels + [l])
    ensures After(cfg, pods, disk, labels + [l]) == Next(cfg, After(cfg, pods, disk, labels), l)
  {
    var longer := labels + [l];
    assert longer[..|labels|] == labels;
    forall k | 0 <= k < |longer|
      ensures Legal(After(cfg, pods, disk, longer[..k]), longer[k])
    {
      assert longer[..k] == labels[..k];
      assert k == |labels| ==> labels[..k] == labels;
    }
  }

  lemma SaveLands(cfg: Config, p: Pod, d: Disk, r: Reply)
    requires p.pc.Saving? && r.ok
    ensures Step(cfg, DeviceGrant, p, d, Says(r)).pod.pc == Dialling(p.pc.credential.secret)
    ensures Step(cfg, DeviceGrant, p, d, Says(r)).disk == SavedFile(p.pc.credential)
    ensures p.pc.credential.version == CREDENTIAL_VERSION ==> Load(SavedFile(p.pc.credential)) == Ok(Some(p.pc.credential))
  {
  }

  lemma SaveThenWrite(cfg: Config, s: State, p: nat, q: nat, r: Reply)
    requires Sound(s) && p < |s.fleet.pods| && q < |s.fleet.pods| && p != q && r.ok
    requires MayWrite(s.fleet.pods[p].pc) && s.fleet.pods[q].pc.Saving?
    requires s.fleet.pods[q].pc.credential.version == CREDENTIAL_VERSION
    ensures var c := s.fleet.pods[q].pc.credential;
            var t := Next(cfg, s, Turns(q, Says(r)));
            var u := Next(cfg, t, Turns(p, Says(r)));
            && Legal(s, Turns(q, Says(r))) && Legal(t, Turns(p, Says(r)))
            && Load(t.fleet.disk) == Ok(Some(c))
            && Gone(u, c.secret)
            && u.fleet.pods[q].pc == Dialling(c.secret)
  {
    SaveLands(cfg, s.fleet.pods[q], s.fleet.disk, r);
    UsableMoves(cfg, s.fleet.pods[p], SavedFile(s.fleet.pods[q].pc.credential), Says(r));
    hide Step, Load, Coherent;
    var t := Next(cfg, s, Turns(q, Says(r)));
    assert t.fleet.disk == SavedFile(s.fleet.pods[q].pc.credential) && t.fleet.pods[p] == s.fleet.pods[p];
  }

  /** Whenever one pod is about to write and another about to save, the window is open: let the save land
      and then the write, and the credential just approved is gone, while its pod dials with it. */
  lemma OpenWindowLoses(cfg: Config, pods: nat, disk: Disk, labels: seq<Label>, p: nat, q: nat, r: Reply)
    requires p < pods && q < pods && p != q && LegalRun(cfg, pods, disk, labels) && r.ok
    requires var s := After(cfg, pods, disk, labels);
             && MayWrite(s.fleet.pods[p].pc) && s.fleet.pods[q].pc.Saving?
             && s.fleet.pods[q].pc.credential.version == CREDENTIAL_VERSION
    ensures var c := After(cfg, pods, disk, labels).fleet.pods[q].pc.credential;
            var saved := labels + [Turns(q, Says(r))];
            var written := saved + [Turns(p, Says(r))];
            && LegalRun(cfg, pods, disk, written)
            && Load(After(cfg, pods, disk, saved).fleet.disk) == Ok(Some(c))
            && Gone(After(cfg, pods, disk, written), c.secret)
            && After(cfg, pods, disk, written).fleet.pods[q].pc == Dialling(c.secret)
  {
    hide After, LegalRun, Next, Legal, Sound, Load, Gone;
    RunsAreSound(cfg, pods, disk, labels);
    SaveThenWrite(cfg, After(cfg, pods, disk, labels), p, q, r);
    Extend(cfg, pods, disk, labels, Turns(q, Says(r)));
    Extend(cfg, pods, disk, labels + [Turns(q, Says(r))], Turns(p, Says(r)));
  }

  /** One answer that refuses every dial and grants `secret` to whoever asks. */
  function Rollover(secret: string): Answer {
    Says(Reply(Contents(""), Err(Unavailable), CodeIssued, Granted(Credential(CREDENTIAL_VERSION, secret, "")),
               true, Down(Unauthorized), 0, Ok(false), 1000))
  }

  /** Append one turn of a two-pod run whose result is known. */
  lemma Play(cfg: Config, disk: Disk, labels: seq<Label>, i: nat, a: Answer, q: Pod, d: Disk) returns (longer: seq<Label>)
    requires i < 2 && LegalRun(cfg, 2, disk, labels)
    requires Legal(After(cfg, 2, disk, labels), Turns(i, a))
    requires var f := After(cfg, 2, disk, labels).fleet;
             Step(cfg, DeviceGrant, f.pods[i], f.disk, a) == Situation(q, d)
    ensures longer == labels + [Turns(i, a)] && LegalRun(cfg, 2, disk, longer)
    ensures var s := After(cfg, 2, disk, labels); var t := After(cfg, 2, disk, longer);
            && t.fleet == Fleet(s.fleet.pods[i := q], d)
            && t.ledger.stored == s.ledger.stored + SecretsOn(d)
            && t.ledger.granted == s.ledger.granted + Just(GrantBy(s.fleet.pods[i], a))
            && t.ledger.forgotten == s.ledger.forgotten[i := s.ledger.forgotten[i] + Just(ForgottenBy(s.fleet.pods[i], q))]
  {
    longer := labels + [Turns(i, a)];
    Extend(cfg, 2, disk, labels, Turns(i, a));
  }

  const OLD_CREDENTIAL := Credential(CREDENTIAL_VERSION, "zc_old", "")
  const NEW_CREDENTIAL := Credential(CREDENTIAL_VERSION, "zc_new", "")

  function AboutToForget(cfg: Config): Pod {
    Pod(Forgetting("zc_old"), Some(OLD_CREDENTIAL), cfg.backoffMin, true, None)
  }

  function AboutToClear(cfg: Config): Pod {
    Pod(Clearing("zc_old"), None, cfg.backoffMin, true, None)
  }

  /** A pod that loads the old credential, dials and is refused. */
  lemma StartToForgetting(cfg: Config, labels: seq<Label>, i: nat) returns (longer: seq<Label>)
    requires i < 2 && LegalRun(cfg, 2, SavedFile(OLD_CREDENTIAL), labels)
    requires var s := After(cfg, 2, SavedFile(OLD_CREDENTIAL), labels);
             s.fleet.pods[i] == Fresh(cfg) && s.fleet.disk == SavedFile(OLD_CREDENTIAL)
    ensures LegalRun(cfg, 2, SavedFile(OLD_CREDENTIAL), longer)
    ensures var s := After(cfg, 2, SavedFile(OLD_CREDENTIAL), labels);
            var t := After(cfg, 2, SavedFile(OLD_CREDENTIAL), longer);
            && t.fleet == s.fleet.(pods := s.fleet.pods[i := AboutToForget(cfg)])
            && t.ledger.granted == s.ledger.granted && t.ledger.forgotten == s.ledger.forgotten
  {
    var disk := SavedFile(OLD_CREDENTIAL);
    var a := Rollover("zc_new");
    hide After, LegalRun;
    longer := Play(cfg, disk, labels, i, a, Fresh(cfg).(held := Some(OLD_CREDENTIAL), pc := Dialling("zc_old")), disk);
    longer := Play(cfg, disk, longer, i, a, AboutToForget(cfg), disk);
  }

  /** A pod about to clear that clears and asks a person for a code. */
  lemma ClearingToPolling(cfg: Config, labels: seq<Label>, i: nat) returns (longer: seq<Label>)
    requires i < 2 && LegalRun(cfg, 2, SavedFile(OLD_CREDENTIAL), labels)
    requires After(cfg, 2, SavedFile(OLD_CREDENTIAL), labels).fleet.pods[i] == AboutToClear(cfg)
    ensures LegalRun(cfg, 2, SavedFile(OLD_CREDENTIAL), longer)
    ensures var s := After(cfg, 2, SavedFile(OLD_CREDENTIAL), labels);
            var t := After(cfg, 2, SavedFile(OLD_CREDENTIAL), longer);
            && t.fleet == Fleet(s.fleet.pods[i := AboutToClear(cfg).(pc := Polling(0))], Absent)
            && t.ledger.granted == s.ledger.granted
            && (forall k :: 0 <= k < 2 && k != i ==> t.ledger.forgotten[k] == s.ledger.forgotten[k])
  {
    var disk := SavedFile(OLD_CREDENTIAL);
    var a := Rollover("zc_new");
    hide After, LegalRun;
    var p := AboutToClear(cfg);
    longer := Play(cfg, disk, labels, i, a, p.(pc := Asking), Absent);
    longer := Play(cfg, disk, longer, i, a, p.(pc := Requesting), Absent);
    longer := Play(cfg, disk, longer, i, a, p.(pc := Polling(0)), Absent);
  }

  /** A pod polling that is granted the new credential and saves it. */
  lemma PollingToSaved(cfg: Config, labels: seq<Label>, i: nat) returns (longer: seq<Label>)
    requires i < 2 && LegalRun(cfg, 2, SavedFile(OLD_CREDENTIAL), labels)
    requires var s := After(cfg, 2, SavedFile(OLD_CREDENTIAL), labels);
             s.fleet.pods[i] == AboutToClear(cfg).(pc := Polling(0)) && "zc_new" !in s.ledger.granted
    ensures LegalRun(cfg, 2, SavedFile(OLD_CREDENTIAL), longer)
    ensures var s := After(cfg, 2, SavedFile(OLD_CREDENTIAL), labels);
            var t := After(cfg, 2, SavedFile(OLD_CREDENTIAL), longer);
            && t.fleet.disk == SavedFile(NEW_CREDENTIAL)
            && t.fleet.pods == s.fleet.pods[i := AboutToClear(cfg).(held := Some(NEW_CREDENTIAL), pc := Dialling("zc_new"))]
            && "zc_new" in t.ledger.stored
            && (forall k :: 0 <= k < 2 && k != i ==> t.ledger.forgotten[k] == s.ledger.forgotten[k])
  {
    var disk := SavedFile(OLD_CREDENTIAL);
    var a := Rollover("zc_new");
    hide After, LegalRun;
    var p := AboutToClear(cfg);
    var d := After(cfg, 2, disk, labels).fleet.disk;
    longer := Play(cfg, disk, labels, i, a, p.(pc := Saving(NEW_CREDENTIAL)), d);
    longer := Play(cfg, disk, longer, i, a, p.(held := Some(NEW_CREDENTIAL), pc := Dialling("zc_new")), SavedFile(NEW_CREDENTIAL));
    assert "zc_new" in SecretsOn(SavedFile(NEW_CREDENTIAL));
  }

  /** Both pods refused on the one credential they loaded. */
  lemma BothRefused(cfg: Config) returns (labels: seq<Label>)
    ensures LegalRun(cfg, 2, SavedFile(OLD_CREDENTIAL), labels)
    ensures var s := After(cfg, 2, SavedFile(OLD_CREDENTIAL), labels);
            && s.fleet == Fleet([AboutToForget(cfg), AboutToForget(cfg)], SavedFile(OLD_CREDENTIAL))
            && s.ledger.granted == {"zc_old"} && s.ledger.forgotten == [{}, {}]
  {
    var disk := SavedFile(OLD_CREDENTIAL);
    var s := After(cfg, 2, disk, []);
    assert s.fleet == Fleet([Fresh(cfg), Fresh(cfg)], disk) && s.ledger.granted == {"zc_old"};
    assert s.ledger.forgotten == [{}, {}] && LegalRun(cfg, 2, disk, []);
    hide After, LegalRun;
    labels := StartToForgetting(cfg, [], 0);
    labels := StartToForgetting(cfg, labels, 1);
  }

  lemma LastTurns(cfg: Config)
    ensures var a := Rollover("zc_new");
            && Step(cfg, DeviceGrant, AboutToForget(cfg), SavedFile(OLD_CREDENTIAL), a) ==
               Situation(AboutToClear(cfg), SavedFile(OLD_CREDENTIAL))
            && Step(cfg, DeviceGrant, AboutToClear(cfg), SavedFile(NEW_CREDENTIAL), a) ==
               Situation(AboutToClear(cfg).(pc := Asking), Absent)
            && Step(cfg, DeviceGrant, AboutToForget(cfg), File(PRIVATE_MODE, Garbage), a) ==
               Situation(AboutToDiscard(cfg), File(PRIVATE_MODE, Garbage))
            && Step(cfg, DeviceGrant, AboutToDiscard(cfg), File(PRIVATE_MODE, Garbage), a) ==
               Situation(AboutToClear(cfg), Absent)
            && Step(cfg, DeviceGrant, AboutToDiscard(cfg), SavedFile(NEW_CREDENTIAL), a) ==
               Situation(AboutToClear(cfg), Absent)
  {
  }

  function AboutToDiscard(cfg: Config): Pod {
    AboutToClear(cfg).(pc := Discarding(ThenForget("zc_old")))
  }

  /** Two pods refused on one credential. Both look, the second clears, enrolls and saves, and then the
      first clears: the credential just approved is gone from the volume while its pod dials with it. */
  lemma ForgetCanRemoveASiblingsCredential(cfg: Config) returns (labels: seq<Label>)
    ensures var disk := SavedFile(OLD_CREDENTIAL);
            && LegalRun(cfg, 2, disk, labels)
            && var s := After(cfg, 2, disk, labels);
               && s.fleet.disk == Absent
               && s.fleet.pods[1].pc == Dialling("zc_new")
               && "zc_new" in s.ledger.stored
               && s.ledger.forgotten[0] == {"zc_old"}
  {
    var disk := SavedFile(OLD_CREDENTIAL);
    hide After, LegalRun, Step;
    LastTurns(cfg);
    labels := BothRefused(cfg);
    labels := Play(cfg, disk, labels, 0, Rollover("zc_new"), AboutToClear(cfg), disk);
    labels := Play(cfg, disk, labels, 1, Rollover("zc_new"), AboutToClear(cfg), disk);
    labels := ClearingToPolling(cfg, labels, 1);
    labels := PollingToSaved(cfg, labels, 1);
    labels := Play(cfg, disk, labels, 0, Rollover("zc_new"), AboutToClear(cfg).(pc := Asking), Absent);
  }

  lemma FileGoesBad(cfg: Config, labels: seq<Label>) returns (longer: seq<Label>)
    requires LegalRun(cfg, 2, SavedFile(OLD_CREDENTIAL), labels)
    ensures LegalRun(cfg, 2, SavedFile(OLD_CREDENTIAL), longer)
    ensures var s := After(cfg, 2, SavedFile(OLD_CREDENTIAL), labels);
            var t := After(cfg, 2, SavedFile(OLD_CREDENTIAL), longer);
            && t.fleet == s.fleet.(disk := File(PRIVATE_MODE, Garbage))
            && t.ledger.granted == s.ledger.granted
  {
    hide After, LegalRun;
    longer := labels + [Outside(File(PRIVATE_MODE, Garbage))];
    Extend(cfg, 2, SavedFile(OLD_CREDENTIAL), labels, Outside(File(PRIVATE_MODE, Garbage)));
  }

  /** The same through the other removal: the file turns to garbage, both pods find it so, the second
      throws it away, enrolls and saves, and then the first throws away what it takes to be the garbage. */
  lemma DiscardCanRemoveASiblingsCredential(cfg: Config) returns (labels: seq<Label>)
    ensures var disk := SavedFile(OLD_CREDENTIAL);
            && LegalRun(cfg, 2, disk, labels)
            && var s := After(cfg, 2, disk, labels);
               && s.fleet.disk == Absent
               && s.fleet.pods[0].pc == Clearing("zc_old")
               && s.fleet.pods[1].pc == Dialling("zc_new")
               && "zc_new" in s.ledger.stored
  {
    var disk := SavedFile(OLD_CREDENTIAL);
    var bad := File(PRIVATE_MODE, Garbage);
    hide After, LegalRun, Step;
    LastTurns(cfg);
    labels := BothRefused(cfg);
    labels := FileGoesBad(cfg, labels);
    labels := Play(cfg, disk, labels, 0, Rollover("zc_new"), AboutToDiscard(cfg), bad);
    labels := Play(cfg, disk, labels, 1, Rollover("zc_new"), AboutToDiscard(cfg), bad);
    labels := Play(cfg, disk, labels, 1, Rollover("zc_new"), AboutToClear(cfg), Absent);
    labels := ClearingToPolling(cfg, labels, 1);
    labels := PollingToSaved(cfg, labels, 1);
    labels := Play(cfg, disk, labels, 0, Rollover("zc_new"), AboutToClear(cfg), Absent);
  }

  // ---------------------------------------------------------------- each pod is a process

  /** The turns pod `p` has had since it last started, with the file as it found it each time. */
  ghost function TurnsOf(cfg: Config, pods: nat, disk: Disk, labels: seq<Label>, p: nat): seq<Turn>
    requires p < pods
  {
    if labels == [] then []
    else
      var before := labels[..|labels| - 1];
      var s := After(cfg, pods, disk, before);
      match labels[|labels| - 1]
      case Turns(i, a) =>
        if i == p then TurnsOf(cfg, pods, disk, before, p) + [Turn(s.fleet.disk, a)]
        else TurnsOf(cfg, pods, disk, before, p)
      case Boot(i) =>
        if i == p && Ended(s.fleet.pods[p].pc) then [] else TurnsOf(cfg, pods, disk, before, p)
      case Outside(_) => TurnsOf(cfg, pods, disk, before, p)
  }

  /** Every pod of every fleet run is a run of the one-process machine over the file as others left
      it, so all that is proved of those runs holds of each pod. */
  lemma {:induction false} EachPodIsAProcess(cfg: Config, pods: nat, disk: Disk, labels: seq<Label>, p: nat)
    requires p < pods
    ensures var turns := TurnsOf(cfg, pods, disk, labels, p);
            After(cfg, pods, disk, labels).fleet.pods[p] == At(cfg, DeviceGrant, turns, |turns|)
    decreases |labels|
  {
    var turns := TurnsOf(cfg, pods, disk, labels, p);
    if labels != [] {
      var n := |labels| - 1;
      EachPodIsAProcess(cfg, pods, disk, labels[..n], p);
      var before := TurnsOf(cfg, pods, disk, labels[..n], p);
      if labels[n].Turns? && labels[n].pod == p {
        OneTurn(cfg, DeviceGrant, turns, |before|);
        assert turns[..|before|] == before && before[..|before|] == before;
      }
    }
  }
}
