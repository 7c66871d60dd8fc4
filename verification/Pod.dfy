/** One process of the node as a state machine over its await points (src/runtime/runner.rs,
    src/enroll.rs). `Step` takes what the process is doing, the credential file as it stands at that
    moment, and what the world answers, and gives what the process does next and the file it leaves.
    Everything outside the process (the server, the person approving, sibling pods, the operator) is
    in the answers and in the file. */
module Pod {
  import opened Wrappers
  import opened Store
  import opened Sources

  const MAX_RENEWALS: nat := 3

  /** Durations in milliseconds. */
  datatype Config = Config(backoffMin: nat, backoffMax: nat, stableAfter: nat)

  /** Where the bearer comes from. `Custom` is any other implementation of the trait: the loop is
      written against the trait, so its branches must hold for answers no built-in source gives. */
  datatype Source = DeviceGrant | TokenFile | StaticToken(token: string) | Custom

  datatype EnrollError = ScopeUnknown | EnrollDenied | EnrollLapsed | EnrollUnreachable

  datatype StartReply = CodeIssued | StartFailed(error: EnrollError)

  /** One poll of the device grant, after section 3.5 of RFC 8628. */
  datatype PollReply =
    | StillWaiting
    | Granted(credential: Credential)
    | CodeLapsed
    | Declined
    | PollFailed(error: EnrollError)

  datatype ConnectError = Unauthorized | Revoked | VersionMismatch | NoTlsProvider | Unreachable

  datatype DialReply = Up(conn: nat) | Down(error: ConnectError)

  /** Thousandths of the backoff that a jittered wait lasts. */
  newtype Jitter = n: int | 800 <= n < 1200 witness 1000

  /** What the world would answer to each question the process can be waiting on. `ok` is whether a
      write to the store succeeds; `up` is how long a connection had lasted when it dropped. */
  datatype Reply = Reply(
    read: FileRead,
    bearer: Result<string, CredentialsError>,
    start: StartReply,
    poll: PollReply,
    ok: bool,
    dial: DialReply,
    up: nat,
    forget: Result<bool, CredentialsError>,
    factor: Jitter)

  /** A reply, a stop signal, or death. `landed` says whether a store write that death interrupted
      had already taken effect. */
  datatype Answer = Says(reply: Reply) | Stop | Crash(landed: bool)

  /** What discarding an unusable file leads back to. */
  datatype Resume = ThenEnroll | ThenForget(bearer: string)

  datatype RunError = CredentialsFailed(error: CredentialsError) | ServerRefused | BuildFailed

  /** How a run ends; a stop carries the connection it closed on the way out. */
  datatype Ending = Stopped(closed: Option<nat>) | Failed(error: RunError)

  datatype Pc =
    | Asking
    | Discarding(after: Resume)
    | Requesting
    | Polling(renewals: nat)
    | Renewing(renewals: nat)
    | Saving(credential: Credential)
    | Dialling(bearer: string)
    | Serving(bearer: string, conn: nat)
    | Forgetting(bearer: string)
    | Clearing(bearer: string)
    | Waiting
    | Exited(ending: Ending)
    | Killed

  /** `spent` is the loop's `reenrolled_after_refusal`; `live` the slot the stop branch can reach. */
  datatype Pod = Pod(pc: Pc, held: Option<Credential>, backoff: nat, spent: bool, live: Option<nat>)

  datatype Situation = Situation(pod: Pod, disk: Disk)

  function Fresh(cfg: Config): Pod {
    Pod(Asking, None, cfg.backoffMin, false, None)
  }

  predicate Ended(pc: Pc) {
    pc.Exited? || pc.Killed?
  }

  function ExitCode(ending: Ending): int {
    match ending
    case Stopped(_) => 0
    case Failed(CredentialsFailed(NeedsOperator)) => 2
    case Failed(BuildFailed) => 2
    case Failed(_) => 1
  }

  /** Where the future really suspends. The store's calls never do: they finish inside one poll, so a
      stop that arrives during one is noticed at the next real await. */
  predicate AtAwait(src: Source, pc: Pc) {
    match pc
    case Requesting | Polling(_) | Renewing(_) | Dialling(_) | Serving(_, _) | Waiting => true
    case Asking => src.TokenFile? || src.Custom?
    case Forgetting(_) => src.Custom?
    case _ => false
  }

  function EnrollmentTrouble(e: EnrollError): CredentialsError {
    match e
    case ScopeUnknown | EnrollDenied => NeedsOperator
    case EnrollLapsed | EnrollUnreachable => Unavailable
  }

  datatype Refusal = Reenroll | GiveUp | Backoff

  function RefusalOf(e: ConnectError): Refusal {
    match e
    case Unauthorized | Revoked => Reenroll
    case VersionMismatch | NoTlsProvider => GiveUp
    case Unreachable => Backoff
  }

  function Fail(p: Pod, e: RunError): Pod {
    p.(pc := Exited(Failed(e)))
  }

  /** An error from `bearer`: only an unavailable source is waited out. */
  function BearerTrouble(p: Pod, e: CredentialsError): Pod {
    if e.Unavailable? then p.(pc := Waiting) else Fail(p, CredentialsFailed(e))
  }

  function BearerReady(p: Pod, bearer: Result<string, CredentialsError>): Pod {
    match bearer
    case Ok(s) => p.(pc := Dialling(s))
    case Err(e) => BearerTrouble(p, e)
  }

  function AskStep(src: Source, p: Pod, d: Disk, r: Reply): Pod {
    match src
    case StaticToken(token) => p.(pc := Dialling(token))
    case TokenFile => BearerReady(p, TokenFileBearer(r.read))
    case Custom => BearerReady(p, r.bearer)
    case DeviceGrant =>
      if p.held.Some? then p.(pc := Dialling(p.held.value.secret))
      else match Load(d)
        case Ok(Some(c)) => p.(held := Some(c), pc := Dialling(c.secret))
        case Ok(None) => p.(pc := Requesting)
        case Err(e) =>
          if IsDiscardable(e) then p.(pc := Discarding(ThenEnroll))
          else Fail(p, CredentialsFailed(NeedsOperator))
  }

  function PollStep(p: Pod, renewals: nat, reply: PollReply): Pod {
    match reply
    case StillWaiting => p
    case Granted(c) => p.(pc := Saving(c))
    case CodeLapsed =>
      if renewals + 1 > MAX_RENEWALS then Fail(p, CredentialsFailed(NeedsOperator))
      else p.(pc := Renewing(renewals + 1))
    case Declined => Fail(p, CredentialsFailed(NeedsOperator))
    case PollFailed(e) => BearerTrouble(p, EnrollmentTrouble(e))
  }

  function DialStep(p: Pod, bearer: string, reply: DialReply): Pod {
    match reply
    case Up(conn) => p.(pc := Serving(bearer, conn), spent := false, live := Some(conn))
    case Down(e) =>
      match RefusalOf(e)
      case Reenroll => if p.spent then Fail(p, ServerRefused) else p.(pc := Forgetting(bearer), spent := true)
      case GiveUp => Fail(p, ServerRefused)
      case Backoff => p.(pc := Waiting)
  }

  function ForgetStep(src: Source, p: Pod, bearer: string, d: Disk, r: Reply): Pod {
    match src
    case StaticToken(_) | TokenFile => Fail(p, ServerRefused)
    case Custom =>
      (match r.forget
       case Ok(again) => if again then p.(pc := Asking) else Fail(p, ServerRefused)
       case Err(e) =>
         if e.Unavailable? then p.(pc := Waiting, spent := false) else Fail(p, CredentialsFailed(e)))
    case DeviceGrant =>
      var taken := p.(held := None);
      match Load(d)
      case Ok(Some(stored)) =>
        if p.held.None? || p.held.value.secret != stored.secret
        then taken.(held := Some(stored), pc := Asking)
        else taken.(pc := Clearing(bearer))
      case Ok(None) => taken.(pc := Clearing(bearer))
      case Err(e) =>
        if IsDiscardable(e) then taken.(pc := Discarding(ThenForget(bearer)))
        else Fail(taken, CredentialsFailed(NeedsOperator))
  }

  function Widen(cfg: Config, backoff: nat): nat {
    if backoff * 2 <= cfg.backoffMax then backoff * 2 else cfg.backoffMax
  }

  function Respond(cfg: Config, src: Source, p: Pod, d: Disk, r: Reply): Situation {
    match p.pc
    case Asking => Situation(AskStep(src, p, d, r), d)
    case Discarding(after) =>
      if !r.ok then Situation(Fail(p, CredentialsFailed(NeedsOperator)), d)
      else Situation(p.(pc := if after.ThenEnroll? then Requesting else Clearing(after.bearer)), Absent)
    case Requesting =>
      (match r.start
       case CodeIssued => Situation(p.(pc := Polling(0)), d)
       case StartFailed(e) => Situation(BearerTrouble(p, EnrollmentTrouble(e)), d))
    case Polling(renewals) => Situation(PollStep(p, renewals, r.poll), d)
    case Renewing(renewals) =>
      (match r.start
       case CodeIssued => Situation(p.(pc := Polling(renewals)), d)
       case StartFailed(e) => Situation(BearerTrouble(p, EnrollmentTrouble(e)), d))
    case Saving(c) =>
      if r.ok then Situation(p.(held := Some(c), pc := Dialling(c.secret)), SavedFile(c))
      else Situation(Fail(p, CredentialsFailed(NeedsOperator)), d)
    case Dialling(bearer) => Situation(DialStep(p, bearer, r.dial), d)
    case Serving(_, _) =>
      var backoff := if r.up >= cfg.stableAfter then cfg.backoffMin else p.backoff;
      Situation(p.(pc := Waiting, backoff := backoff, live := None), d)
    case Forgetting(bearer) => Situation(ForgetStep(src, p, bearer, d, r), d)
    case Clearing(_) =>
      if r.ok then Situation(p.(pc := Asking), Absent)
      else Situation(Fail(p, CredentialsFailed(NeedsOperator)), d)
    case Waiting => Situation(p.(pc := Asking, backoff := Widen(cfg, p.backoff)), d)
    case Exited(_) | Killed => Situation(p, d)
  }

  /** The file death leaves: only a store write can have been under way, and it lands whole or not at
      all (`AtomicSave.SaveIsCrashAtomic`). */
  function Wreck(pc: Pc, d: Disk, landed: bool): Disk {
    if !landed then d
    else match pc
      case Saving(c) => SavedFile(c)
      case Discarding(_) | Clearing(_) => Absent
      case _ => d
  }

  function Step(cfg: Config, src: Source, p: Pod, d: Disk, a: Answer): Situation {
    if Ended(p.pc) then Situation(p, d)
    else match a
      case Says(r) => Respond(cfg, src, p, d, r)
      case Stop =>
        if AtAwait(src, p.pc) then Situation(p.(pc := Exited(Stopped(p.live)), live := None), d)
        else Situation(p, d)
      case Crash(landed) => Situation(p.(pc := Killed, live := None), Wreck(p.pc, d, landed))
  }

  /** One turn of a run: the file as the process finds it, whoever last wrote it, and the answer. */
  datatype Turn = Turn(disk: Disk, answer: Answer)

  /** Where a process started over `start` is after these turns. */
  function Run(cfg: Config, src: Source, start: Disk, turns: seq<Turn>): Situation {
    if turns == [] then Situation(Fresh(cfg), start)
    else
      var last := turns[|turns| - 1];
      Step(cfg, src, Run(cfg, src, start, turns[..|turns| - 1]).pod, last.disk, last.answer)
  }

  /** The process just before turn `i`. */
  function At(cfg: Config, src: Source, turns: seq<Turn>, i: nat): Pod
    requires i <= |turns|
  {
    Run(cfg, src, Absent, turns[..i]).pod
  }

  /** The file a turn leaves depends on nothing before it but the process. */
  lemma StartIsForgotten(cfg: Config, src: Source, one: Disk, two: Disk, turns: seq<Turn>)
    ensures Run(cfg, src, one, turns).pod == Run(cfg, src, two, turns).pod
    ensures turns != [] ==> Run(cfg, src, one, turns) == Run(cfg, src, two, turns)
  {
  }

  lemma OneTurn(cfg: Config, src: Source, turns: seq<Turn>, i: nat)
    requires i < |turns|
    ensures At(cfg, src, turns, i + 1) ==
            Step(cfg, src, At(cfg, src, turns, i), turns[i].disk, turns[i].answer).pod
  {
    assert turns[..i + 1][..i] == turns[..i];
  }
}
