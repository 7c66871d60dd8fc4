/** The loop as it is written: nested calls over mutable cells, each await answered by the world
    (src/runtime/runner.rs, src/enroll.rs). Every method is proved to take the machine of module
    `Pod` from the situation it starts in to the one it returns in, so what is proved of all runs of
    the machine holds of this code. */
module Runner {
  import opened Wrappers
  import opened Store
  import opened Sources
  import opened Pod
  import PodExits
  import PodProgress

  /** Why an await did not come back: nothing more is scripted, a stop signal dropped the future, or
      the process died. */
  datatype Why = OutOfTurns | StopSignal | Dead

  datatype Wake = Got(reply: Reply) | Gone(why: Why)

  /** A call's result, or that it was abandoned at an await. */
  datatype Outcome<+T> = Done(value: T) | Broke(why: Why)

  /** Everything outside the process: the turns it will be given, how many it has used, and the
      credential file, which anyone may have rewritten by the next turn. */
  class World {
    const cfg: Config
    const src: Source
    const start: Disk
    const turns: seq<Turn>
    var pos: nat
    var disk: Disk
    ghost var last: Pod

    constructor (cfg: Config, src: Source, start: Disk, turns: seq<Turn>)
      ensures this.cfg == cfg && this.src == src && this.start == start && this.turns == turns
      ensures pos == 0 && Now(Fresh(cfg))
    {
      this.cfg, this.src, this.start, this.turns := cfg, src, start, turns;
      pos, disk, last := 0, start, Fresh(cfg);
    }

    /** The turns used so far have brought the machine here, with this file on disk. */
    ghost predicate Now(p: Pod)
      reads this
    {
      pos <= |turns| && Run(cfg, src, start, turns[..pos]) == Situation(p, disk)
    }

    /** The turn just used answered `r` to a machine at `p`, and nothing has been done about it yet. */
    ghost predicate Answered(p: Pod, r: Reply)
      reads this
    {
      pos <= |turns| && Run(cfg, src, start, turns[..pos]) == Respond(cfg, src, p, disk, r)
    }

    ghost predicate Abandoned(why: Why)
      reads this
    {
      match why
      case OutOfTurns => pos == |turns| && Now(last) && !Ended(last.pc)
      case StopSignal => Now(last.(pc := Exited(Stopped(last.live)), live := None))
      case Dead => Now(last.(pc := Killed, live := None))
    }

    /** Suspend. `landing` is the file the call under way would leave if death finds it finished. */
    method Await(interruptible: bool, landing: Option<Disk>, ghost p: Pod) returns (w: Wake)
      requires Now(p) && !Ended(p.pc) && interruptible == AtAwait(src, p.pc)
      requires forall d :: Wreck(p.pc, d, true) == if landing.Some? then landing.value else d
      modifies this
      ensures old(pos) <= pos <= |turns| && last == p
      ensures w.Got? ==> old(pos) < pos && Answered(p, w.reply)
      ensures w.Gone? ==> Abandoned(w.why)
    {
      last := p;
      while pos < |turns|
        invariant old(pos) <= pos <= |turns| && Now(p) && last == p
      {
        var turn := turns[pos];
        assert turns[..pos + 1][..pos] == turns[..pos];
        pos, disk := pos + 1, turn.disk;
        match turn.answer {
          case Says(reply) => return Got(reply);
          case Stop => if interruptible { return Gone(StopSignal); }
          case Crash(landed) =>
            if landed && landing.Some? { disk := landing.value; }
            return Gone(Dead);
        }
      }
      return Gone(OutOfTurns);
    }

    /** `store.clear()`: the current turn says whether the file could be removed. */
    method Clear(ok: bool) returns (r: Result<(), CredentialsError>)
      modifies this`disk
      ensures r.Ok? <==> ok
      ensures disk == if ok then Absent else old(disk)
      ensures r.Err? ==> r.error == NeedsOperator
    {
      if ok { disk := Absent; r := Ok(()); } else { r := Err(NeedsOperator); }
    }
  }

  /** The credential source that enrolls for itself. */
  class DeviceGrantSource {
    const world: World
    var held: Option<Credential>

    constructor (world: World)
      ensures this.world == world && held == None
    {
      this.world, held := world, None;
    }

    /** Load, throwing away a file that cannot be used and refusing one that must not be. */
    method Stored(ghost after: Resume, ghost p: Pod, ghost r: Reply)
      returns (found: Outcome<Result<Option<Credential>, CredentialsError>>)
      requires world.src.DeviceGrant? && world.Answered(p, r) && !Ended(p.pc)
      requires if after.ThenEnroll? then p.pc.Asking? && p.held.None? else p.pc == Forgetting(after.bearer)
      modifies world
      ensures old(world.pos) <= world.pos <= |world.turns|
      ensures found.Done? && found.value.Ok? && found.value.value.Some? ==>
                Load(world.disk) == Ok(found.value.value) && world.Answered(p, r)
      ensures found.Done? && found.value.Ok? && found.value.value.None? ==>
                world.Now(p.(held := None, pc := if after.ThenEnroll? then Requesting else Clearing(after.bearer)))
      ensures found.Done? && found.value.Err? ==>
                found.value.error == NeedsOperator &&
                world.Now(Fail(p.(held := None), CredentialsFailed(NeedsOperator)))
      ensures found.Broke? ==> world.Abandoned(found.why) && world.last.live == p.live
    {
      match Load(world.disk) {
        case Ok(credential) => return Done(Ok(credential));
        case Err(e) =>
          if !IsDiscardable(e) { return Done(Err(NeedsOperator)); }
          var w := world.Await(false, Some(Absent), p.(held := None, pc := Discarding(after)));
          if w.Gone? { return Broke(w.why); }
          var cleared := world.Clear(w.reply.ok);
          if cleared.Err? { return Done(Err(cleared.error)); }
          return Done(Ok(None));
      }
    }

    /** Start an enrollment or renew its code: either way a code is shown, or there is none to show. */
    method NewCode(ghost p: Pod) returns (r: Outcome<Result<(), CredentialsError>>)
      requires world.Now(p) && (p.pc.Requesting? || p.pc.Renewing?)
      modifies world
      ensures old(world.pos) <= world.pos <= |world.turns|
      ensures r.Done? ==> old(world.pos) < world.pos
      ensures r.Done? && r.value.Ok? ==> world.Now(p.(pc := Polling(if p.pc.Requesting? then 0 else p.pc.renewals)))
      ensures r.Done? && r.value.Err? ==> world.Now(BearerTrouble(p, r.value.error))
      ensures r.Broke? ==> world.Abandoned(r.why) && world.last.live == p.live
    {
      var w := world.Await(true, None, p);
      if w.Gone? { return Broke(w.why); }
      if w.reply.start.StartFailed? { return Done(Err(EnrollmentTrouble(w.reply.start.error))); }
      return Done(Ok(()));
    }

    /** `store.save()`, before the credential is used for anything. */
    method Save(credential: Credential, ghost p: Pod) returns (r: Outcome<Result<(), CredentialsError>>)
      requires world.Now(p) && p.pc == Saving(credential)
      modifies world
      ensures old(world.pos) <= world.pos <= |world.turns|
      ensures r.Done? && r.value.Ok? ==>
                world.Now(p.(held := Some(credential), pc := Dialling(credential.secret))) &&
                world.disk == SavedFile(credential)
      ensures r.Done? && r.value.Err? ==> r.value.error == NeedsOperator && world.Now(BearerTrouble(p, NeedsOperator))
      ensures r.Broke? ==> world.Abandoned(r.why) && world.last.live == p.live
    {
      var w := world.Await(false, Some(SavedFile(credential)), p);
      if w.Gone? { return Broke(w.why); }
      if !w.reply.ok { return Done(Err(NeedsOperator)); }
      world.disk := SavedFile(credential);
      return Done(Ok(()));
    }

    /** Ask for a code and wait for a person, renewing at most `MAX_RENEWALS` times; the credential is
        stored before it is handed back. */
    method Enroll(ghost p: Pod) returns (r: Outcome<Result<Credential, CredentialsError>>)
      requires world.src.DeviceGrant? && world.Now(p) && p.pc.Requesting? && p.held.None?
      modifies world
      ensures old(world.pos) <= world.pos <= |world.turns|
      ensures r.Done? && r.value.Ok? ==>
                world.Now(p.(held := Some(r.value.value), pc := Dialling(r.value.value.secret))) &&
                world.disk == SavedFile(r.value.value)
      ensures r.Done? && r.value.Err? ==> world.Now(BearerTrouble(p, r.value.error))
      ensures r.Broke? ==> world.Abandoned(r.why) && world.last.live == p.live
    {
      hide Run;
      var code := NewCode(p);
      if code.Broke? { return Broke(code.why); }
      if code.value.Err? { return Done(Err(code.value.error)); }
      var renewals := 0;
      while true
        invariant old(world.pos) <= world.pos <= |world.turns|
        invariant world.Now(p.(pc := Polling(renewals)))
        decreases |world.turns| - world.pos
      {
        var w := world.Await(true, None, p.(pc := Polling(renewals)));
        if w.Gone? { return Broke(w.why); }
        match w.reply.poll {
          case StillWaiting =>
          case Granted(credential) =>
            var saved := Save(credential, p.(pc := Saving(credential)));
            if saved.Broke? { return Broke(saved.why); }
            if saved.value.Err? { return Done(Err(saved.value.error)); }
            return Done(Ok(credential));
          case CodeLapsed =>
            renewals := renewals + 1;
            if renewals > MAX_RENEWALS { return Done(Err(NeedsOperator)); }
            code := NewCode(p.(pc := Renewing(renewals)));
            if code.Broke? { return Broke(code.why); }
            if code.value.Err? { return Done(Err(code.value.error)); }
          case Declined => return Done(Err(NeedsOperator));
          case PollFailed(e) => return Done(Err(EnrollmentTrouble(e)));
        }
      }
    }

    /** Present what is held; failing that what the store has; failing that enroll. */
    method Credential(ghost p: Pod) returns (r: Outcome<Result<Credential, CredentialsError>>)
      requires world.src.DeviceGrant? && world.Now(p) && p.pc.Asking? && p.held == held
      modifies this, world
      ensures old(world.pos) <= world.pos <= |world.turns|
      ensures r.Done? ==> old(world.pos) < world.pos
      ensures r.Done? && r.value.Ok? ==>
                held == Some(r.value.value) &&
                world.Now(p.(held := held, pc := Dialling(r.value.value.secret)))
      ensures r.Done? && r.value.Err? ==> held == p.held && world.Now(BearerTrouble(p, r.value.error))
      ensures r.Broke? ==> world.Abandoned(r.why) && world.last.live == p.live
    {
      var w := world.Await(false, None, p);
      if w.Gone? { return Broke(w.why); }
      if held.Some? { return Done(Ok(held.value)); }
      var stored := Stored(ThenEnroll, p, w.reply);
      if stored.Broke? { return Broke(stored.why); }
      if stored.value.Err? { return Done(Err(stored.value.error)); }
      var credential;
      if stored.value.value.Some? {
        credential := stored.value.value.value;
      } else {
        var enrolled := Enroll(p.(pc := Requesting));
        if enrolled.Broke? { return Broke(enrolled.why); }
        if enrolled.value.Err? { return Done(Err(enrolled.value.error)); }
        credential := enrolled.value.value;
      }
      held := Some(credential);
      return Done(Ok(credential));
    }

    /** Forget a refused credential, in memory and on disk, unless a sibling has already replaced it:
        then adopt that one. */
    method ForgetRefused(ghost p: Pod) returns (r: Outcome<Result<bool, CredentialsError>>)
      requires world.src.DeviceGrant? && world.Now(p) && p.pc.Forgetting? && p.held == held
      modifies this, world
      ensures old(world.pos) <= world.pos <= |world.turns|
      ensures r.Done? ==> old(world.pos) < world.pos
      ensures r.Done? && r.value.Ok? ==>
                r.value == Ok(true) && world.Now(p.(held := held, pc := Asking)) &&
                (held.None? ==> world.disk == Absent) &&
                (held.Some? ==> Load(world.disk) == Ok(held) &&
                                (p.held.Some? ==> held.value.secret != p.held.value.secret))
      ensures r.Done? && r.value.Err? ==>
                r.value.error == NeedsOperator && held == None &&
                world.Now(Fail(p.(held := None), CredentialsFailed(NeedsOperator)))
      ensures r.Broke? ==> world.Abandoned(r.why) && world.last.live == p.live
    {
      var w := world.Await(false, None, p);
      if w.Gone? { return Broke(w.why); }
      var refused := held;
      held := None;
      var stored := Stored(ThenForget(p.pc.bearer), p, w.reply);
      if stored.Broke? { return Broke(stored.why); }
      if stored.value.Err? { return Done(Err(stored.value.error)); }
      if stored.value.value.Some? {
        var found := stored.value.value.value;
        if refused.None? || refused.value.secret != found.secret {
          held := Some(found);
          return Done(Ok(true));
        }
      }
      w := world.Await(false, Some(Absent), p.(held := None, pc := Clearing(p.pc.bearer)));
      if w.Gone? { return Broke(w.why); }
      var cleared := world.Clear(w.reply.ok);
      if cleared.Err? { return Done(Err(cleared.error)); }
      return Done(Ok(true));
    }
  }

  /** The slot the stop branch can reach. */
  class LiveSlot {
    var conn: Option<nat>

    constructor ()
      ensures conn == None
    {
      conn := None;
    }
  }

  /** One node process: its credential source, the loop over it, and the parked connection. */
  class NodeRunner {
    const world: World
    const grant: DeviceGrantSource
    const live: LiveSlot

    constructor (world: World)
      ensures this.world == world && fresh(grant) && fresh(live)
      ensures grant.world == world && grant.held == None && live.conn == None
    {
      this.world := world;
      grant := new DeviceGrantSource(world);
      live := new LiveSlot();
    }

    /** The process is at `p` and its cells agree. */
    ghost predicate Holds(p: Pod)
      reads this, world, grant, live
    {
      grant.world == world && world.Now(p) && p.held == grant.held && p.live == live.conn
    }

    /** Whichever source was settled on, asked for the bearer to present right now. */
    method Bearer(ghost p: Pod) returns (r: Outcome<Result<string, CredentialsError>>)
      requires Holds(p) && p.pc.Asking?
      modifies world, grant
      ensures old(world.pos) <= world.pos <= |world.turns|
      ensures r.Done? ==> old(world.pos) < world.pos
      ensures r.Done? && r.value.Ok? ==> Holds(p.(held := grant.held, pc := Dialling(r.value.value)))
      ensures r.Done? && r.value.Err? ==> Holds(BearerTrouble(p, r.value.error))
      ensures r.Broke? ==> world.Abandoned(r.why) && world.last.live == p.live
    {
      if world.src.DeviceGrant? {
        var c := grant.Credential(p);
        if c.Broke? { return Broke(c.why); }
        return Done(if c.value.Ok? then Ok(c.value.value.secret) else Err(c.value.error));
      }
      var w := world.Await(world.src.TokenFile? || world.src.Custom?, None, p);
      if w.Gone? { return Broke(w.why); }
      if world.src.StaticToken? { return Done(Ok(world.src.token)); }
      return Done(if world.src.TokenFile? then TokenFileBearer(w.reply.read) else w.reply.bearer);
    }

    /** The source's answer to a refusal. A mounted credential is the operator's, so the answer is no. */
    method ForgetRefused(ghost p: Pod) returns (r: Outcome<Result<bool, CredentialsError>>)
      requires Holds(p) && p.pc.Forgetting?
      modifies world, grant
      ensures old(world.pos) <= world.pos <= |world.turns|
      ensures r.Done? ==> old(world.pos) < world.pos
      ensures r == Done(Ok(true)) ==> Holds(p.(held := grant.held, pc := Asking))
      ensures r == Done(Ok(false)) ==> Holds(Fail(p, ServerRefused))
      ensures r.Done? && r.value.Err? ==>
                if r.value.error.Unavailable? then Holds(p.(pc := Waiting, spent := false))
                else Holds(Fail(p.(held := grant.held), CredentialsFailed(r.value.error)))
      ensures r.Broke? ==> world.Abandoned(r.why) && world.last.live == p.live
    {
      if world.src.DeviceGrant? {
        r := grant.ForgetRefused(p);
        return;
      }
      var w := world.Await(world.src.Custom?, None, p);
      if w.Gone? { return Broke(w.why); }
      return Done(if world.src.Custom? then w.reply.forget else Ok(false));
    }

    method WaitThenWiden(backoff: nat, ghost p: Pod) returns (r: Outcome<nat>)
      requires Holds(p) && p.pc.Waiting? && p.backoff == backoff
      modifies world
      ensures old(world.pos) <= world.pos <= |world.turns|
      ensures r.Done? ==> old(world.pos) < world.pos && Holds(p.(pc := Asking, backoff := r.value))
      ensures r.Broke? ==> world.Abandoned(r.why) && world.last.live == p.live
    {
      var w := world.Await(true, None, p);
      if w.Gone? { return Broke(w.why); }
      var doubled := backoff * 2;
      return Done(if doubled <= world.cfg.backoffMax then doubled else world.cfg.backoffMax);
    }

    /** Park the connection, wait for it to drop, take it back; one that lasted resets the backoff. */
    method Serve(conn: nat, backoff: nat, ghost p: Pod) returns (r: Outcome<nat>)
      requires world.Now(p) && grant.world == world && p.held == grant.held
      requires p.pc.Serving? && p.pc.conn == conn && p.live == Some(conn) && p.backoff == backoff
      modifies world, live
      ensures old(world.pos) <= world.pos <= |world.turns|
      ensures r.Done? ==> old(world.pos) < world.pos && Holds(p.(pc := Waiting, backoff := r.value, live := None))
      ensures r.Broke? ==> world.Abandoned(r.why) && world.last.live == live.conn
    {
      live.conn := Some(conn);
      var w := world.Await(true, None, p);
      if w.Gone? { return Broke(w.why); }
      live.conn := None;
      return Done(if w.reply.up >= world.cfg.stableAfter then world.cfg.backoffMin else backoff);
    }

    /** The reconnecting loop. It comes back in two ways: with an error that trying again cannot mend, or
        abandoned at an await, with the slot still holding the connection the machine was serving, if any. */
    method DialLoop() returns (r: Outcome<RunError>)
      requires Holds(Fresh(world.cfg))
      modifies world, grant, live
      ensures old(world.pos) <= world.pos <= |world.turns|
      ensures r.Done? ==> exists p :: world.Now(p) && p.pc == Exited(Failed(r.value))
      ensures r.Broke? ==> world.Abandoned(r.why) && world.last.live == live.conn
    {
      hide Run;
      var backoff := world.cfg.backoffMin;
      var spent := false;
      while true
        invariant old(world.pos) <= world.pos <= |world.turns|
        invariant Holds(Pod(Asking, grant.held, backoff, spent, None))
        decreases |world.turns| - world.pos
      {
        ghost var p := Pod(Asking, grant.held, backoff, spent, None);
        var bearer := Bearer(p);
        if bearer.Broke? { return Broke(bearer.why); }
        if bearer.value.Err? {
          if !bearer.value.error.Unavailable? { return Done(CredentialsFailed(bearer.value.error)); }
          var waited := WaitThenWiden(backoff, p.(pc := Waiting));
          if waited.Broke? { return Broke(waited.why); }
          backoff := waited.value;
          continue;
        }
        var token := bearer.value.value;
        p := p.(held := grant.held, pc := Dialling(token));
        var w := world.Await(true, None, p);
        if w.Gone? { return Broke(w.why); }
        if w.reply.dial.Up? {
          spent := false;
          p := p.(pc := Serving(token, w.reply.dial.conn), spent := false, live := Some(w.reply.dial.conn));
          var served := Serve(w.reply.dial.conn, backoff, p);
          if served.Broke? { return Broke(served.why); }
          backoff := served.value;
        } else {
          var error := w.reply.dial.error;
          match RefusalOf(error) {
            case Reenroll =>
              if spent { return Done(ServerRefused); }
              spent := true;
              p := p.(pc := Forgetting(token), spent := true);
              var forgot := ForgetRefused(p);
              if forgot.Broke? { return Broke(forgot.why); }
              match forgot.value {
                case Ok(again) =>
                  if !again { return Done(ServerRefused); }
                  continue;
                case Err(e) =>
                  if !e.Unavailable? { return Done(CredentialsFailed(e)); }
                  spent := false;
              }
            case GiveUp => return Done(ServerRefused);
            case Backoff =>
          }
        }
        p := Pod(Waiting, grant.held, backoff, spent, None);
        var waited := WaitThenWiden(backoff, p);
        if waited.Broke? { return Broke(waited.why); }
        backoff := waited.value;
      }
    }

    /** Race the loop against a stop signal, which takes and closes whatever is parked. */
    method TryRun() returns (r: Outcome<Ending>)
      requires Holds(Fresh(world.cfg)) && world.pos == 0
      modifies world, grant, live
      ensures world.pos <= |world.turns|
      ensures r.Done? ==> exists p :: world.Now(p) && p.pc == Exited(r.value)
      ensures r.Broke? ==> r.why != StopSignal && world.Abandoned(r.why)
      ensures r.Done? && r.value.Stopped? ==> live.conn == None
    {
      var outcome := DialLoop();
      match outcome {
        case Done(error) => return Done(Failed(error));
        case Broke(why) =>
          if why != StopSignal { return Broke(why); }
          var held := live.conn;
          live.conn := None;
          return Done(Stopped(held));
      }
    }

    /** The exit status of the process, or nothing while the script leaves it running or kills it: it
        exits exactly when the machine started over these turns does, so that what holds of every run of
        the machine holds here, and for the reason its code gives; with 0 if and only if a stop lands. */
    method RunToExit() returns (code: Option<int>)
      requires Holds(Fresh(world.cfg)) && world.pos == 0
      modifies world, grant, live
      ensures var end := At(world.cfg, world.src, world.turns, |world.turns|).pc;
              && (code.Some? <==> end.Exited?)
              && (code.Some? ==> code.value == ExitCode(end.ending))
      ensures code == Some(0) <==>
                exists i :: 0 <= i < |world.turns| && PodProgress.StopLands(world.cfg, world.src, world.turns, i)
      ensures code.Some? ==>
                exists i :: 0 <= i < |world.turns| && PodExits.EndsAt(world.cfg, world.src, world.turns, i, code.value)
    {
      var outcome := TryRun();
      StartIsForgotten(world.cfg, world.src, world.start, Absent, world.turns);
      PodExits.ZeroExactlyForAStop(world.cfg, world.src, world.turns);
      EndedStays(world.cfg, world.src, world.start, world.turns, world.pos);
      assert world.turns[..|world.turns|] == world.turns;
      match outcome {
        case Done(ending) =>
          ghost var i := PodExits.ExitCodesAreSound(world.cfg, world.src, world.turns);
          return Some(ExitCode(ending));
        case Broke(why) => return None;
      }
    }
  }

  /** Nothing happens to a process that is over. */
  lemma {:induction false} EndedStays(cfg: Config, src: Source, start: Disk, turns: seq<Turn>, i: nat)
    requires i <= |turns|
    ensures Ended(Run(cfg, src, start, turns[..i]).pod.pc) ==>
              Run(cfg, src, start, turns).pod == Run(cfg, src, start, turns[..i]).pod
    decreases |turns|
  {
    if i == |turns| {
      assert turns[..i] == turns;
    } else {
      EndedStays(cfg, src, start, turns[..|turns| - 1], i);
      assert turns[..|turns| - 1][..i] == turns[..i];
    }
  }
}
