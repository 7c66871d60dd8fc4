/** How a credential reaches the disk: `save`, one system call at a time, over names and inodes
    (src/runtime/store.rs:313-343). A crash is simply where the calls stop. */
module AtomicSave {
  import opened Wrappers
  import opened Store

  /** `synced` when everything written to it has been flushed to the device. */
  datatype Inode = Inode(mode: nat, bytes: string, synced: bool)

  /** One directory: names to inodes, and the least inode number never used. */
  datatype FileSystem = FileSystem(names: map<string, nat>, inodes: map<nat, Inode>, next: nat)

  /** The JSON layer, as whatever pair of functions it is. */
  datatype Codec = Codec(serialize: Credential -> string, parse: string -> Option<Credential>)

  ghost predicate Faithful(codec: Codec) {
    (forall c: Credential :: codec.parse(codec.serialize(c)) == Some(c)) && codec.parse("") == None
  }

  /** Every name has an inode and no two names share one. */
  ghost predicate Sane(fs: FileSystem) {
    && (forall n :: n in fs.names ==> fs.names[n] in fs.inodes)
    && (forall n, m :: n in fs.names && m in fs.names && n != m ==> fs.names[n] != fs.names[m])
    && (forall i :: i in fs.inodes ==> i < fs.next)
  }

  function Contents(codec: Codec, bytes: string): Content {
    var parsed := codec.parse(bytes);
    if parsed.Some? then Parses(parsed.value) else Garbage
  }

  /** What a reader finds under a name. */
  function View(codec: Codec, fs: FileSystem, name: string): Disk {
    if name !in fs.names || fs.names[name] !in fs.inodes then Absent
    else
      var inode := fs.inodes[fs.names[name]];
      File(inode.mode, Contents(codec, inode.bytes))
  }

  // ---------------------------------------------------------------- the system calls

  /** `File::create`: truncate what the name already means, keeping its mode, or make a new inode. */
  function CreateFile(fs: FileSystem, name: string, mode: nat): FileSystem {
    if name in fs.names && fs.names[name] in fs.inodes then
      fs.(inodes := fs.inodes[fs.names[name] := fs.inodes[fs.names[name]].(bytes := "", synced := false)])
    else
      FileSystem(fs.names[name := fs.next], fs.inodes[fs.next := Inode(mode, "", false)], fs.next + 1)
  }

  function SetMode(fs: FileSystem, inode: nat, mode: nat): FileSystem {
    if inode in fs.inodes then fs.(inodes := fs.inodes[inode := fs.inodes[inode].(mode := mode)]) else fs
  }

  function Zeros(n: nat): string {
    seq(n, i => '\0')
  }

  /** A write at an offset of an open file, zero-filling a gap someone's truncation left. */
  function Splice(bytes: string, at: nat, chunk: string): string {
    var padded := if |bytes| < at then bytes + Zeros(at - |bytes|) else bytes;
    padded[..at] + chunk + (if at + |chunk| <= |padded| then padded[at + |chunk|..] else "")
  }

  function WriteAt(fs: FileSystem, inode: nat, at: nat, chunk: string): FileSystem {
    if inode in fs.inodes
    then fs.(inodes := fs.inodes[inode := fs.inodes[inode].(bytes := Splice(fs.inodes[inode].bytes, at, chunk), synced := false)])
    else fs
  }

  /** `sync_all`. */
  function Flush(fs: FileSystem, inode: nat): FileSystem {
    if inode in fs.inodes then fs.(inodes := fs.inodes[inode := fs.inodes[inode].(synced := true)]) else fs
  }

  function Rename(fs: FileSystem, from: string, to: string): FileSystem {
    if from in fs.names && from != to then fs.(names := (fs.names - {from})[to := fs.names[from]]) else fs
  }

  // ---------------------------------------------------------------- save, call by call

  /** `createMode` is the mode the umask gives a new file. */
  datatype Job = Job(path: string, temp: string, bytes: string, createMode: nat)

  /** One call's answer: it worked, a write taking up to `n` bytes, or it failed. */
  datatype Io = Fine(n: nat) | Fails

  /** What the next call is; `Writing` with nothing left to write is about to sync. */
  datatype SavePc =
    | Preparing
    | Creating
    | Restricting(inode: nat)
    | Writing(inode: nat, written: nat)
    | Renaming
    | Saved
    | SaveFailed

  datatype SaveState = SaveState(fs: FileSystem, pc: SavePc)

  function SaveStep(job: Job, s: SaveState, io: Io): SaveState {
    if s.pc.Saved? || s.pc.SaveFailed? then s
    else if io.Fails? then s.(pc := SaveFailed)
    else match s.pc
      case Preparing => s.(pc := Creating)
      case Creating =>
        var fs := CreateFile(s.fs, job.temp, job.createMode);
        SaveState(fs, Restricting(if job.temp in fs.names then fs.names[job.temp] else 0))
      case Restricting(inode) =>
        SaveState(SetMode(s.fs, inode, PRIVATE_MODE), Writing(inode, 0))
      case Writing(inode, written) =>
        if written >= |job.bytes| then SaveState(Flush(s.fs, inode), Renaming)
        else
          var k := SomeOf(io.n, |job.bytes| - written);
          SaveState(WriteAt(s.fs, inode, written, job.bytes[written..written + k]), Writing(inode, written + k))
      case Renaming =>
        if job.temp !in s.fs.names then s.(pc := SaveFailed) else SaveState(Rename(s.fs, job.temp, job.path), Saved)
  }

  /** The calls made so far, in order. */
  function SaveRun(job: Job, fs: FileSystem, ios: seq<Io>): SaveState {
    if ios == [] then SaveState(fs, Preparing)
    else SaveStep(job, SaveRun(job, fs, ios[..|ios| - 1]), ios[|ios| - 1])
  }

  // ---------------------------------------------------------------- one writer

  /** Its create is behind it, and its rename, failure or death ahead. */
  predicate UsesTemp(pc: SavePc) {
    pc.Restricting? || pc.Writing? || pc.Renaming?
  }

  /** The temp file is this writer's own, private before the first byte of it is written. */
  ghost predicate OwnsTemp(job: Job, fs: FileSystem, pc: SavePc)
    requires Sane(fs)
  {
    && (UsesTemp(pc) ==> job.temp in fs.names)
    && (pc.Restricting? || pc.Writing? ==> fs.names[job.temp] == pc.inode)
    && (pc.Restricting? ==> fs.inodes[pc.inode].bytes == "" && !fs.inodes[pc.inode].synced)
    && (pc.Writing? ==> pc.written <= |job.bytes| &&
                        fs.inodes[pc.inode] == Inode(PRIVATE_MODE, job.bytes[..pc.written], false))
    && (pc.Renaming? ==> fs.inodes[fs.names[job.temp]] == Inode(PRIVATE_MODE, job.bytes, true))
  }

  /** Between calls: the path still means what it meant, and the temp file is this writer's own. */
  ghost predicate Underway(job: Job, before: FileSystem, s: SaveState)
    requires Sane(before)
  {
    && Sane(s.fs) && job.temp != job.path
    && (s.pc.Saved? || (
        && (job.path in s.fs.names <==> job.path in before.names)
        && (job.path in before.names ==>
              s.fs.names[job.path] == before.names[job.path] &&
              s.fs.inodes[s.fs.names[job.path]] == before.inodes[before.names[job.path]])))
    && OwnsTemp(job, s.fs, s.pc)
    && (s.pc.Saved? ==> job.path in s.fs.names && s.fs.inodes[s.fs.names[job.path]] == Inode(PRIVATE_MODE, job.bytes, true))
  }

  lemma StepStaysUnderway(job: Job, before: FileSystem, s: SaveState, io: Io)
    requires Sane(before) && Underway(job, before, s)
    ensures Underway(job, before, SaveStep(job, s, io))
  {
    if io.Fine? && s.pc.Writing? && s.pc.written < |job.bytes| {
      var k := SomeOf(io.n, |job.bytes| - s.pc.written);
      assert job.bytes[..s.pc.written] + job.bytes[s.pc.written..s.pc.written + k] == job.bytes[..s.pc.written + k];
    }
    if io.Fine? && s.pc.Writing? && s.pc.written == |job.bytes| {
      assert job.bytes[..s.pc.written] == job.bytes;
    }
  }

  lemma {:induction false} RunsStayUnderway(job: Job, fs: FileSystem, ios: seq<Io>)
    requires Sane(fs) && job.temp != job.path
    ensures Underway(job, fs, SaveRun(job, fs, ios))
    decreases |ios|
  {
    if ios != [] {
      RunsStayUnderway(job, fs, ios[..|ios| - 1]);
      StepStaysUnderway(job, fs, SaveRun(job, fs, ios[..|ios| - 1]), ios[|ios| - 1]);
    }
  }

  function JobFor(codec: Codec, path: string, temp: string, c: Credential, createMode: nat): Job {
    Job(path, temp, codec.serialize(c), createMode)
  }

  /** Whatever was stored is what is read until the save completes, and then it is the new credential:
      stopping after any call, or part of a write, or failing, changes nothing a reader sees. */
  lemma SaveIsCrashAtomic(codec: Codec, path: string, temp: string, c: Credential, createMode: nat, fs: FileSystem, ios: seq<Io>)
    requires Faithful(codec) && Sane(fs) && temp != path
    ensures var s := SaveRun(JobFor(codec, path, temp, c, createMode), fs, ios);
            && Sane(s.fs)
            && View(codec, s.fs, path) == (if s.pc.Saved? then SavedFile(c) else View(codec, fs, path))
            && (s.pc.Saved? && c.version == CREDENTIAL_VERSION ==> Load(View(codec, s.fs, path)) == Ok(Some(c)))
  {
    RunsStayUnderway(JobFor(codec, path, temp, c, createMode), fs, ios);
  }

  function Entry(names: map<string, nat>, name: string): Option<nat> {
    if name in names then Some(names[name]) else None
  }

  /** What a directory no one has synced may come back as: each name means what it meant after some call
      of this save, or before them all, and different names may have got differently far. */
  ghost predicate Surviving(job: Job, fs: FileSystem, ios: seq<Io>, names: map<string, nat>) {
    forall n :: exists m: nat :: m <= |ios| && Entry(names, n) == Entry(SaveRun(job, fs, ios[..m]).fs.names, n)
  }

  /** Power failing: the directory comes back as `names`, and a file that was not flushed as anything. */
  function AfterPowerLoss(fs: FileSystem, names: map<string, nat>, junk: map<nat, Inode>): FileSystem {
    FileSystem(names, map i | i in fs.inodes :: if !fs.inodes[i].synced && i in junk then junk[i] else fs.inodes[i], fs.next)
  }

  /** The inode the path meant before a save is left alone by all of it, also once the path means another. */
  lemma {:induction false} OldInodeIsKept(job: Job, fs: FileSystem, ios: seq<Io>)
    requires Sane(fs) && job.temp != job.path && job.path in fs.names
    ensures var t := SaveRun(job, fs, ios).fs;
            fs.names[job.path] in t.inodes && t.inodes[fs.names[job.path]] == fs.inodes[fs.names[job.path]]
    decreases |ios|
  {
    if ios != [] {
      OldInodeIsKept(job, fs, ios[..|ios| - 1]);
      RunsStayUnderway(job, fs, ios[..|ios| - 1]);
    }
  }

  /** What the path means after the first `m` calls, in terms of where the save has got to by now. */
  lemma {:induction false} PathMeant(job: Job, fs: FileSystem, ios: seq<Io>, m: nat)
    requires Sane(fs) && job.temp != job.path && m <= |ios|
    ensures var early := SaveRun(job, fs, ios[..m]);
            if early.pc.Saved? then SaveRun(job, fs, ios) == early else Entry(early.fs.names, job.path) == Entry(fs.names, job.path)
    decreases |ios| - m
  {
    RunsStayUnderway(job, fs, ios[..m]);
    if m < |ios| {
      PathMeant(job, fs, ios, m + 1);
      OneCall(job, fs, ios, m);
    } else {
      assert ios[..m] == ios;
    }
  }

  /** The power failing at any point of a save, or after it, whatever it does to bytes not yet flushed and
      however much of the directory it loses, leaves the old credential or the new one and nothing torn:
      the rename comes only after the flush. Before the save completes it leaves the old one. */
  lemma SaveSurvivesPowerLoss(codec: Codec, path: string, temp: string, c: Credential, createMode: nat, fs: FileSystem,
                              ios: seq<Io>, names: map<string, nat>, junk: map<nat, Inode>)
    requires Faithful(codec) && Sane(fs) && temp != path
    requires path in fs.names ==> fs.inodes[fs.names[path]].synced
    requires Surviving(JobFor(codec, path, temp, c, createMode), fs, ios, names)
    ensures var s := SaveRun(JobFor(codec, path, temp, c, createMode), fs, ios);
            var v := View(codec, AfterPowerLoss(s.fs, names, junk), path);
            v == View(codec, fs, path) || (s.pc.Saved? && v == SavedFile(c))
  {
    var job := JobFor(codec, path, temp, c, createMode);
    var m: nat :| m <= |ios| && Entry(names, path) == Entry(SaveRun(job, fs, ios[..m]).fs.names, path);
    PathMeant(job, fs, ios, m);
    RunsStayUnderway(job, fs, ios);
    if path in fs.names { OldInodeIsKept(job, fs, ios); }
  }

  /** A completed save may be kept or lost: nothing syncs the directory, so the power failing after `save`
      has returned can bring the old credential back. */
  lemma CompletedSaveMayBeLost(codec: Codec, path: string, temp: string, c: Credential, createMode: nat, fs: FileSystem,
                               ios: seq<Io>, junk: map<nat, Inode>)
    requires Faithful(codec) && Sane(fs) && temp != path
    requires path in fs.names ==> fs.inodes[fs.names[path]].synced
    requires SaveRun(JobFor(codec, path, temp, c, createMode), fs, ios).pc.Saved?
    ensures var job := JobFor(codec, path, temp, c, createMode);
            var t := SaveRun(job, fs, ios).fs;
            && Surviving(job, fs, ios, fs.names) && View(codec, AfterPowerLoss(t, fs.names, junk), path) == View(codec, fs, path)
            && Surviving(job, fs, ios, t.names) && View(codec, AfterPowerLoss(t, t.names, junk), path) == SavedFile(c)
  {
    var job := JobFor(codec, path, temp, c, createMode);
    var t := SaveRun(job, fs, ios).fs;
    assert ios[..0] == [] && ios[..|ios|] == ios;
    assert Surviving(job, fs, ios, fs.names) by {
      forall n ensures Entry(fs.names, n) == Entry(SaveRun(job, fs, ios[..0]).fs.names, n) {}
    }
    assert Surviving(job, fs, ios, t.names) by {
      forall n ensures Entry(t.names, n) == Entry(SaveRun(job, fs, ios[..|ios|]).fs.names, n) {}
    }
    RunsStayUnderway(job, fs, ios);
    if path in fs.names {
      OldInodeIsKept(job, fs, ios);
    }
  }

  /** A temp file with anything in it can be read by its owner alone. */
  ghost predicate TempPrivate(fs: FileSystem, temp: string) {
    temp in fs.names && fs.names[temp] in fs.inodes && fs.inodes[fs.names[temp]].bytes != "" ==>
      fs.inodes[fs.names[temp]].mode == PRIVATE_MODE
  }

  /** From the create on, at no point of a save is a byte in a temp file that others can read, whatever was
      left there before in whatever mode; until then the save has touched nothing. And the path's own mode is
      private once it is the new file. */
  lemma {:induction false} SecretIsNeverExposed(job: Job, fs: FileSystem, ios: seq<Io>)
    requires Sane(fs) && job.temp != job.path
    ensures var s := SaveRun(job, fs, ios);
            && (s.fs == fs || TempPrivate(s.fs, job.temp))
            && (UsesTemp(s.pc) || s.pc.Saved? ==> TempPrivate(s.fs, job.temp))
    ensures SaveRun(job, fs, ios).pc.Saved? ==>
              var t := SaveRun(job, fs, ios).fs;
              job.path in t.names && t.names[job.path] in t.inodes &&
              t.inodes[t.names[job.path]].mode == PRIVATE_MODE && job.temp !in t.names
    decreases |ios|
  {
    RunsStayUnderway(job, fs, ios);
    if ios != [] {
      var before := SaveRun(job, fs, ios[..|ios| - 1]);
      SecretIsNeverExposed(job, fs, ios[..|ios| - 1]);
      RunsStayUnderway(job, fs, ios[..|ios| - 1]);
    }
  }

  // ---------------------------------------------------------------- exactly when it is atomic

  /** Stopping `save` anywhere leaves what was there or the new credential. */
  ghost predicate CrashAtomic(codec: Codec, path: string, temp: string) {
    forall fs, c: Credential, createMode, ios :: Sane(fs) ==>
      var v := View(codec, SaveRun(JobFor(codec, path, temp, c, createMode), fs, ios).fs, path);
      v == View(codec, fs, path) || v == SavedFile(c)
  }

  /** The claim needs the temp name to differ from the target, and nothing else: a target whose own
      extension is `tmp` is truncated in place by the first call that touches it. */
  lemma AtomicExactlyWhenTempDiffers(codec: Codec, path: string, temp: string, c: Credential)
    requires Faithful(codec)
    ensures CrashAtomic(codec, path, temp) <==> temp != path
  {
    if temp != path {
      forall fs, c: Credential, createMode, ios | Sane(fs)
        ensures var v := View(codec, SaveRun(JobFor(codec, path, temp, c, createMode), fs, ios).fs, path);
                v == View(codec, fs, path) || v == SavedFile(c)
      {
        SaveIsCrashAtomic(codec, path, temp, c, createMode, fs, ios);
      }
    } else {
      var fs := FileSystem(map[path := 0], map[0 := Inode(PRIVATE_MODE, codec.serialize(c), true)], 1);
      var job := JobFor(codec, path, temp, c, PRIVATE_MODE);
      var ios := [Fine(0), Fine(0)];
      assert ios[..1] == [Fine(0)] && ios[..1][..0] == [];
      assert SaveRun(job, fs, ios[..1]) == SaveState(fs, Creating);
      assert View(codec, SaveRun(job, fs, ios).fs, path) == File(PRIVATE_MODE, Garbage);
      assert View(codec, fs, path) == SavedFile(c);
    }
  }

  // ---------------------------------------------------------------- the code itself

  /** The volume as `save` changes it. */
  class Volume {
    var fs: FileSystem

    constructor (fs: FileSystem)
      ensures this.fs == fs
    {
      this.fs := fs;
    }

    /** `fs::File::create`, giving the open file's inode. */
    method Create(name: string, mode: nat) returns (inode: nat)
      modifies this
      ensures fs == CreateFile(old(fs), name, mode)
      ensures inode == if name in fs.names then fs.names[name] else 0
    {
      fs := CreateFile(fs, name, mode);
      inode := if name in fs.names then fs.names[name] else 0;
    }

    /** `write_all`: as many writes as it takes, each taking some of what is left. */
    method WriteAll(job: Job, inode: nat, ios: seq<Io>, start: nat, ghost was: FileSystem) returns (used: nat, written: nat, failed: bool)
      requires start <= |ios| && SaveRun(job, was, ios[..start]) == SaveState(fs, Writing(inode, 0))
      modifies this
      ensures start <= used <= |ios| && written <= |job.bytes|
      ensures SaveRun(job, was, ios[..used]) == SaveState(fs, if failed then SaveFailed else Writing(inode, written))
      ensures !failed && written < |job.bytes| ==> used == |ios|
    {
      hide SaveRun, SaveStep;
      used, written, failed := start, 0, false;
      while written < |job.bytes| && used < |ios|
        invariant start <= used <= |ios| && written <= |job.bytes|
        invariant SaveRun(job, was, ios[..used]) == SaveState(fs, Writing(inode, written))
        decreases |ios| - used
      {
        WriteCall(job, was, ios, used, fs, inode, written);
        if ios[used].Fails? { return used + 1, written, true; }
        var k := SomeOf(ios[used].n, |job.bytes| - written);
        fs := WriteAt(fs, inode, written, job.bytes[written..written + k]);
        used, written := used + 1, written + k;
      }
    }

    /** The directory made ready, the temp file made, and its mode restricted before anything is in it. */
    method OpenTemp(job: Job, ios: seq<Io>) returns (used: nat, inode: nat, failed: bool)
      modifies this
      ensures used <= |ios| && used <= 3
      ensures failed ==> SaveRun(job, old(fs), ios[..used]) == SaveState(fs, SaveFailed)
      ensures !failed && used == 3 ==> SaveRun(job, old(fs), ios[..used]) == SaveState(fs, Writing(inode, 0))
      ensures !failed && used < 3 ==>
                used == |ios| && var s := SaveRun(job, old(fs), ios[..used]); s.fs == fs && !s.pc.Saved? && !s.pc.SaveFailed?
    {
      ghost var was := fs;
      used, inode, failed := 0, 0, false;
      if |ios| == 0 { return; }
      OneCall(job, was, ios, 0);
      if ios[0].Fails? { return 1, 0, true; }
      assert SaveRun(job, was, ios[..1]) == SaveState(fs, Creating);
      if |ios| == 1 { return 1, 0, false; }
      OneCall(job, was, ios, 1);
      if ios[1].Fails? { return 2, 0, true; }
      inode := Create(job.temp, job.createMode);
      assert SaveRun(job, was, ios[..2]) == SaveState(fs, Restricting(inode));
      if |ios| == 2 { return 2, inode, false; }
      OneCall(job, was, ios, 2);
      if ios[2].Fails? { return 3, inode, true; }
      fs := SetMode(fs, inode, PRIVATE_MODE);
      return 3, inode, false;
    }

    /** The save as written, against a script of what each system call answers; running out of answers
        is death on the spot. The volume is always where the call-by-call machine is. */
    method Save(job: Job, ios: seq<Io>) returns (used: nat, saved: Option<bool>)
      modifies this
      ensures used <= |ios| && SaveRun(job, old(fs), ios[..used]).fs == fs
      ensures saved == Some(true) <==> SaveRun(job, old(fs), ios[..used]).pc.Saved?
      ensures saved == Some(false) <==> SaveRun(job, old(fs), ios[..used]).pc.SaveFailed?
      ensures saved.None? ==> used == |ios|
    {
      hide SaveRun;
      ghost var was := fs;
      var inode, failed;
      used, inode, failed := OpenTemp(job, ios);
      if failed { return used, Some(false); }
      if used < 3 { return used, None; }

      var written;
      used, written, failed := WriteAll(job, inode, ios, 3, was);
      if failed { return used, Some(false); }
      if used == |ios| { return used, None; }
      OneCall(job, was, ios, used);
      if ios[used].Fails? { return used + 1, Some(false); }
      fs := Flush(fs, inode);

      used := used + 1;
      assert SaveRun(job, was, ios[..used]) == SaveState(fs, Renaming);
      if used == |ios| { return used, None; }
      OneCall(job, was, ios, used);
      if ios[used].Fails? || job.temp !in fs.names { return used + 1, Some(false); }
      fs := Rename(fs, job.temp, job.path);
      return used + 1, Some(true);
    }
  }

  lemma WriteCall(job: Job, was: FileSystem, ios: seq<Io>, k: nat, fs: FileSystem, inode: nat, written: nat)
    requires k < |ios| && SaveRun(job, was, ios[..k]) == SaveState(fs, Writing(inode, written)) && written < |job.bytes|
    ensures SaveRun(job, was, ios[..k + 1]) ==
            if ios[k].Fails? then SaveState(fs, SaveFailed)
            else
              var n := SomeOf(ios[k].n, |job.bytes| - written);
              SaveState(WriteAt(fs, inode, written, job.bytes[written..written + n]), Writing(inode, written + n))
  {
    hide SaveRun;
    OneCall(job, was, ios, k);
  }

  lemma OneCall(job: Job, fs: FileSystem, ios: seq<Io>, k: nat)
    requires k < |ios|
    ensures SaveRun(job, fs, ios[..k + 1]) == SaveStep(job, SaveRun(job, fs, ios[..k]), ios[k])
  {
    assert ios[..k + 1][..k] == ios[..k];
  }
}
