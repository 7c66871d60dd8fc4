/** Several writers of one file at once: they all use one temp name (src/runtime/store.rs:327). */
module SaveCrowd {
  import opened Wrappers
  import opened Store
  import opened AtomicSave

  /** One volume, and where each of its writers has got to. */
  datatype Crowd = Crowd(fs: FileSystem, pcs: seq<SavePc>)

  /** One writer's next call; a writer that dies is one whose calls fail from then on. */
  datatype Move = Move(writer: nat, io: Io)

  function CrowdStep(jobs: seq<Job>, s: Crowd, m: Move): Crowd
    requires |s.pcs| == |jobs|
  {
    if m.writer >= |jobs| then s
    else
      var t := SaveStep(jobs[m.writer], SaveState(s.fs, s.pcs[m.writer]), m.io);
      Crowd(t.fs, s.pcs[m.writer := t.pc])
  }

  /** These moves, from wherever the writers are. */
  function CrowdRun(jobs: seq<Job>, start: Crowd, moves: seq<Move>): (s: Crowd)
    requires |start.pcs| == |jobs|
    ensures |s.pcs| == |jobs|
  {
    if moves == [] then start
    else CrowdStep(jobs, CrowdRun(jobs, start, moves[..|moves| - 1]), moves[|moves| - 1])
  }

  /** Nobody has begun. */
  function Idle(jobs: seq<Job>, fs: FileSystem): Crowd {
    Crowd(fs, seq(|jobs|, i => Preparing))
  }

  /** The writer whose rename came last, if any has come. */
  function LastSaver(jobs: seq<Job>, start: Crowd, moves: seq<Move>): Option<nat>
    requires |start.pcs| == |jobs|
  {
    if moves == [] then None
    else
      var before := moves[..|moves| - 1];
      var i := moves[|moves| - 1].writer;
      if i < |jobs| && !CrowdRun(jobs, start, before).pcs[i].Saved? && CrowdRun(jobs, start, moves).pcs[i].Saved? then Some(i)
      else LastSaver(jobs, start, before)
  }

  /** No create lands while another writer is between its own create and its end. */
  ghost predicate CreatesAlone(s: Crowd, m: Move) {
    m.writer < |s.pcs| && s.pcs[m.writer].Creating? && m.io.Fine? ==>
      forall j :: 0 <= j < |s.pcs| && j != m.writer ==> !UsesTemp(s.pcs[j])
  }

  ghost predicate Apart(jobs: seq<Job>, start: Crowd, moves: seq<Move>)
    requires |start.pcs| == |jobs|
  {
    forall k :: 0 <= k < |moves| ==> CreatesAlone(CrowdRun(jobs, start, moves[..k]), moves[k])
  }

  ghost predicate SameFile(jobs: seq<Job>, path: string, temp: string) {
    temp != path && forall i :: 0 <= i < |jobs| ==> jobs[i].path == path && jobs[i].temp == temp
  }

  /** What the path means: what it meant to begin with, or the last finished file. */
  ghost predicate PathIs(path: string, before: FileSystem, fs: FileSystem, file: Option<string>)
    requires Sane(before) && Sane(fs)
  {
    if file.Some? then path in fs.names && fs.inodes[fs.names[path]] == Inode(PRIVATE_MODE, file.value, true)
    else
      && (path in fs.names <==> path in before.names)
      && (path in before.names ==> fs.inodes[fs.names[path]] == before.inodes[before.names[path]])
  }

  ghost predicate Orderly(jobs: seq<Job>, s: Crowd) {
    && |s.pcs| == |jobs| && Sane(s.fs)
    && (forall i :: 0 <= i < |jobs| ==> OwnsTemp(jobs[i], s.fs, s.pcs[i]))
    && (forall i, j :: 0 <= i < |jobs| && 0 <= j < |jobs| && UsesTemp(s.pcs[i]) && UsesTemp(s.pcs[j]) ==> i == j)
  }

  lemma CrowdStaysOrderly(jobs: seq<Job>, path: string, temp: string, before: FileSystem, s: Crowd, m: Move, file: Option<string>)
    requires SameFile(jobs, path, temp) && Sane(before) && Orderly(jobs, s) && PathIs(path, before, s.fs, file)
    requires m.writer < |jobs| && CreatesAlone(s, m)
    ensures var t := CrowdStep(jobs, s, m);
            && Orderly(jobs, t)
            && PathIs(path, before, t.fs,
                      if !s.pcs[m.writer].Saved? && t.pcs[m.writer].Saved? then Some(jobs[m.writer].bytes) else file)
  {
    var i := m.writer;
    var t := CrowdStep(jobs, s, m);
    if !s.pcs[i].Saved? && !s.pcs[i].SaveFailed? && m.io.Fine? {
      StepStaysUnderway(jobs[i], s.fs, SaveState(s.fs, s.pcs[i]), m.io);
      assert forall j :: 0 <= j < |jobs| && j != i && UsesTemp(s.pcs[j]) ==> t.fs == s.fs;
    }
  }

  lemma IdleIsOrderly(jobs: seq<Job>, fs: FileSystem)
    requires Sane(fs)
    ensures Orderly(jobs, Idle(jobs, fs))
  {
  }

  /** Any number of writers of one file, however their calls, failures and deaths interleave: if no create
      lands while another writer is at work on the temp file, then a reader finds the credential of the
      last one that finished, or what was there before them all. */
  lemma {:induction false} ApartSavesAreAtomic(jobs: seq<Job>, path: string, temp: string, start: Crowd, moves: seq<Move>)
    requires SameFile(jobs, path, temp) && Orderly(jobs, start) && Apart(jobs, start, moves)
    ensures var last := LastSaver(jobs, start, moves);
            && Orderly(jobs, CrowdRun(jobs, start, moves)) && (last.Some? ==> last.value < |jobs|)
            && PathIs(path, start.fs, CrowdRun(jobs, start, moves).fs, if last.Some? then Some(jobs[last.value].bytes) else None)
    decreases |moves|
  {
    if moves != [] {
      var n := |moves| - 1;
      ApartBefore(jobs, start, moves);
      ApartSavesAreAtomic(jobs, path, temp, start, moves[..n]);
      var last := LastSaver(jobs, start, moves[..n]);
      var s := CrowdRun(jobs, start, moves[..n]);
      assert CreatesAlone(s, moves[n]);
      if moves[n].writer < |jobs| {
        CrowdStaysOrderly(jobs, path, temp, start.fs, s, moves[n], if last.Some? then Some(jobs[last.value].bytes) else None);
      }
    }
  }

  lemma ApartBefore(jobs: seq<Job>, start: Crowd, moves: seq<Move>)
    requires moves != [] && |start.pcs| == |jobs| && Apart(jobs, start, moves)
    ensures Apart(jobs, start, moves[..|moves| - 1])
  {
    var n := |moves| - 1;
    forall k | 0 <= k < n ensures CreatesAlone(CrowdRun(jobs, start, moves[..n][..k]), moves[..n][k]) {
      assert moves[..n][..k] == moves[..k];
      assert CreatesAlone(CrowdRun(jobs, start, moves[..k]), moves[k]);
    }
  }

  /** Writer `i` is saving credential `i`. */
  ghost predicate Serialized(codec: Codec, jobs: seq<Job>, credentials: seq<Credential>) {
    |jobs| == |credentials| && forall i :: 0 <= i < |jobs| ==> jobs[i].bytes == codec.serialize(credentials[i])
  }

  /** In a reader's terms. */
  lemma ReadersOfACrowd(codec: Codec, path: string, temp: string, credentials: seq<Credential>, jobs: seq<Job>,
                        start: Crowd, moves: seq<Move>)
    requires Faithful(codec) && SameFile(jobs, path, temp) && Serialized(codec, jobs, credentials)
    requires Orderly(jobs, start) && Apart(jobs, start, moves)
    ensures var last := LastSaver(jobs, start, moves);
            && (last.Some? ==> last.value < |credentials|)
            && View(codec, CrowdRun(jobs, start, moves).fs, path) ==
               if last.Some? then SavedFile(credentials[last.value]) else View(codec, start.fs, path)
  {
    ApartSavesAreAtomic(jobs, path, temp, start, moves);
  }

  /** Everything is written, and the flush or the rename comes next. */
  predicate WrittenOut(job: Job, pc: SavePc) {
    pc.Renaming? || (pc.Writing? && pc.written == |job.bytes|)
  }

  /** Let one writer's create land when another has written everything: the other goes on to report success,
      and what it has put in place is an empty file, neither an old credential nor a new one. */
  lemma SecondCreateTears(codec: Codec, path: string, temp: string, jobs: seq<Job>, s: Crowd, i: nat, j: nat, n: nat)
    requires Faithful(codec) && SameFile(jobs, path, temp) && Orderly(jobs, s)
    requires i < |jobs| && j < |jobs| && i != j && WrittenOut(jobs[i], s.pcs[i]) && s.pcs[j].Creating?
    ensures var t := CrowdStep(jobs, s, Move(j, Fine(n)));
            var u := if s.pcs[i].Renaming? then t else CrowdStep(jobs, t, Move(i, Fine(n)));
            var v := CrowdStep(jobs, u, Move(i, Fine(n)));
            && u.pcs[i].Renaming? && v.pcs[i].Saved?
            && View(codec, v.fs, path) == File(PRIVATE_MODE, Garbage)
            && Load(View(codec, v.fs, path)) == Err(Unusable)
  {
    assert OwnsTemp(jobs[i], s.fs, s.pcs[i]);
  }

  predicate Live(pc: SavePc) {
    !pc.Saved? && !pc.SaveFailed?
  }

  ghost predicate TwoLive(s: Crowd) {
    exists i, j :: 0 <= i < |s.pcs| && 0 <= j < |s.pcs| && i != j && Live(s.pcs[i]) && Live(s.pcs[j])
  }

  /** From here a save can report success and leave a corrupt file in place. */
  ghost predicate CanTear(codec: Codec, path: string, jobs: seq<Job>, s: Crowd)
    requires |s.pcs| == |jobs|
  {
    exists moves :: LastSaver(jobs, s, moves).Some? && View(codec, CrowdRun(jobs, s, moves).fs, path) == File(PRIVATE_MODE, Garbage)
  }

  /** Writers only ever finish. */
  lemma {:induction false} AloneStaysAlone(jobs: seq<Job>, start: Crowd, moves: seq<Move>)
    requires |start.pcs| == |jobs| && !TwoLive(start)
    ensures !TwoLive(CrowdRun(jobs, start, moves)) && Apart(jobs, start, moves)
    decreases |moves|
  {
    if moves != [] {
      var n := |moves| - 1;
      var s := CrowdRun(jobs, start, moves[..n]);
      AloneStaysAlone(jobs, start, moves[..n]);
      assert forall i :: 0 <= i < |jobs| && Live(CrowdStep(jobs, s, moves[n]).pcs[i]) ==> Live(s.pcs[i]);
      hide CrowdStep, Apart;
      ApartAfter(jobs, start, moves);
    }
  }

  lemma ApartAfter(jobs: seq<Job>, start: Crowd, moves: seq<Move>)
    requires moves != [] && |start.pcs| == |jobs| && Apart(jobs, start, moves[..|moves| - 1])
    requires CreatesAlone(CrowdRun(jobs, start, moves[..|moves| - 1]), moves[|moves| - 1])
    ensures Apart(jobs, start, moves)
  {
    hide CrowdRun, CreatesAlone;
    var n := |moves| - 1;
    forall k | 0 <= k < |moves| ensures CreatesAlone(CrowdRun(jobs, start, moves[..k]), moves[k]) {
      if k < n {
        assert CreatesAlone(CrowdRun(jobs, start, moves[..n][..k]), moves[..n][k]);
        assert moves[..n][..k] == moves[..k];
      }
    }
  }

  /** What is left to do before writer `i` has written everything and writer `j` is about to create. */
  function Unready(job: Job, one: SavePc, two: SavePc): nat {
    (match one
     case Preparing => 4
     case Creating => 3
     case Restricting(_) => 2
     case Writing(_, written) => if written < |job.bytes| then 1 else 0
     case _ => 0) + if two.Preparing? then 1 else 0
  }

  lemma OneMoreMove(jobs: seq<Job>, start: Crowd, moves: seq<Move>, m: Move)
    requires |start.pcs| == |jobs|
    ensures var s := CrowdRun(jobs, start, moves);
            var t := CrowdRun(jobs, start, moves + [m]);
            && t == CrowdStep(jobs, s, m)
            && (m.writer < |jobs| && !s.pcs[m.writer].Saved? && t.pcs[m.writer].Saved? ==>
                  LastSaver(jobs, start, moves + [m]) == Some(m.writer))
  {
    assert (moves + [m])[..|moves|] == moves;
  }

  /** Writer `i` is at work on the temp file or will be, nobody else is, and writer `j` has not created yet. */
  ghost predicate Contending(jobs: seq<Job>, s: Crowd, i: nat, j: nat) {
    && Orderly(jobs, s) && i < |jobs| && j < |jobs| && i != j
    && Live(s.pcs[i]) && (s.pcs[j].Preparing? || s.pcs[j].Creating?)
    && (forall k :: 0 <= k < |jobs| && UsesTemp(s.pcs[k]) ==> k == i)
  }

  lemma ContendingStep(jobs: seq<Job>, path: string, temp: string, s: Crowd, i: nat, j: nat)
    requires SameFile(jobs, path, temp) && Contending(jobs, s, i, j)
    requires s.pcs[j].Preparing? || !WrittenOut(jobs[i], s.pcs[i])
    ensures var t := CrowdStep(jobs, s, if s.pcs[j].Preparing? then Move(j, Fine(0)) else Move(i, Fine(|jobs[i].bytes|)));
            Contending(jobs, t, i, j) && Unready(jobs[i], t.pcs[i], t.pcs[j]) < Unready(jobs[i], s.pcs[i], s.pcs[j])
  {
    assert OwnsTemp(jobs[i], s.fs, s.pcs[i]);
    CrowdStaysOrderly(jobs, path, temp, s.fs, s, if s.pcs[j].Preparing? then Move(j, Fine(0)) else Move(i, Fine(|jobs[i].bytes|)), None);
  }

  /** The create, what the other has left to do, and the tear. */
  lemma LastMoves(codec: Codec, path: string, temp: string, jobs: seq<Job>, start: Crowd, moves: seq<Move>, i: nat, j: nat)
    requires Faithful(codec) && SameFile(jobs, path, temp) && |start.pcs| == |jobs|
    requires var s := CrowdRun(jobs, start, moves);
             Contending(jobs, s, i, j) && s.pcs[j].Creating? && WrittenOut(jobs[i], s.pcs[i])
    ensures CanTear(codec, path, jobs, start)
  {
    var s := CrowdRun(jobs, start, moves);
    SecondCreateTears(codec, path, temp, jobs, s, i, j, 0);
    hide CrowdRun, LastSaver, CrowdStep, View;
    OneMoreMove(jobs, start, moves, Move(j, Fine(0)));
    var more := moves + [Move(j, Fine(0))];
    if !s.pcs[i].Renaming? {
      OneMoreMove(jobs, start, more, Move(i, Fine(0)));
      more := more + [Move(i, Fine(0))];
    }
    OneMoreMove(jobs, start, more, Move(i, Fine(0)));
    more := more + [Move(i, Fine(0))];
    assert LastSaver(jobs, start, more).Some?;
  }

  /** Getting two writers there. */
  lemma {:induction false} TwoLiveTear(codec: Codec, path: string, temp: string, jobs: seq<Job>, start: Crowd, moves: seq<Move>, i: nat, j: nat)
    requires Faithful(codec) && SameFile(jobs, path, temp) && |start.pcs| == |jobs|
    requires Contending(jobs, CrowdRun(jobs, start, moves), i, j)
    ensures CanTear(codec, path, jobs, start)
    decreases var s := CrowdRun(jobs, start, moves); Unready(jobs[i], s.pcs[i], s.pcs[j])
  {
    var s := CrowdRun(jobs, start, moves);
    if s.pcs[j].Creating? && WrittenOut(jobs[i], s.pcs[i]) {
      LastMoves(codec, path, temp, jobs, start, moves, i, j);
    } else {
      hide CrowdRun, CrowdStep, CanTear, Unready;
      var m := if s.pcs[j].Preparing? then Move(j, Fine(0)) else Move(i, Fine(|jobs[i].bytes|));
      ContendingStep(jobs, path, temp, s, i, j);
      OneMoreMove(jobs, start, moves, m);
      TwoLiveTear(codec, path, temp, jobs, start, moves + [m], i, j);
    }
  }

  /** Exactly when a crowd of writers is not atomic: while any two of them are still at it. From any orderly
      state some interleaving of what is left tears the file if and only if two writers have yet to finish,
      so with one process saving it never is, and with two it always can be. */
  lemma TearsExactlyWhenTwoAreLive(codec: Codec, path: string, temp: string, credentials: seq<Credential>, jobs: seq<Job>, s: Crowd)
    requires Faithful(codec) && SameFile(jobs, path, temp) && Serialized(codec, jobs, credentials) && Orderly(jobs, s)
    ensures CanTear(codec, path, jobs, s) <==> TwoLive(s)
  {
    if i, j :| 0 <= i < |s.pcs| && 0 <= j < |s.pcs| && i != j && Live(s.pcs[i]) && Live(s.pcs[j]) {
      var user := if k :| 0 <= k < |jobs| && UsesTemp(s.pcs[k]) then k else i;
      TwoLiveTear(codec, path, temp, jobs, s, [], user, if user == i then j else i);
    } else if moves :| LastSaver(jobs, s, moves).Some? && View(codec, CrowdRun(jobs, s, moves).fs, path) == File(PRIVATE_MODE, Garbage) {
      AloneStaysAlone(jobs, s, moves);
      ReadersOfACrowd(codec, path, temp, credentials, jobs, s, moves);
      assert false;
    }
  }
}
