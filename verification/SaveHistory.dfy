/** Saves one after another over one volume, each finished, failed or cut short, and the power failing. */
module SaveHistory {
  import opened Wrappers
  import opened Store
  import opened AtomicSave

  datatype Attempt = Attempt(credential: Credential, createMode: nat, ios: seq<Io>)

  /** Saves one after another, each cut short or not, on whatever the last one left. */
  function Attempts(codec: Codec, path: string, temp: string, fs: FileSystem, tries: seq<Attempt>): FileSystem {
    if tries == [] then fs
    else
      var last := tries[|tries| - 1];
      SaveRun(JobFor(codec, path, temp, last.credential, last.createMode),
              Attempts(codec, path, temp, fs, tries[..|tries| - 1]), last.ios).fs
  }

  /** The last attempt that completed, if any did. */
  function LastCompleted(codec: Codec, path: string, temp: string, fs: FileSystem, tries: seq<Attempt>): Option<Credential> {
    if tries == [] then None
    else
      var last := tries[|tries| - 1];
      var before := tries[..|tries| - 1];
      if SaveRun(JobFor(codec, path, temp, last.credential, last.createMode),
                 Attempts(codec, path, temp, fs, before), last.ios).pc.Saved?
      then Some(last.credential) else LastCompleted(codec, path, temp, fs, before)
  }

  /** After any history of saves, crashes and failures over one volume, a reader finds the credential
      of the last save that completed, or what was there before them all. */
  lemma {:induction false} ReaderFindsLastCompleted(codec: Codec, path: string, temp: string, fs: FileSystem, tries: seq<Attempt>)
    requires Faithful(codec) && Sane(fs) && temp != path
    ensures Sane(Attempts(codec, path, temp, fs, tries))
    ensures var last := LastCompleted(codec, path, temp, fs, tries);
            View(codec, Attempts(codec, path, temp, fs, tries), path) ==
            if last.Some? then SavedFile(last.value) else View(codec, fs, path)
    decreases |tries|
  {
    if tries != [] {
      var last := tries[|tries| - 1];
      var before := tries[..|tries| - 1];
      ReaderFindsLastCompleted(codec, path, temp, fs, before);
      SaveIsCrashAtomic(codec, path, temp, last.credential, last.createMode,
                        Attempts(codec, path, temp, fs, before), last.ios);
    }
  }

  // ---------------------------------------------------------------- power loss after many saves

  /** The volume after the first `m` calls of attempt `n`. */
  function During(codec: Codec, path: string, temp: string, fs: FileSystem, tries: seq<Attempt>, n: nat, m: nat): SaveState
    requires n < |tries| && m <= |tries[n].ios|
  {
    SaveRun(JobFor(codec, path, temp, tries[n].credential, tries[n].createMode),
            Attempts(codec, path, temp, fs, tries[..n]), tries[n].ios[..m])
  }

  ghost predicate Completed(codec: Codec, path: string, temp: string, fs: FileSystem, tries: seq<Attempt>, n: nat) {
    n < |tries| && During(codec, path, temp, fs, tries, n, |tries[n].ios|).pc.Saved?
  }

  /** Names as a directory never synced in all that time may come back: each means what it meant at some
      call of some attempt, or before them all. */
  ghost predicate EverMeant(codec: Codec, path: string, temp: string, fs: FileSystem, tries: seq<Attempt>, names: map<string, nat>) {
    forall name ::
      || Entry(names, name) == Entry(fs.names, name)
      || exists n: nat, m: nat :: n < |tries| && m <= |tries[n].ios| &&
                                  Entry(names, name) == Entry(During(codec, path, temp, fs, tries, n, m).fs.names, name)
  }

  /** An inode the temp name does not mean. */
  ghost predicate Aside(fs: FileSystem, temp: string, i: nat, inode: Inode) {
    i in fs.inodes && fs.inodes[i] == inode && (temp in fs.names ==> fs.names[temp] != i)
  }

  lemma AsideStep(job: Job, before: FileSystem, s: SaveState, io: Io, i: nat, inode: Inode)
    requires Sane(before) && Underway(job, before, s) && Aside(s.fs, job.temp, i, inode)
    ensures Aside(SaveStep(job, s, io).fs, job.temp, i, inode)
  {
  }

  lemma {:induction false} AsideThroughASave(job: Job, fs: FileSystem, ios: seq<Io>, i: nat, inode: Inode)
    requires Sane(fs) && job.temp != job.path && Aside(fs, job.temp, i, inode)
    ensures Aside(SaveRun(job, fs, ios).fs, job.temp, i, inode)
    decreases |ios|
  {
    if ios != [] {
      var n := |ios| - 1;
      AsideThroughASave(job, fs, ios[..n], i, inode);
      RunsStayUnderway(job, fs, ios[..n]);
      AsideStep(job, fs, SaveRun(job, fs, ios[..n]), ios[n], i, inode);
    }
  }

  lemma {:induction false} AsideThroughAttempts(codec: Codec, path: string, temp: string, fs: FileSystem, tries: seq<Attempt>,
                                                n: nat, i: nat, inode: Inode)
    requires Faithful(codec) && Sane(fs) && temp != path && n <= |tries|
    requires Aside(Attempts(codec, path, temp, fs, tries[..n]), temp, i, inode)
    ensures Aside(Attempts(codec, path, temp, fs, tries), temp, i, inode)
    decreases |tries| - n
  {
    if n == |tries| {
      assert tries[..n] == tries;
    } else {
      assert tries[..n + 1][..n] == tries[..n];
      ReaderFindsLastCompleted(codec, path, temp, fs, tries[..n]);
      AsideThroughASave(JobFor(codec, path, temp, tries[n].credential, tries[n].createMode),
                        Attempts(codec, path, temp, fs, tries[..n]), tries[n].ios, i, inode);
      AsideThroughAttempts(codec, path, temp, fs, tries, n + 1, i, inode);
    }
  }

  /** What the path means between attempts is flushed, and no temp file. */
  lemma {:induction false} PathIsAside(codec: Codec, path: string, temp: string, fs: FileSystem, tries: seq<Attempt>)
    requires Faithful(codec) && Sane(fs) && temp != path
    requires path in fs.names ==> fs.inodes[fs.names[path]].synced
    ensures var t := Attempts(codec, path, temp, fs, tries);
            path in t.names ==>
              t.names[path] in t.inodes && t.inodes[t.names[path]].synced &&
              Aside(t, temp, t.names[path], t.inodes[t.names[path]])
    decreases |tries|
  {
    ReaderFindsLastCompleted(codec, path, temp, fs, tries);
    if tries != [] {
      var n := |tries| - 1;
      PathIsAside(codec, path, temp, fs, tries[..n]);
      ReaderFindsLastCompleted(codec, path, temp, fs, tries[..n]);
      RunsStayUnderway(JobFor(codec, path, temp, tries[n].credential, tries[n].createMode),
                       Attempts(codec, path, temp, fs, tries[..n]), tries[n].ios);
    }
  }

  /** Within an attempt the path means what it meant before it or means after it. */
  lemma PathMeantBetween(codec: Codec, path: string, temp: string, fs: FileSystem, tries: seq<Attempt>, n: nat, m: nat) returns (k: nat)
    requires Faithful(codec) && Sane(fs) && temp != path && n < |tries| && m <= |tries[n].ios|
    ensures k <= |tries|
    ensures Entry(During(codec, path, temp, fs, tries, n, m).fs.names, path) ==
            Entry(Attempts(codec, path, temp, fs, tries[..k]).names, path)
  {
    ReaderFindsLastCompleted(codec, path, temp, fs, tries[..n]);
    PathMeant(JobFor(codec, path, temp, tries[n].credential, tries[n].createMode),
              Attempts(codec, path, temp, fs, tries[..n]), tries[n].ios, m);
    assert tries[..n + 1][..n] == tries[..n];
    k := if During(codec, path, temp, fs, tries, n, m).pc.Saved? then n + 1 else n;
  }

  lemma {:induction false} LastCompletedIsCompleted(codec: Codec, path: string, temp: string, fs: FileSystem, tries: seq<Attempt>, k: nat)
    requires k <= |tries| && LastCompleted(codec, path, temp, fs, tries[..k]).Some?
    ensures exists n :: 0 <= n < k && Completed(codec, path, temp, fs, tries, n) &&
                        tries[n].credential == LastCompleted(codec, path, temp, fs, tries[..k]).value
    decreases k
  {
    var n := k - 1;
    assert tries[..k][..n] == tries[..n];
    assert tries[n].ios[..|tries[n].ios|] == tries[n].ios;
    if !Completed(codec, path, temp, fs, tries, n) {
      LastCompletedIsCompleted(codec, path, temp, fs, tries, n);
    }
  }

  lemma PathCameFrom(codec: Codec, path: string, temp: string, fs: FileSystem, tries: seq<Attempt>, names: map<string, nat>) returns (k: nat)
    requires Faithful(codec) && Sane(fs) && temp != path && EverMeant(codec, path, temp, fs, tries, names)
    ensures k <= |tries| && Entry(names, path) == Entry(Attempts(codec, path, temp, fs, tries[..k]).names, path)
  {
    if Entry(names, path) == Entry(fs.names, path) {
      k := 0;
      assert tries[..0] == [];
    } else {
      hide Attempts, During;
      var n: nat, m: nat :| n < |tries| && m <= |tries[n].ios| &&
                            Entry(names, path) == Entry(During(codec, path, temp, fs, tries, n, m).fs.names, path);
      k := PathMeantBetween(codec, path, temp, fs, tries, n, m);
    }
  }

  /** What the path meant after `k` attempts is still there to be found, whatever came after. */
  lemma PathComesBack(codec: Codec, path: string, temp: string, fs: FileSystem, tries: seq<Attempt>, k: nat,
                      names: map<string, nat>, junk: map<nat, Inode>)
    requires Faithful(codec) && Sane(fs) && temp != path && k <= |tries|
    requires path in fs.names ==> fs.inodes[fs.names[path]].synced
    requires Entry(names, path) == Entry(Attempts(codec, path, temp, fs, tries[..k]).names, path)
    ensures View(codec, AfterPowerLoss(Attempts(codec, path, temp, fs, tries), names, junk), path) ==
            View(codec, Attempts(codec, path, temp, fs, tries[..k]), path)
  {
    hide Attempts;
    var early := Attempts(codec, path, temp, fs, tries[..k]);
    PathIsAside(codec, path, temp, fs, tries[..k]);
    if path in early.names {
      AsideThroughAttempts(codec, path, temp, fs, tries, k, early.names[path], early.inodes[early.names[path]]);
    }
  }

  /** And when nothing ever synced the directory: after any history of saves, failures and crashes, the power
      failing, whatever it does to bytes not yet flushed and however far back each name goes, leaves what
      was there before them all or the credential of some save that completed. */
  lemma HistorySurvivesPowerLoss(codec: Codec, path: string, temp: string, fs: FileSystem, tries: seq<Attempt>,
                                 names: map<string, nat>, junk: map<nat, Inode>)
    requires Faithful(codec) && Sane(fs) && temp != path
    requires path in fs.names ==> fs.inodes[fs.names[path]].synced
    requires EverMeant(codec, path, temp, fs, tries, names)
    ensures var v := View(codec, AfterPowerLoss(Attempts(codec, path, temp, fs, tries), names, junk), path);
            || v == View(codec, fs, path)
            || exists n :: 0 <= n < |tries| && Completed(codec, path, temp, fs, tries, n) && v == SavedFile(tries[n].credential)
  {
    hide Attempts, During, LastCompleted, Completed, View, Aside;
    var k := PathCameFrom(codec, path, temp, fs, tries, names);
    ReaderFindsLastCompleted(codec, path, temp, fs, tries[..k]);
    PathComesBack(codec, path, temp, fs, tries, k, names, junk);
    if LastCompleted(codec, path, temp, fs, tries[..k]).Some? {
      LastCompletedIsCompleted(codec, path, temp, fs, tries, k);
    }
  }
}
