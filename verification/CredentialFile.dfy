/** The three views of a credential file meet: its name, its bytes, and what the protocol reads. */
module CredentialFile {
  import opened Store
  import opened Slug
  import opened AtomicSave
  import Pod

  function Interrupted(codec: Codec, url: string, profile: string, c: Credential, createMode: nat, fs: FileSystem, ios: seq<Io>): SaveState {
    SaveRun(JobFor(codec, FileName(url, profile), TempName(FileName(url, profile)), c, createMode), fs, ios)
  }

  /** For every deployment and profile, a save stopped anywhere leaves what the pod machine says a turn
      leaves: the new file if it completed, the old one if it failed, and one or the other if the process
      died in it; and it leaves every other deployment's credential alone throughout. */
  lemma SaveLandsWholeOrNotAtAll(codec: Codec, url: string, profile: string, c: Credential, createMode: nat,
                                 fs: FileSystem, ios: seq<Io>, otherUrl: string, otherProfile: string)
    requires Faithful(codec) && Sane(fs)
    ensures var s := Interrupted(codec, url, profile, c, createMode, fs, ios);
            var before := View(codec, fs, FileName(url, profile));
            && View(codec, s.fs, FileName(url, profile)) == Pod.Wreck(Pod.Saving(c), before, s.pc.Saved?)
            && (FileName(otherUrl, otherProfile) != FileName(url, profile) ==>
                  View(codec, s.fs, FileName(otherUrl, otherProfile)) == View(codec, fs, FileName(otherUrl, otherProfile)))
  {
    TempIsNeverACredential(url, profile, url, profile);
    TempIsNeverACredential(url, profile, otherUrl, otherProfile);
    var temp := TempName(FileName(url, profile));
    SaveIsCrashAtomic(codec, FileName(url, profile), temp, c, createMode, fs, ios);
    var job := JobFor(codec, FileName(url, profile), temp, c, createMode);
    if FileName(otherUrl, otherProfile) != FileName(url, profile) {
      OthersUntouched(job, fs, ios, FileName(otherUrl, otherProfile));
    }
  }

  /** A name that is neither the target nor the temp file keeps its inode, and the inode its contents. */
  lemma {:induction false} OthersUntouched(job: Job, fs: FileSystem, ios: seq<Io>, name: string)
    requires Sane(fs) && job.temp != job.path && name != job.path && name != job.temp
    ensures var t := SaveRun(job, fs, ios).fs;
            && Sane(t)
            && (name in t.names <==> name in fs.names)
            && (name in fs.names ==> t.names[name] == fs.names[name] && t.inodes[t.names[name]] == fs.inodes[fs.names[name]])
    decreases |ios|
  {
    RunsStayUnderway(job, fs, ios);
    if ios != [] {
      RunsStayUnderway(job, fs, ios[..|ios| - 1]);
      OthersUntouched(job, fs, ios[..|ios| - 1], name);
    }
  }
}
