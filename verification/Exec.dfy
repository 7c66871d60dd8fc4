/** Running a command and collecting its output (src/terminal.rs:48-71, 203-225): a child and the node
    joined by bounded pipes, every interleaving of them. */
module Exec {
  import opened Wrappers

  type Byte = n: int | 0 <= n < 256

  /** The buffer one read fills. */
  const READ_SIZE: nat := 8192

  datatype Stream = Stdout | Stderr

  /** What the child does next: write all of these bytes, or read its stdin once. */
  datatype Op = Write(stream: Stream, bytes: seq<Byte>) | ReadIn

  /** `pipe` is how many bytes a pipe holds, `cap` how many of each stream are kept. */
  datatype Limits = Limits(pipe: nat, cap: nat)

  datatype Reader = Reader(kept: seq<Byte>, capped: bool, done: bool)

  /** `feeding` while the node still holds the child's stdin open with `feed` left to write; until it
      lets go, neither reader runs. */
  datatype State = State(
    script: seq<Op>, exited: bool,
    feeding: bool, feed: seq<Byte>, inPipe: seq<Byte>,
    outPipe: seq<Byte>, errPipe: seq<Byte>,
    out: Reader, err: Reader)

  datatype Action =
    | ChildWrites(n: nat)
    | ChildMovesOn
    | ChildReads(n: nat)
    | ChildExits
    | NodeFeeds(n: nat)
    | NodeLetsGo
    | NodeReads(stream: Stream, n: nat)
    | NodeSeesEnd(stream: Stream)

  function Start(script: seq<Op>, stdin: Option<seq<Byte>>): State {
    State(script, false, stdin.Some?, if stdin.Some? then stdin.value else [], [], [], [],
          Reader([], false, false), Reader([], false, false))
  }

  function PipeOf(s: State, stream: Stream): seq<Byte> {
    if stream.Stdout? then s.outPipe else s.errPipe
  }

  function ReaderOf(s: State, stream: Stream): Reader {
    if stream.Stdout? then s.out else s.err
  }

  function WithStream(s: State, stream: Stream, pipe: seq<Byte>, reader: Reader): State {
    if stream.Stdout? then s.(outPipe := pipe, out := reader) else s.(errPipe := pipe, err := reader)
  }

  predicate Writing(s: State) {
    s.script != [] && s.script[0].Write? && s.script[0].bytes != []
  }

  predicate Enabled(lim: Limits, s: State, a: Action) {
    match a
    case ChildWrites(_) => Writing(s) && |PipeOf(s, s.script[0].stream)| < lim.pipe
    case ChildMovesOn => s.script != [] && s.script[0].Write? && s.script[0].bytes == []
    case ChildReads(_) => s.script != [] && s.script[0].ReadIn? && (s.inPipe != [] || !s.feeding)
    case ChildExits => s.script == [] && !s.exited
    case NodeFeeds(_) => s.feeding && s.feed != [] && !s.exited && |s.inPipe| < lim.pipe
    case NodeLetsGo => s.feeding && (s.feed == [] || s.exited)
    case NodeReads(stream, _) => !s.feeding && !ReaderOf(s, stream).done && PipeOf(s, stream) != []
    case NodeSeesEnd(stream) => !s.feeding && !ReaderOf(s, stream).done && PipeOf(s, stream) == [] && s.exited
  }

  function Least(a: nat, b: nat): nat {
    if a <= b then a else b
  }

  function Take(bytes: seq<Byte>, n: nat): seq<Byte> {
    if |bytes| <= n then bytes else bytes[..n]
  }

  /** What a reader does with one chunk: keep what there is room for, remember that there was not. */
  function Absorb(r: Reader, cap: nat, chunk: seq<Byte>): Reader {
    var room := if |r.kept| <= cap then cap - |r.kept| else 0;
    r.(kept := r.kept + Take(chunk, room), capped := r.capped || |chunk| > room)
  }

  function Apply(lim: Limits, s: State, a: Action): State
    requires Enabled(lim, s, a)
  {
    match a
    case ChildWrites(n) =>
      var op := s.script[0];
      var pipe := PipeOf(s, op.stream);
      var k := SomeOf(n, Least(|op.bytes|, lim.pipe - |pipe|));
      WithStream(s, op.stream, pipe + op.bytes[..k], ReaderOf(s, op.stream))
        .(script := [Write(op.stream, op.bytes[k..])] + s.script[1..])
    case ChildMovesOn => s.(script := s.script[1..])
    case ChildReads(n) =>
      s.(script := s.script[1..], inPipe := if s.inPipe == [] then [] else s.inPipe[SomeOf(n, |s.inPipe|)..])
    case ChildExits => s.(exited := true)
    case NodeFeeds(n) =>
      var k := SomeOf(n, Least(|s.feed|, lim.pipe - |s.inPipe|));
      s.(feed := s.feed[k..], inPipe := s.inPipe + s.feed[..k])
    case NodeLetsGo => s.(feeding := false, feed := [])
    case NodeReads(stream, n) =>
      var pipe := PipeOf(s, stream);
      var k := SomeOf(n, Least(|pipe|, READ_SIZE));
      WithStream(s, stream, pipe[k..], Absorb(ReaderOf(s, stream), lim.cap, pipe[..k]))
    case NodeSeesEnd(stream) => WithStream(s, stream, [], ReaderOf(s, stream).(done := true))
  }

  predicate Finished(s: State) {
    s.exited && s.out.done && s.err.done
  }

  /** These actions can be taken one after another. */
  predicate Schedule(lim: Limits, s: State, actions: seq<Action>)
    decreases |actions|
  {
    actions == [] || (Enabled(lim, s, actions[0]) && Schedule(lim, Apply(lim, s, actions[0]), actions[1..]))
  }

  function Play(lim: Limits, s: State, actions: seq<Action>): State
    requires Schedule(lim, s, actions)
    decreases |actions|
  {
    if actions == [] then s else Play(lim, Apply(lim, s, actions[0]), actions[1..])
  }

  // ---------------------------------------------------------------- what the child writes

  /** Everything a script writes to one stream, in order. */
  function Output(script: seq<Op>, stream: Stream): seq<Byte> {
    if script == [] then []
    else (if script[0].Write? && script[0].stream == stream then script[0].bytes else []) + Output(script[1..], stream)
  }

  /** What has not reached the reader of a stream yet. */
  function Pending(s: State, stream: Stream): seq<Byte> {
    PipeOf(s, stream) + Output(s.script, stream)
  }

  /** `total` is split into what the reader has taken in and the `rest` still to come; of the first it
      has kept all there was room for, and it knows whether there was more. */
  ghost predicate SplitAt(r: Reader, rest: seq<Byte>, total: seq<Byte>, cap: nat) {
    && |rest| <= |total|
    && var seen := total[..|total| - |rest|];
       && total == seen + rest
       && r.kept == Take(seen, cap)
       && (r.capped <==> |seen| > cap)
  }

  ghost predicate Faithful(lim: Limits, s: State, stream: Stream, total: seq<Byte>) {
    SplitAt(ReaderOf(s, stream), Pending(s, stream), total, lim.cap)
  }

  ghost predicate Consistent(lim: Limits, s: State) {
    && (s.exited ==> s.script == [])
    && (s.out.done ==> s.exited && s.outPipe == [])
    && (s.err.done ==> s.exited && s.errPipe == [])
    && (s.out.done || s.err.done ==> !s.feeding)
    && (!s.feeding ==> s.feed == [])
  }

  lemma OutputOfSplit(op: Op, rest: seq<Op>, k: nat, stream: Stream)
    requires op.Write? && k <= |op.bytes|
    ensures Output([op] + rest, stream) ==
            (if op.stream == stream then op.bytes[..k] else []) + Output([Write(op.stream, op.bytes[k..])] + rest, stream)
  {
    assert ([op] + rest)[1..] == rest;
    assert ([Write(op.stream, op.bytes[k..])] + rest)[1..] == rest;
    assert op.bytes == op.bytes[..k] + op.bytes[k..];
  }

  lemma AbsorbTakes(seen: seq<Byte>, chunk: seq<Byte>, cap: nat, r: Reader)
    requires r.kept == Take(seen, cap) && (r.capped <==> |seen| > cap)
    ensures Absorb(r, cap, chunk).kept == Take(seen + chunk, cap)
    ensures Absorb(r, cap, chunk).capped <==> |seen + chunk| > cap
  {
  }

  /** Whatever is not this stream's reader reading leaves what is still to come as it was: a write only
      moves bytes from the script into the pipe. */
  lemma WriteKeepsPending(lim: Limits, s: State, n: nat, stream: Stream)
    requires Enabled(lim, s, ChildWrites(n))
    ensures Pending(Apply(lim, s, ChildWrites(n)), stream) == Pending(s, stream)
  {
    var op := s.script[0];
    var k := SomeOf(n, Least(|op.bytes|, lim.pipe - |PipeOf(s, op.stream)|));
    assert s.script == [op] + s.script[1..];
    OutputOfSplit(op, s.script[1..], k, stream);
    hide Output;
    var later := Output([Write(op.stream, op.bytes[k..])] + s.script[1..], stream);
    if op.stream == stream { Reassociate(PipeOf(s, stream), op.bytes[..k], later); }
  }

  lemma Reassociate(a: seq<Byte>, b: seq<Byte>, c: seq<Byte>)
    ensures (a + b) + c == a + (b + c)
  {
  }

  lemma PendingStays(lim: Limits, s: State, a: Action, stream: Stream)
    requires Enabled(lim, s, a) && Consistent(lim, s) && !(a.NodeReads? && a.stream == stream)
    ensures var t := Apply(lim, s, a);
            && Pending(t, stream) == Pending(s, stream)
            && ReaderOf(t, stream).kept == ReaderOf(s, stream).kept
            && ReaderOf(t, stream).capped == ReaderOf(s, stream).capped
  {
    if a.ChildWrites? { WriteKeepsPending(lim, s, a.n, stream); }
  }

  lemma AbsorbSplits(r: Reader, chunk: seq<Byte>, rest: seq<Byte>, total: seq<Byte>, cap: nat)
    requires SplitAt(r, chunk + rest, total, cap)
    ensures SplitAt(Absorb(r, cap, chunk), rest, total, cap)
  {
    var seen := total[..|total| - |chunk + rest|];
    assert total == (seen + chunk) + rest;
    assert total[..|total| - |rest|] == seen + chunk;
    AbsorbTakes(seen, chunk, cap, r);
  }

  lemma ReadIsFaithful(lim: Limits, s: State, stream: Stream, n: nat, total: seq<Byte>)
    requires Enabled(lim, s, NodeReads(stream, n)) && Faithful(lim, s, stream, total)
    ensures Faithful(lim, Apply(lim, s, NodeReads(stream, n)), stream, total)
  {
    var pipe := PipeOf(s, stream);
    var k := SomeOf(n, Least(|pipe|, READ_SIZE));
    var later := pipe[k..] + Output(s.script, stream);
    assert Pending(s, stream) == pipe[..k] + later;
    AbsorbSplits(ReaderOf(s, stream), pipe[..k], later, total, lim.cap);
  }

  /** A step moves bytes from what the child has yet to write towards the reader; none is lost, made up
      or reordered. */
  lemma StepIsFaithful(lim: Limits, s: State, a: Action, stream: Stream, total: seq<Byte>)
    requires Enabled(lim, s, a) && Consistent(lim, s) && Faithful(lim, s, stream, total)
    ensures Faithful(lim, Apply(lim, s, a), stream, total)
  {
    if a.NodeReads? && a.stream == stream {
      ReadIsFaithful(lim, s, stream, a.n, total);
    } else {
      PendingStays(lim, s, a, stream);
    }
  }

  lemma StepIsConsistent(lim: Limits, s: State, a: Action)
    requires Enabled(lim, s, a) && Consistent(lim, s)
    ensures Consistent(lim, Apply(lim, s, a))
  {
  }

  lemma {:induction false} PlayIsFaithful(lim: Limits, s: State, actions: seq<Action>, stream: Stream, total: seq<Byte>)
    requires Consistent(lim, s) && Faithful(lim, s, stream, total) && Schedule(lim, s, actions)
    ensures Consistent(lim, Play(lim, s, actions)) && Faithful(lim, Play(lim, s, actions), stream, total)
    decreases |actions|
  {
    if actions != [] {
      StepIsFaithful(lim, s, actions[0], stream, total);
      StepIsConsistent(lim, s, actions[0]);
      PlayIsFaithful(lim, Apply(lim, s, actions[0]), actions[1..], stream, total);
    }
  }

  /** However the child and the readers interleave and however the bytes are chopped up, a command that
      finishes gives of each stream its first `cap` bytes, and says so exactly when there were more. */
  lemma EveryScheduleGivesTheSameOutput(lim: Limits, script: seq<Op>, stdin: Option<seq<Byte>>, actions: seq<Action>, stream: Stream)
    requires Schedule(lim, Start(script, stdin), actions)
    requires Finished(Play(lim, Start(script, stdin), actions))
    ensures var r := ReaderOf(Play(lim, Start(script, stdin), actions), stream);
            && r.kept == (if |Output(script, stream)| <= lim.cap then Output(script, stream) else Output(script, stream)[..lim.cap])
            && (r.capped <==> |Output(script, stream)| > lim.cap)
  {
    var s := Start(script, stdin);
    var total := Output(script, stream);
    assert Pending(s, stream) == total;
    PlayIsFaithful(lim, s, actions, stream, total);
    var end := Play(lim, s, actions);
    assert Pending(end, stream) == [];
    assert total[..|total|] == total;
  }

  // ---------------------------------------------------------------- it ends

  function Bytes(script: seq<Op>): nat {
    if script == [] then 0
    else (if script[0].Write? then |script[0].bytes| else 0) + Bytes(script[1..])
  }

  function Measure(s: State): nat {
    2 * Bytes(s.script) + |s.script| + |s.outPipe| + |s.errPipe| + 2 * |s.feed| + |s.inPipe|
    + (if s.exited then 0 else 1) + (if s.feeding then 1 else 0)
    + (if s.out.done then 0 else 1) + (if s.err.done then 0 else 1)
  }

  lemma StepShrinks(lim: Limits, s: State, a: Action)
    requires Enabled(lim, s, a)
    ensures Measure(Apply(lim, s, a)) < Measure(s)
  {
    if a.ChildWrites? {
      var op := s.script[0];
      var k := SomeOf(a.n, Least(|op.bytes|, lim.pipe - |PipeOf(s, op.stream)|));
      assert ([Write(op.stream, op.bytes[k..])] + s.script[1..])[1..] == s.script[1..];
    }
  }

  /** No schedule is longer than the work there is. */
  lemma {:induction false} EveryScheduleEnds(lim: Limits, s: State, actions: seq<Action>)
    requires Schedule(lim, s, actions)
    ensures |actions| + Measure(Play(lim, s, actions)) <= Measure(s)
    decreases |actions|
  {
    if actions != [] {
      StepShrinks(lim, s, actions[0]);
      EveryScheduleEnds(lim, Apply(lim, s, actions[0]), actions[1..]);
    }
  }

  // ---------------------------------------------------------------- when it cannot hang

  ghost predicate Stuck(lim: Limits, s: State) {
    !Finished(s) && forall a :: !Enabled(lim, s, a)
  }

  /** While the node feeds stdin, all that is left of it fits in the pipe. */
  ghost predicate FeedFits(lim: Limits, s: State) {
    s.feeding ==> |s.feed| + |s.inPipe| <= lim.pipe
  }

  lemma SomethingIsEnabled(lim: Limits, s: State) returns (a: Action)
    requires lim.pipe > 0 && Consistent(lim, s) && FeedFits(lim, s) && !Finished(s)
    ensures Enabled(lim, s, a)
  {
    if s.feeding {
      a := if s.feed == [] || s.exited then NodeLetsGo else NodeFeeds(1);
    } else if s.exited {
      var stream := if s.out.done then Stderr else Stdout;
      a := if PipeOf(s, stream) == [] then NodeSeesEnd(stream) else NodeReads(stream, 1);
    } else if s.script == [] {
      a := ChildExits;
    } else if s.script[0].ReadIn? {
      a := ChildReads(1);
    } else if s.script[0].bytes == [] {
      a := ChildMovesOn;
    } else {
      var stream := s.script[0].stream;
      a := if |PipeOf(s, stream)| < lim.pipe then ChildWrites(1) else NodeReads(stream, 1);
    }
  }

  lemma {:induction false} PlayFits(lim: Limits, s: State, actions: seq<Action>)
    requires Consistent(lim, s) && FeedFits(lim, s) && Schedule(lim, s, actions)
    ensures Consistent(lim, Play(lim, s, actions)) && FeedFits(lim, Play(lim, s, actions))
    decreases |actions|
  {
    if actions != [] {
      StepIsConsistent(lim, s, actions[0]);
      PlayFits(lim, Apply(lim, s, actions[0]), actions[1..]);
    }
  }

  function Length(stdin: Option<seq<Byte>>): nat {
    if stdin.Some? then |stdin.value| else 0
  }

  ghost predicate NeverStuck(lim: Limits, stdin: Option<seq<Byte>>) {
    forall script, actions :: Schedule(lim, Start(script, stdin), actions) ==>
      !Stuck(lim, Play(lim, Start(script, stdin), actions))
  }

  /** A child that writes one byte more than a pipe holds, and reads nothing. */
  function Blocker(lim: Limits): seq<Op> {
    [Write(Stdout, seq(lim.pipe + 1, i => 0))]
  }

  /** Stdin is written in full before either reader starts. So a command can hang, whatever it runs and
      however it is scheduled, exactly when it is given more stdin than a pipe holds: with no stdin, or
      no more than that, every state short of the end has a step to take. */
  lemma HangsExactlyWhenStdinOverflows(lim: Limits, stdin: Option<seq<Byte>>)
    requires lim.pipe > 0
    ensures NeverStuck(lim, stdin) <==> Length(stdin) <= lim.pipe
  {
    if Length(stdin) <= lim.pipe {
      forall script, actions | Schedule(lim, Start(script, stdin), actions)
        ensures !Stuck(lim, Play(lim, Start(script, stdin), actions))
      {
        PlayFits(lim, Start(script, stdin), actions);
        var end := Play(lim, Start(script, stdin), actions);
        if !Finished(end) { var a := SomethingIsEnabled(lim, end); }
      }
    } else {
      OverflowGetsStuck(lim, stdin);
    }
  }

  lemma OverflowGetsStuck(lim: Limits, stdin: Option<seq<Byte>>)
    requires lim.pipe > 0 && Length(stdin) > lim.pipe
    ensures !NeverStuck(lim, stdin)
  {
    var s := Start(Blocker(lim), stdin);
    var write, feed := ChildWrites(lim.pipe), NodeFeeds(lim.pipe);
    var actions := [write, feed];
    assert actions[1..] == [feed] && [feed][1..] == [];
    var one := Apply(lim, s, write);
    assert |one.outPipe| == lim.pipe && one.script[0].bytes != [];
    var two := Apply(lim, one, feed);
    assert Schedule(lim, two, []);
    assert Schedule(lim, one, [feed]);
    assert Schedule(lim, s, actions);
    assert Play(lim, one, [feed]) == two;
    assert Play(lim, s, actions) == two;
    assert two.feed != [] && |two.inPipe| == lim.pipe && two.feeding && !two.exited;
    assert Stuck(lim, two);
  }

  /** Put together: a command whose stdin fits a pipe always ends, finished, with that output. */
  lemma CommandsEnd(lim: Limits, script: seq<Op>, stdin: Option<seq<Byte>>, actions: seq<Action>)
    requires lim.pipe > 0 && Length(stdin) <= lim.pipe
    requires Schedule(lim, Start(script, stdin), actions)
    requires forall a :: !Enabled(lim, Play(lim, Start(script, stdin), actions), a)
    ensures |actions| <= Measure(Start(script, stdin))
    ensures var end := Play(lim, Start(script, stdin), actions);
            && Finished(end)
            && end.out.kept <= Output(script, Stdout) && |end.out.kept| == Least(|Output(script, Stdout)|, lim.cap)
            && end.err.kept <= Output(script, Stderr) && |end.err.kept| == Least(|Output(script, Stderr)|, lim.cap)
            && (end.out.capped <==> |Output(script, Stdout)| > lim.cap)
            && (end.err.capped <==> |Output(script, Stderr)| > lim.cap)
  {
    HangsExactlyWhenStdinOverflows(lim, stdin);
    EveryScheduleEnds(lim, Start(script, stdin), actions);
    assert !Stuck(lim, Play(lim, Start(script, stdin), actions));
    EveryScheduleGivesTheSameOutput(lim, script, stdin, actions, Stdout);
    EveryScheduleGivesTheSameOutput(lim, script, stdin, actions, Stderr);
  }

  // ---------------------------------------------------------------- one reader's loop

  function Flatten(chunks: seq<seq<Byte>>): seq<Byte> {
    if chunks == [] then [] else Flatten(chunks[..|chunks| - 1]) + chunks[|chunks| - 1]
  }

  /** `read_capped` as written, over what successive reads put in its buffer until the end of the stream
      or an error: it keeps the first `cap` bytes and goes on reading. */
  method ReadCapped(chunks: seq<seq<Byte>>, cap: nat) returns (out: seq<Byte>, capped: bool)
    ensures out <= Flatten(chunks) && |out| == Least(|Flatten(chunks)|, cap)
    ensures capped <==> |Flatten(chunks)| > cap
  {
    out, capped := [], false;
    var i := 0;
    while i < |chunks|
      invariant i <= |chunks|
      invariant out == Take(Flatten(chunks[..i]), cap)
      invariant capped <==> |Flatten(chunks[..i])| > cap
    {
      var n := |chunks[i]|;
      var room := if |out| <= cap then cap - |out| else 0;
      assert chunks[..i + 1][..i] == chunks[..i];
      if room > 0 {
        out := out + chunks[i][..if n <= room then n else room];
      }
      if n > room {
        capped := true;
      }
      i := i + 1;
    }
    assert chunks[..|chunks|] == chunks;
  }
}
