/** The path gate (src/gate.rs): a lexical join, the deepest ancestor that resolves, and a policy on
    what comes out. */
module Gate {
  import opened Wrappers
  import opened Paths
  import opened Tree

  /** The file system as the gate meets it: the tree, how deep links may nest, and the directory
      relative paths start from. */
  datatype Fs = Fs(tree: Tree, links: nat, cwd: Loc)

  ghost predicate Sane(fs: Fs) {
    WellFormed(fs.tree) && Stands(fs.tree, fs.cwd)
  }

  function Canonicalize(fs: Fs, path: Path): Result<Loc, Errno> {
    if path == [] then Err(NoEntry) else Walk(fs.tree, fs.links, fs.cwd, path)
  }

  // ---------------------------------------------------------------- the lexical join

  predicate HasRoot(p: Path) {
    p != [] && p[0].Root?
  }

  predicate CanPop(p: Path) {
    p != [] && !p[|p| - 1].Root?
  }

  /** What one component does to the path built so far. */
  function Pushed(out: Path, c: Comp): Path {
    match c
    case Root => [Root]
    case Cur => out
    case Up => if CanPop(out) then out[..|out| - 1] else if HasRoot(out) then out else out + [Up]
    case Name(_) => out + [c]
  }

  function PushedAll(base: Path, comps: Path): Path {
    if comps == [] then base
    else Pushed(PushedAll(base, comps[..|comps| - 1]), comps[|comps| - 1])
  }

  function Joined(root: Path, requested: Path): Path {
    PushedAll(if HasRoot(requested) then [] else root, requested)
  }

  /** `join_like_upstream` as written. */
  method JoinLikeUpstream(root: Path, path: string) returns (out: Path)
    ensures out == Joined(root, Components(path))
    ensures Clean(root) ==> Clean(out)
  {
    var requested := Components(path);
    out := if HasRoot(requested) then [] else root;
    ghost var base := out;
    var i := 0;
    while i < |requested|
      invariant i <= |requested| && out == PushedAll(base, requested[..i])
    {
      assert requested[..i + 1][..i] == requested[..i];
      match requested[i] {
        case Root => out := [Root];
        case Cur =>
        case Up =>
          if CanPop(out) { out := out[..|out| - 1]; }
          else if !HasRoot(out) { out := out + [Up]; }
        case Name(_) => out := out + [requested[i]];
      }
      i := i + 1;
    }
    assert requested[..|requested|] == requested;
    if Clean(root) { JoinIsClean(root, path); }
  }

  lemma {:induction false} PushesStayClean(base: Path, comps: Path)
    requires Clean(base) && Relative(comps)
    ensures Clean(PushedAll(base, comps))
    decreases |comps|
  {
    if comps != [] { PushesStayClean(base, comps[..|comps| - 1]); }
  }

  lemma {:induction false} PushesCompose(base: Path, a: Path, b: Path)
    ensures PushedAll(base, a + b) == PushedAll(PushedAll(base, a), b)
    decreases |b|
  {
    if b == [] {
      assert a + b == a;
    } else {
      PushesCompose(base, a, b[..|b| - 1]);
      assert (a + b)[..|a + b| - 1] == a + b[..|b| - 1];
    }
  }

  /** From a clean root, whatever is asked for, the join is absolute and holds nothing but names. */
  lemma JoinIsClean(root: Path, path: string)
    requires Clean(root)
    ensures Clean(Joined(root, Components(path)))
  {
    var requested := Components(path);
    ComponentsAreProper(path);
    if HasRoot(requested) {
      PushesCompose([], [Root], requested[1..]);
      assert [Root] + requested[1..] == requested;
      assert [Root][..0] == [] && PushedAll([], [Root]) == [Root];
      PushesStayClean([Root], requested[1..]);
    } else {
      PushesStayClean(root, requested);
    }
  }

  /** A clean path joins to itself under any root. */
  lemma {:induction false} CleanJoinsToItself(root: Path, p: Path)
    requires Clean(p)
    ensures Joined(root, p) == p
  {
    CleanPushes(p);
  }

  lemma {:induction false} CleanPushes(p: Path)
    requires Clean(p)
    ensures PushedAll([], p) == p
    decreases |p|
  {
    if |p| == 1 {
      assert p[..0] == [] && PushedAll([], p[..0]) == [];
      assert p == [Root];
    } else {
      CleanPushes(p[..|p| - 1]);
      assert p == p[..|p| - 1] + [p[|p| - 1]];
    }
  }

  // ---------------------------------------------------------------- against the resolver

  predicate NoLinks(t: Tree) {
    forall l :: l in t ==> !t[l].Link?
  }

  lemma {:induction false} RelativeJoinIsTheWalk(fs: Fs, from: Loc, requested: Path)
    requires Sane(fs) && NoLinks(fs.tree) && Stands(fs.tree, from) && !HasRoot(requested)
    requires forall i :: 0 <= i < |requested| ==> !requested[i].Root?
    requires Walk(fs.tree, fs.links, from, requested).Ok?
    ensures Joined(AsPath(from), requested) == AsPath(Walk(fs.tree, fs.links, from, requested).value)
    decreases |requested|
  {
    if requested != [] {
      var n := |requested| - 1;
      var before := requested[..n];
      assert requested == before + [requested[n]];
      WalkSplits(fs.tree, fs.links, from, before, [requested[n]]);
      RelativeJoinIsTheWalk(fs, from, before);
      assert !HasRoot(before);
      var at := Walk(fs.tree, fs.links, from, before).value;
      LastComponent(fs.tree, fs.links, at, requested[n]);
    }
  }

  /** In a tree without links the lexical join names the very place the kernel would reach by walking
      the request from the root, or from the very top if it is absolute: dropping a name at `..` is what `..`
      does. */
  lemma JoinIsTheWalk(fs: Fs, from: Loc, path: string)
    requires Sane(fs) && NoLinks(fs.tree) && Stands(fs.tree, from)
    requires Walk(fs.tree, fs.links, from, Components(path)).Ok?
    ensures Joined(AsPath(from), Components(path)) == AsPath(Walk(fs.tree, fs.links, from, Components(path)).value)
  {
    var requested := Components(path);
    ComponentsAreProper(path);
    if HasRoot(requested) {
      var rest := requested[1..];
      assert requested == [Root] + rest;
      PushesCompose([], [Root], rest);
      assert [Root][..0] == [] && PushedAll([], [Root]) == [Root];
      assert AsPath([]) == [Root] && !HasRoot(rest);
      assert Walk(fs.tree, fs.links, from, requested) == Walk(fs.tree, fs.links, [], rest);
      RelativeJoinIsTheWalk(fs, [], rest);
    } else {
      RelativeJoinIsTheWalk(fs, from, requested);
    }
  }

  lemma LastComponent(t: Tree, links: nat, at: Loc, c: Comp)
    requires NoLinks(t) && !c.Root? && Walk(t, links, at, [c]).Ok?
    ensures Pushed(AsPath(at), c) == AsPath(Walk(t, links, at, [c]).value)
  {
    assert [c][1..] == [];
    match c
    case Cur =>
    case Up => if at != [] { LastStep(at); }
    case Name(n) => LastStep(at + [n]);
  }

  // ---------------------------------------------------------------- the deepest ancestor

  /** Resolve the longest of the prefixes up to `k` that resolves, and put the rest back on. */
  function DeepestFrom(fs: Fs, path: Path, k: nat): Path
    requires k <= |path|
  {
    var spot := Canonicalize(fs, path[..k]);
    if spot.Ok? then AsPath(spot.value) + path[k..]
    else if k > 0 && path[k - 1].Name? then DeepestFrom(fs, path, k - 1)
    else path
  }

  function Deepest(fs: Fs, path: Path): Path {
    DeepestFrom(fs, path, |path|)
  }

  function Reversed(p: Path): Path {
    if p == [] then [] else Reversed(p[1..]) + [p[0]]
  }

  lemma {:induction false} ReversedTwice(p: Path)
    ensures |Reversed(p)| == |p|
    ensures forall i :: 0 <= i < |p| ==> Reversed(p)[i] == p[|p| - 1 - i]
    decreases |p|
  {
    if p != [] { ReversedTwice(p[1..]); }
  }

  /** `canonicalize_deepest` as written: pop names off the end until the rest resolves, then push them
      back in the order they came off, last first. */
  method CanonicalizeDeepest(fs: Fs, path: Path) returns (out: Path)
    ensures out == Deepest(fs, path)
  {
    var existing := path;
    var tail: Path := [];
    while true
      invariant |existing| <= |path| && existing == path[..|existing|]
      invariant tail == Reversed(path[|existing|..])
      invariant Deepest(fs, path) == DeepestFrom(fs, path, |existing|)
      decreases |existing|
    {
      var spot := Canonicalize(fs, existing);
      if spot.Ok? {
        out := AsPath(spot.value);
        ghost var rest := path[|existing|..];
        ReversedTwice(rest);
        var i := |tail|;
        while i > 0
          invariant 0 <= i <= |tail| == |rest|
          invariant out == AsPath(spot.value) + rest[..|rest| - i]
        {
          i := i - 1;
          out := out + [tail[i]];
          assert rest[..|rest| - i] == rest[..|rest| - i - 1] + [rest[|rest| - i - 1]];
        }
        assert rest[..|rest|] == rest;
        return out;
      }
      if existing == [] || !existing[|existing| - 1].Name? { return path; }
      var n := |existing| - 1;
      tail := tail + [existing[n]];
      assert path[n..][1..] == path[|existing|..];
      existing := existing[..n];
    }
  }

  /** Where a clean path stops resolving: the longest prefix that does, where it leads, and the names
      that are left over. */
  ghost predicate StopsAt(fs: Fs, path: Path, k: nat, spot: Loc) {
    && 0 < k <= |path|
    && Canonicalize(fs, path[..k]) == Ok(spot)
    && (forall j :: k < j <= |path| ==> Canonicalize(fs, path[..j]).Err?)
  }

  lemma {:induction false} StoppingPoint(fs: Fs, path: Path, top: nat) returns (k: nat, spot: Loc)
    requires Sane(fs) && Clean(path) && 0 < top <= |path|
    requires forall j :: top < j <= |path| ==> Canonicalize(fs, path[..j]).Err?
    ensures StopsAt(fs, path, k, spot) && DeepestFrom(fs, path, top) == AsPath(spot) + path[k..]
    ensures Stands(fs.tree, spot)
    decreases top
  {
    var here := Canonicalize(fs, path[..top]);
    if top == 1 {
      OwnPathLeadsThere(fs.tree, fs.links, fs.cwd, []);
      assert path[..1] == AsPath([]);
    }
    if here.Ok? {
      k, spot := top, here.value;
      WalkLands(fs.tree, fs.links, fs.cwd, path[..top]);
    } else {
      k, spot := StoppingPoint(fs, path, top - 1);
    }
  }

  /** Past the stopping point, walking the rest from where it led is walking the whole. */
  lemma TailFails(fs: Fs, path: Path, k: nat, spot: Loc, j: nat)
    requires StopsAt(fs, path, k, spot) && k < j <= |path|
    ensures Walk(fs.tree, fs.links, spot, path[k..j]).Err?
  {
    assert path[..j] == path[..k] + path[k..j];
    WalkSplits(fs.tree, fs.links, fs.cwd, path[..k], path[k..j]);
  }

  /** No longer prefix of what comes out resolves either. */
  lemma OutcomeFails(fs: Fs, path: Path, k: nat, spot: Loc, m: nat)
    requires Sane(fs) && Clean(path) && StopsAt(fs, path, k, spot) && Stands(fs.tree, spot)
    requires 0 < m <= |path| - k
    ensures Canonicalize(fs, AsPath(spot) + path[k..k + m]).Err?
  {
    TailFails(fs, path, k, spot, k + m);
    OwnPathLeadsThere(fs.tree, fs.links, fs.cwd, spot);
    WalkSplits(fs.tree, fs.links, fs.cwd, AsPath(spot), path[k..k + m]);
  }

  lemma OutcomeIsClean(t: Tree, path: Path, k: nat, spot: Loc)
    requires WellFormed(t) && Stands(t, spot) && Clean(path) && 0 < k <= |path|
    ensures Clean(AsPath(spot) + path[k..])
  {
    forall i | 0 <= i < |spot| ensures ValidName(spot[i]) { NamesAreValid(t, spot, i); }
  }

  lemma OutcomePrefix(path: Path, k: nat, spot: Loc, j: nat)
    requires k <= |path| && |spot| + 1 <= j <= |spot| + 1 + |path| - k
    ensures (AsPath(spot) + path[k..])[..j] == AsPath(spot) + path[k..k + (j - |spot| - 1)]
    ensures (AsPath(spot) + path[k..])[|spot| + 1..] == path[k..]
  {
  }

  /** What comes out is where it says: clean, and resolving it again changes nothing. */
  lemma DeepestIsFixed(fs: Fs, path: Path, k: nat, spot: Loc)
    requires Sane(fs) && Clean(path) && StopsAt(fs, path, k, spot) && Stands(fs.tree, spot)
    ensures var q := AsPath(spot) + path[k..];
            Clean(q) && StopsAt(fs, q, |spot| + 1, spot) && Deepest(fs, q) == q
  {
    var q := AsPath(spot) + path[k..];
    var m := |spot| + 1;
    OutcomeIsClean(fs.tree, path, k, spot);
    OutcomePrefix(path, k, spot, m);
    assert path[k..k] == [] && q[..m] == AsPath(spot);
    OwnPathLeadsThere(fs.tree, fs.links, fs.cwd, spot);
    forall j | m < j <= |q|
      ensures Canonicalize(fs, q[..j]).Err?
    {
      OutcomePrefix(path, k, spot, j);
      OutcomeFails(fs, path, k, spot, j - m);
    }
    FirstStop(fs, q, m, spot, |q|);
  }

  /** The loop pops down to the stopping point and no further. */
  lemma {:induction false} FirstStop(fs: Fs, q: Path, m: nat, spot: Loc, top: nat)
    requires Clean(q) && StopsAt(fs, q, m, spot) && m <= top <= |q|
    ensures DeepestFrom(fs, q, top) == AsPath(spot) + q[m..]
    decreases top
  {
    if m < top { FirstStop(fs, q, m, spot, top - 1); }
  }

  // ---------------------------------------------------------------- the policy

  datatype PathGate = PathGate(roots: seq<Path>, deny: seq<Path>)

  datatype Forbidden = OnDenyList | OutsideRoots

  function Canonical(fs: Fs, p: Path): Path {
    var spot := Canonicalize(fs, p);
    if spot.Ok? then AsPath(spot.value) else p
  }

  function NewGate(fs: Fs, roots: seq<Path>, deny: seq<Path>): PathGate {
    PathGate(seq(|roots|, i requires 0 <= i < |roots| => Canonical(fs, roots[i])),
             seq(|deny|, i requires 0 <= i < |deny| => Canonical(fs, deny[i])))
  }

  function GateRoot(g: PathGate): Path {
    if g.roots == [] then [Root] else g.roots[0]
  }

  /** Component-wise, so `/a/root-evil` is not under `/a/root`. */
  predicate IsUnder(path: Path, base: Path) {
    base <= path
  }

  predicate UnderAny(path: Path, bases: seq<Path>) {
    exists i :: 0 <= i < |bases| && IsUnder(path, bases[i])
  }

  function Check(fs: Fs, g: PathGate, requested: string): Result<Path, Forbidden> {
    var resolved := Deepest(fs, Joined(GateRoot(g), Components(requested)));
    if UnderAny(resolved, g.deny) then Err(OnDenyList)
    else if !UnderAny(resolved, g.roots) then Err(OutsideRoots)
    else Ok(resolved)
  }

  /** What was approved is a fixed point: clean, and its text joins, resolves and checks to itself, so
      what the layer below opens is what was checked. */
  ghost predicate Settled(fs: Fs, g: PathGate, q: Path) {
    Clean(q) && Joined(GateRoot(g), Components(Render(q))) == q && Check(fs, g, Render(q)) == Ok(q)
  }

  lemma ApprovedIsSettled(fs: Fs, g: PathGate, requested: string)
    requires Sane(fs) && Clean(GateRoot(g))
    ensures Check(fs, g, requested).Ok? ==> Settled(fs, g, Check(fs, g, requested).value)
    ensures forall l :: Canonicalize(fs, Joined(GateRoot(g), Components(requested))) == Ok(l) ==>
              Deepest(fs, Joined(GateRoot(g), Components(requested))) == AsPath(l)
  {
    var joined := Joined(GateRoot(g), Components(requested));
    var q := Deepest(fs, joined);
    JoinIsClean(GateRoot(g), requested);
    var k, spot := StoppingPoint(fs, joined, |joined|);
    DeepestIsFixed(fs, joined, k, spot);
    CleanIsNormal(q);
    RenderReadsBack(q);
    CleanJoinsToItself(GateRoot(g), q);
    assert joined[..|joined|] == joined;
  }

  /** `check` as written, over the two loops. What it approves has the components of some root before its
      own, those of no deny entry, and is settled. A request that resolves is approved exactly when that is so
      of the place it resolves to, and as that place; and a denied place is reported as denied whether or not
      it is under a root. */
  method CheckRequest(fs: Fs, g: PathGate, requested: string) returns (r: Result<Path, Forbidden>)
    ensures r == Check(fs, g, requested)
    ensures r.Ok? ==> (exists i :: 0 <= i < |g.roots| && g.roots[i] <= r.value) &&
                      (forall i :: 0 <= i < |g.deny| ==> !(g.deny[i] <= r.value))
    ensures Sane(fs) && Clean(GateRoot(g)) ==>
              && (r.Ok? ==> Settled(fs, g, r.value))
              && forall l :: Canonicalize(fs, Joined(GateRoot(g), Components(requested))) == Ok(l) ==>
                   && (r == Ok(AsPath(l)) <==> (exists i :: 0 <= i < |g.roots| && g.roots[i] <= AsPath(l)) &&
                                               (forall i :: 0 <= i < |g.deny| ==> !(g.deny[i] <= AsPath(l))))
                   && (r == Err(OnDenyList) <==> exists i :: 0 <= i < |g.deny| && g.deny[i] <= AsPath(l))
                   && (r.Ok? ==> r.value == AsPath(l))
  {
    if Sane(fs) && Clean(GateRoot(g)) { ApprovedIsSettled(fs, g, requested); }
    var joined := JoinLikeUpstream(GateRoot(g), requested);
    var resolved := CanonicalizeDeepest(fs, joined);
    if UnderAny(resolved, g.deny) { return Err(OnDenyList); }
    if !UnderAny(resolved, g.roots) { return Err(OutsideRoots); }
    return Ok(resolved);
  }

  /** The join has a clean base when the first root exists at construction, when it was written clean,
      or when no root was given at all. */
  lemma GateRootIsClean(built: Fs, roots: seq<Path>, deny: seq<Path>)
    requires Sane(built)
    requires roots == [] || Canonicalize(built, roots[0]).Ok? || Clean(roots[0])
    ensures Clean(GateRoot(NewGate(built, roots, deny)))
  {
    if roots != [] && Canonicalize(built, roots[0]).Ok? {
      var l := Canonicalize(built, roots[0]).value;
      WalkLands(built.tree, built.links, built.cwd, roots[0]);
      forall i | 0 <= i < |l| ensures ValidName(l[i]) { NamesAreValid(built.tree, l, i); }
    }
  }

  lemma {:induction false} NamesAreAppended(base: Path, l: Loc)
    ensures PushedAll(base, Names(l)) == base + Names(l)
    decreases |l|
  {
    if l == [] {
      assert base + Names(l) == base;
    } else {
      NamesAreAppended(base, l[..|l| - 1]);
      assert Names(l)[..|l| - 1] == Names(l[..|l| - 1]);
    }
  }

  /** A relative request is taken from the first root, as it stood when the gate was built, and from the top
      where there is no root; an absolute one from the top. */
  lemma RequestsStartFrom(built: Fs, roots: seq<Path>, deny: seq<Path>, names: Loc)
    requires forall i :: 0 <= i < |names| ==> ValidName(names[i])
    ensures var base := if roots == [] then [Root] else Canonical(built, roots[0]);
            Joined(GateRoot(NewGate(built, roots, deny)), Components(Render(Names(names)))) == base + Names(names)
    ensures Joined(GateRoot(NewGate(built, roots, deny)), Components(Render(AsPath(names)))) == [Root] + Names(names)
  {
    hide Components, Render, PushedAll, Canonical;
    assert GateRoot(NewGate(built, roots, deny)) == if roots == [] then [Root] else Canonical(built, roots[0]);
    RenderReadsBack(Names(names));
    RenderReadsBack(AsPath(names));
    NamesAreAppended(GateRoot(NewGate(built, roots, deny)), names);
    CleanJoinsToItself(GateRoot(NewGate(built, roots, deny)), AsPath(names));
  }

  /** Everything the gate promises of an approval, for any request, whatever the tree was when the gate
      was `built` and whatever it is now: the path is clean and fully resolved as far as it exists; it is
      what the resolver says when the request exists; it lies under some root and under no deny entry, in
      particular in no directory a deny entry led to when the gate was built; and it is settled. */
  lemma ApprovalHolds(built: Fs, fs: Fs, roots: seq<Path>, deny: seq<Path>, requested: string)
    requires Sane(fs) && Clean(GateRoot(NewGate(built, roots, deny)))
    requires Check(fs, NewGate(built, roots, deny), requested).Ok?
    ensures var g := NewGate(built, roots, deny);
            var q := Check(fs, g, requested).value;
            && Settled(fs, g, q)
            && (exists i :: 0 <= i < |roots| && Canonical(built, roots[i]) <= q &&
                            (forall l :: Canonicalize(built, roots[i]) == Ok(l) ==> l <= LocOf(q)))
            && (forall i :: 0 <= i < |deny| ==> !(Canonical(built, deny[i]) <= q))
            && (forall i, l :: 0 <= i < |deny| && Canonicalize(built, deny[i]) == Ok(l) ==> !(l <= LocOf(q)))
            && (forall l :: Canonicalize(fs, Joined(GateRoot(g), Components(requested))) == Ok(l) ==> q == AsPath(l))
  {
    var g := NewGate(built, roots, deny);
    var q := Check(fs, g, requested).value;
    ApprovedIsSettled(fs, g, requested);
    var r :| 0 <= r < |g.roots| && IsUnder(q, g.roots[r]);
    assert IsUnder(q, Canonical(built, roots[r]));
    forall i | 0 <= i < |deny|
      ensures !IsUnder(q, Canonical(built, deny[i]))
    {
      assert g.deny[i] == Canonical(built, deny[i]);
    }
    forall i, l | 0 <= i < |deny| && Canonicalize(built, deny[i]) == Ok(l)
      ensures !(l <= LocOf(q))
    {
      if l <= LocOf(q) { PrefixOfLoc(l, q); }
    }
  }

  lemma PrefixOfLoc(l: Loc, q: Path)
    requires Clean(q) && l <= LocOf(q)
    ensures AsPath(l) <= q
  {
    assert forall i :: 0 <= i < |l| ==> l[i] == LocOf(q)[i] == q[i + 1].name;
  }

  // ---------------------------------------------------------------- creating what was approved

  /** The tree with `rest` made under `at`: plain directories, and `leaf` at the end. */
  function Grow(t: Tree, at: Loc, rest: Loc, leaf: Node): Tree
    decreases |rest|
  {
    if rest == [] then t
    else if |rest| == 1 then t[at + rest := leaf]
    else Grow(t[at + [rest[0]] := Dir], at + [rest[0]], rest[1..], leaf)
  }

  lemma GrowOne(t: Tree, at: Loc, n: string, node: Node)
    requires WellFormed(t) && at in t && t[at].Dir? && ValidName(n) && at + [n] !in t
    ensures var one := t[at + [n] := node];
            WellFormed(one) && Extends(t, one) && forall m :: at + [n] + [m] !in one
  {
    var child := at + [n];
    var one := t[child := node];
    assert Parent(child) == at;
    forall l | l in one && l != []
      ensures Parent(l) in one && one[Parent(l)].Dir? && ValidName(l[|l| - 1])
    {
      if l != child { assert l in t; }
    }
    forall m ensures child + [m] !in one {
      assert Parent(child + [m]) == child;
    }
  }

  lemma {:induction false} GrowMakesIt(t: Tree, at: Loc, rest: Loc, leaf: Node)
    requires WellFormed(t) && at in t && t[at].Dir? && rest != [] && !leaf.Link?
    requires forall i :: 0 <= i < |rest| ==> ValidName(rest[i])
    requires at + [rest[0]] !in t
    ensures var more := Grow(t, at, rest, leaf);
            WellFormed(more) && Extends(t, more) && Stands(more, at + rest) && more[at + rest] == leaf
    decreases |rest|
  {
    if |rest| == 1 {
      GrowOne(t, at, rest[0], leaf);
      assert rest == [rest[0]];
    } else {
      GrowOne(t, at, rest[0], Dir);
      GrowMakesIt(t[at + [rest[0]] := Dir], at + [rest[0]], rest[1..], leaf);
      assert at + [rest[0]] + rest[1..] == at + rest;
    }
  }

  /** Nothing stands in the way of creating the first leftover name. */
  predicate Free(t: Tree, spot: Loc, name: string) {
    spot in t && t[spot].Dir? && spot + [name] !in t
  }

  /** Where a path that stops at `k` is headed: the leftover names under the spot. */
  function Headed(path: Path, k: nat, spot: Loc): Loc
    requires Clean(path) && 0 < k <= |path|
  {
    spot + LocOf(path)[k - 1..]
  }

  lemma HeadedIsTheOutcome(path: Path, k: nat, spot: Loc)
    requires Clean(path) && 0 < k < |path|
    ensures AsPath(spot) + path[k..] == AsPath(Headed(path, k, spot))
    ensures Headed(path, k, spot)[..|spot|] == spot && Headed(path, k, spot)[..|spot| + 1] == spot + [path[k].name]
  {
  }

  lemma LeftoversAreValid(path: Path, k: nat)
    requires Clean(path) && 0 < k < |path|
    ensures var rest := LocOf(path)[k - 1..];
            rest != [] && rest[0] == path[k].name && forall i :: 0 <= i < |rest| ==> ValidName(rest[i])
  {
  }

  /** The gate approved a path whose leftover names start at `path[k]`. Creating the path, and then
      resolving it, can lead to exactly what was approved if and only if the first of those names really
      is missing: a directory holds the spot and has no such entry. The gate itself reads every failure
      to resolve as missing, so a link that does not resolve is where the two part. */
  lemma CreationTheorem(fs: Fs, path: Path, k: nat, spot: Loc)
    requires Sane(fs) && Clean(path) && StopsAt(fs, path, k, spot) && Stands(fs.tree, spot) && k < |path|
    ensures (exists more :: WellFormed(more) && Extends(fs.tree, more) &&
                            Walk(more, fs.links, fs.cwd, Deepest(fs, path)) == Ok(Headed(path, k, spot)))
            <==> Free(fs.tree, spot, path[k].name)
  {
    FirstStop(fs, path, k, spot, |path|);
    HeadedIsTheOutcome(path, k, spot);
    if Free(fs.tree, spot, path[k].name) {
      LeftoversAreValid(path, k);
      GrowMakesIt(fs.tree, spot, LocOf(path)[k - 1..], File);
      var more := Grow(fs.tree, spot, LocOf(path)[k - 1..], File);
      OwnPathLeadsThere(more, fs.links, fs.cwd, Headed(path, k, spot));
    }
    if more :| WellFormed(more) && Extends(fs.tree, more) &&
               Walk(more, fs.links, fs.cwd, Deepest(fs, path)) == Ok(Headed(path, k, spot)) {
      WalkLands(more, fs.links, fs.cwd, Deepest(fs, path));
      LandedSoFree(fs, path, k, spot, more);
    }
  }

  lemma LandedSoFree(fs: Fs, path: Path, k: nat, spot: Loc, more: Tree)
    requires Sane(fs) && Clean(path) && StopsAt(fs, path, k, spot) && Stands(fs.tree, spot) && k < |path|
    requires WellFormed(more) && Extends(fs.tree, more) && Stands(more, Headed(path, k, spot))
    ensures Free(fs.tree, spot, path[k].name)
  {
    var whole := Headed(path, k, spot);
    var child := spot + [path[k].name];
    HeadedIsTheOutcome(path, k, spot);
    AncestorsAreDirs(more, whole, |spot|);
    if |whole| > |spot| + 1 {
      AncestorsAreDirs(more, whole, |spot| + 1);
    } else {
      assert whole[..|whole|] == whole;
    }
    assert Stands(more, child);
    TailFails(fs, path, k, spot, k + 1);
    assert path[k..k + 1] == [Name(path[k].name)];
    if child in fs.tree { OneName(fs.tree, fs.links, spot, path[k].name); }
  }

  /** Every link in the tree leads somewhere. */
  ghost predicate LinksResolve(fs: Fs) {
    forall l :: l in fs.tree && l != [] && fs.tree[l].Link? ==>
      Walk(fs.tree, fs.links, Parent(l), [Name(l[|l| - 1])]).Ok?
  }

  /** In a tree where every link resolves the spot is always free, unless a file stands where a directory
      is asked for, in which case nothing can be created there at all. */
  lemma LinksResolveSoFree(fs: Fs, path: Path, k: nat, spot: Loc)
    requires Sane(fs) && Clean(path) && StopsAt(fs, path, k, spot) && Stands(fs.tree, spot) && k < |path|
    requires LinksResolve(fs)
    ensures Free(fs.tree, spot, path[k].name) <==> fs.tree[spot].Dir?
  {
    var n := path[k].name;
    var child := spot + [n];
    TailFails(fs, path, k, spot, k + 1);
    assert path[k..k + 1] == [Name(n)];
    if fs.tree[spot].Dir? && child in fs.tree {
      assert Parent(child) == spot;
      LastStep(child);
      if !fs.tree[child].Link? { OneName(fs.tree, fs.links, spot, n); }
    }
  }

  /** Growing the leftovers under the spot: the request now resolves, to where it was headed. */
  lemma GrownResolves(fs: Fs, path: Path, k: nat, spot: Loc, leaf: Node)
    requires Sane(fs) && Clean(path) && StopsAt(fs, path, k, spot) && k < |path| && !leaf.Link?
    requires Free(fs.tree, spot, path[k].name)
    ensures var after := fs.(tree := Grow(fs.tree, spot, LocOf(path)[k - 1..], leaf));
            var place := Headed(path, k, spot);
            && Sane(after) && Extends(fs.tree, after.tree)
            && place in after.tree && after.tree[place] == leaf
            && Canonicalize(after, AsPath(place)) == Ok(place)
            && Canonicalize(after, path) == Ok(place)
  {
    LeftoversAreValid(path, k);
    HeadedIsTheOutcome(path, k, spot);
    GrowMakesIt(fs.tree, spot, LocOf(path)[k - 1..], leaf);
    var after := fs.(tree := Grow(fs.tree, spot, LocOf(path)[k - 1..], leaf));
    OwnPathLeadsThere(after.tree, fs.links, fs.cwd, Headed(path, k, spot));
    OwnPathLeadsThere(after.tree, fs.links, fs.cwd, spot);
    WalkSurvivesCreation(fs.tree, after.tree, fs.links, fs.cwd, path[..k]);
    WalkSplits(after.tree, fs.links, fs.cwd, AsPath(spot), path[k..]);
    WalkSplits(after.tree, fs.links, fs.cwd, path[..k], path[k..]);
    assert path[..k] + path[k..] == path;
  }

  /** Approve, then create: with the spot free, and whatever is made at the end, the new path resolves
      to exactly what was approved, and the same request checked again is approved as the same path. */
  lemma ApprovedThenCreated(fs: Fs, g: PathGate, requested: string, k: nat, spot: Loc, leaf: Node)
    requires Sane(fs) && Clean(GateRoot(g)) && Check(fs, g, requested).Ok? && !leaf.Link?
    requires var joined := Joined(GateRoot(g), Components(requested));
             Clean(joined) && StopsAt(fs, joined, k, spot) && k < |joined| && Free(fs.tree, spot, joined[k].name)
    ensures var joined := Joined(GateRoot(g), Components(requested));
            var place := Headed(joined, k, spot);
            var after := fs.(tree := Grow(fs.tree, spot, LocOf(joined)[k - 1..], leaf));
            && Check(fs, g, requested) == Ok(AsPath(place))
            && Sane(after) && Extends(fs.tree, after.tree)
            && Canonicalize(after, AsPath(place)) == Ok(place) && place in after.tree && after.tree[place] == leaf
            && Check(after, g, requested) == Ok(AsPath(place))
  {
    var joined := Joined(GateRoot(g), Components(requested));
    GrownResolves(fs, joined, k, spot, leaf);
    FirstStop(fs, joined, k, spot, |joined|);
    HeadedIsTheOutcome(joined, k, spot);
    assert joined[..|joined|] == joined && joined[|joined|..] == [];
    assert AsPath(Headed(joined, k, spot)) + [] == AsPath(Headed(joined, k, spot));
  }

  /** Where the spot is not free because a link stands there that leads nowhere yet, the gate approves
      the link's own path; and once anything makes the link lead somewhere, opening the approved path
      reaches that place, never the one approved. */
  lemma UnresolvedLinkIsReadAsMissing(fs: Fs, path: Path, k: nat, spot: Loc, more: Tree, target: Path, x: Loc)
    requires Sane(fs) && Clean(path) && StopsAt(fs, path, k, spot) && Stands(fs.tree, spot) && k == |path| - 1
    requires spot + [path[k].name] in fs.tree && fs.tree[spot + [path[k].name]] == Link(target)
    requires WellFormed(more) && Extends(fs.tree, more) && fs.links > 0 && target != []
    requires Walk(more, fs.links - 1, spot, target) == Ok(x)
    ensures !Free(fs.tree, spot, path[k].name)
    ensures Deepest(fs, path) == AsPath(spot + [path[k].name])
    ensures Walk(more, fs.links, fs.cwd, Deepest(fs, path)) == Ok(x) && x != spot + [path[k].name]
  {
    var child := spot + [path[k].name];
    FirstStop(fs, path, k, spot, |path|);
    assert path[k..] == [Name(path[k].name)];
    LastStep(child);
    assert child[..|child| - 1] == spot && Parent(child) == spot;
    OwnPathLeadsThere(more, fs.links, fs.cwd, spot);
    WalkSplits(more, fs.links, fs.cwd, AsPath(spot), [Name(path[k].name)]);
    assert [Name(path[k].name)][1..] == [];
    WalkLands(more, fs.links - 1, spot, target);
  }
}
