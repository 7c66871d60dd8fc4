/** Paths as their components, and the text they are read from and rendered to. */
module Paths {

  datatype Comp = Root | Cur | Up | Name(name: string)

  type Path = seq<Comp>

  /** A place in the tree: the names from the root down. */
  type Loc = seq<string>

  predicate ValidName(n: string) {
    n != "" && n != "." && n != ".." && forall i :: 0 <= i < |n| ==> n[i] != '/'
  }

  /** The index of the first slash, or the length where there is none. */
  function FirstSlash(s: string): (i: nat)
    ensures i <= |s| && (i < |s| ==> s[i] == '/')
    ensures forall k :: 0 <= k < i ==> s[k] != '/'
  {
    if s == "" || s[0] == '/' then 0 else FirstSlash(s[1..]) + 1
  }

  function Segments(s: string): (r: seq<string>)
    ensures r != []
    ensures forall i, k :: 0 <= i < |r| && 0 <= k < |r[i]| ==> r[i][k] != '/'
    decreases |s|
  {
    var i := FirstSlash(s);
    if i == |s| then [s] else [s[..i]] + Segments(s[i + 1..])
  }

  function FromSegment(here: string): Path {
    if here == "" || here == "." then [] else if here == ".." then [Up] else [Name(here)]
  }

  function FromSegments(segments: seq<string>): (p: Path) {
    if segments == [] then []
    else FromSegment(segments[0]) + FromSegments(segments[1..])
  }

  /** `Path::components`: empty segments and dots vanish, except a dot that leads a relative path. */
  function Components(s: string): Path {
    var segments := Segments(s);
    if s != "" && s[0] == '/' then [Root] + FromSegments(segments)
    else if segments[0] == "." then [Cur] + FromSegments(segments)
    else FromSegments(segments)
  }

  predicate Relative(p: Path) {
    forall i :: 0 <= i < |p| ==> p[i].Up? || p[i].Cur? || (p[i].Name? && ValidName(p[i].name))
  }

  /** Only the first component of any text can be the root, and every name in it is a proper one. */
  lemma ComponentsAreProper(s: string)
    ensures var p := Components(s); (p != [] && p[0].Root? && Relative(p[1..])) || Relative(p)
  {
    ComponentsAreNormal(s);
  }

  /** Absolute, with nothing but proper names after the root. */
  predicate Clean(p: Path) {
    p != [] && p[0] == Root && forall i :: 0 < i < |p| ==> p[i].Name? && ValidName(p[i].name)
  }

  function Names(l: Loc): Path {
    seq(|l|, i requires 0 <= i < |l| => Name(l[i]))
  }

  function AsPath(l: Loc): (p: Path)
    ensures |p| == |l| + 1
  {
    [Root] + Names(l)
  }

  function LocOf(p: Path): (l: Loc)
    requires Clean(p)
    ensures |l| == |p| - 1
  {
    seq(|p| - 1, i requires 0 <= i < |p| - 1 => p[i + 1].name)
  }

  lemma CleanIsAsPath(p: Path)
    requires Clean(p)
    ensures AsPath(LocOf(p)) == p
  {
  }

  // ---------------------------------------------------------------- the text of a path

  function Text(c: Comp): string {
    match c
    case Root => ""
    case Cur => "."
    case Up => ".."
    case Name(n) => n
  }

  /** The components' texts with a slash between each two. */
  function Slashed(p: Path): string {
    if p == [] then ""
    else if |p| == 1 then Text(p[0])
    else Text(p[0]) + ("/" + Slashed(p[1..]))
  }

  /** The text a path is handed on as. */
  function Render(p: Path): string {
    if p != [] && p[0].Root? then "/" + Slashed(p[1..]) else Slashed(p)
  }

  /** A name or a step up. */
  predicate Plain(c: Comp) {
    c.Up? || (c.Name? && ValidName(c.name))
  }

  /** What any text's components look like: the root or a dot can only come first. */
  predicate Normal(p: Path) {
    forall i :: 0 <= i < |p| ==> Plain(p[i]) || (i == 0 && (p[0].Root? || p[0].Cur?))
  }

  lemma CleanIsNormal(p: Path)
    requires Clean(p)
    ensures Normal(p)
  {
  }

  lemma {:induction false} SegmentsArePlain(segments: seq<string>)
    requires forall i, k :: 0 <= i < |segments| && 0 <= k < |segments[i]| ==> segments[i][k] != '/'
    ensures forall i :: 0 <= i < |FromSegments(segments)| ==> Plain(FromSegments(segments)[i])
    decreases |segments|
  {
    if segments != [] { SegmentsArePlain(segments[1..]); }
  }

  lemma ComponentsAreNormal(s: string)
    ensures Normal(Components(s))
  {
    SegmentsArePlain(Segments(s));
  }

  /** Where the first segment of a text ends. */
  lemma SegmentsStep(n: string, rest: string)
    requires forall i :: 0 <= i < |n| ==> n[i] != '/'
    ensures Segments(n) == [n] && Segments(n + ("/" + rest)) == [n] + Segments(rest)
  {
    var s := n + ("/" + rest);
    assert forall k :: 0 <= k < |n| ==> s[k] == n[k];
    assert s[|n|] == '/';
    assert FirstSlash(s) == |n| && s[..|n|] == n && s[|n| + 1..] == rest;
  }

  function Texts(p: Path): seq<string> {
    seq(|p|, i requires 0 <= i < |p| => Text(p[i]))
  }

  lemma {:induction false} SegmentsOfSlashed(p: Path)
    requires p != [] && forall i :: 0 <= i < |p| ==> Plain(p[i]) || p[i].Cur?
    ensures Segments(Slashed(p)) == Texts(p)
    decreases |p|
  {
    hide Segments;
    SegmentsStep(Text(p[0]), Slashed(p[1..]));
    if |p| == 1 {
      assert Texts(p) == [Text(p[0])];
    } else {
      SegmentsOfSlashed(p[1..]);
      assert Texts(p) == [Text(p[0])] + Texts(p[1..]);
    }
  }

  lemma {:induction false} FromTexts(p: Path)
    requires forall i :: 0 <= i < |p| ==> Plain(p[i])
    ensures FromSegments(Texts(p)) == p
    decreases |p|
  {
    if p != [] {
      FromTexts(p[1..]);
      assert Texts(p)[1..] == Texts(p[1..]);
      assert p == [p[0]] + p[1..];
    }
  }

  lemma NothingRead()
    ensures Segments("") == [""] && FromSegments([""]) == []
  {
    assert [""][1..] == [];
  }

  lemma RootedReadsBack(p: Path)
    requires forall i :: 0 <= i < |p| ==> Plain(p[i])
    ensures Components("/" + Slashed(p)) == [Root] + p
  {
    AfterTheSlash(Slashed(p));
    NothingRead();
    if p != [] {
      SegmentsOfSlashed(p);
      FromTexts(p);
    }
  }

  lemma AfterTheSlash(rest: string)
    ensures Segments("/" + rest) == [""] + Segments(rest)
    ensures FromSegments([""] + Segments(rest)) == FromSegments(Segments(rest))
  {
    SegmentsStep("", rest);
    assert "" + ("/" + rest) == "/" + rest;
    SkipsNothing("", Segments(rest));
  }

  lemma SkipsNothing(here: string, segments: seq<string>)
    requires here == "" || here == "."
    ensures FromSegments([here] + segments) == FromSegments(segments)
  {
    assert ([here] + segments)[1..] == segments;
  }

  lemma FirstOfSlashed(p: Path)
    requires p != [] && (Plain(p[0]) || p[0].Cur?)
    ensures Slashed(p) != "" && Slashed(p)[0] == Text(p[0])[0] != '/'
  {
  }

  lemma NothingReadBack()
    ensures Components(Slashed([])) == []
  {
    NothingRead();
  }

  lemma ReadRelative(s: string, segments: seq<string>)
    requires s != "" && s[0] != '/' && Segments(s) == segments
    ensures Components(s) == (if segments[0] == "." then [Cur] else []) + FromSegments(segments)
  {
    hide Segments, FromSegments;
    assert [] + FromSegments(segments) == FromSegments(segments);
  }

  lemma TextsFrom(p: Path)
    requires p != [] && Normal(p) && !p[0].Root?
    ensures Texts(p)[0] == "." <==> p[0].Cur?
    ensures FromSegments(Texts(p)) == if p[0].Cur? then p[1..] else p
  {
    hide FromSegments;
    if p[0].Cur? {
      FromTexts(p[1..]);
      SkipsNothing(".", Texts(p[1..]));
      assert Texts(p) == ["."] + Texts(p[1..]);
    } else {
      FromTexts(p);
    }
  }

  lemma RelativeReadsBack(p: Path)
    requires Normal(p) && p != [] && !p[0].Root?
    ensures Components(Slashed(p)) == p
  {
    SegmentsOfSlashed(p);
    FirstOfSlashed(p);
    TextsFrom(p);
    hide Components, Segments, FromSegments, Slashed, Texts, Text;
    ReadRelative(Slashed(p), Texts(p));
    assert p == [p[0]] + p[1..];
  }

  /** A path read back from its own text is itself, steps up and leading dot and all: so text and components
      tell the same, and `..` and no other segment is a step up. */
  lemma RenderReadsBack(p: Path)
    requires Normal(p)
    ensures Components(Render(p)) == p
  {
    hide Segments, FromSegments, Slashed, Components;
    if p == [] {
      NothingReadBack();
    } else if p[0].Root? {
      RootedReadsBack(p[1..]);
      assert p == [Root] + p[1..];
    } else {
      RelativeReadsBack(p);
    }
  }

  lemma Regroup(x: string, y: string, z: string)
    ensures x + ("/" + y) + ("/" + z) == x + ("/" + (y + ("/" + z)))
  {
  }

  lemma SplitAtSlash(a: string, i: nat)
    requires i < |a| && a[i] == '/'
    ensures a == a[..i] + ("/" + a[i + 1..])
  {
  }

  lemma {:induction false} SegmentsJoin(a: string, b: string)
    ensures Segments(a + ("/" + b)) == Segments(a) + Segments(b)
    decreases |a|
  {
    hide Segments;
    var i := FirstSlash(a);
    if i == |a| {
      SegmentsStep(a, b);
    } else {
      var x, y := a[..i], a[i + 1..];
      SplitAtSlash(a, i);
      SegmentsStep(x, y);
      SegmentsJoin(y, b);
      Regroup(x, y, b);
      SegmentsStep(x, y + ("/" + b));
      assert ([x] + Segments(y)) + Segments(b) == [x] + (Segments(y) + Segments(b));
    }
  }

  lemma {:induction false} FromSegmentsJoin(a: seq<string>, b: seq<string>)
    ensures FromSegments(a + b) == FromSegments(a) + FromSegments(b)
    decreases |a|
  {
    if a == [] {
      assert a + b == b;
    } else {
      FromSegmentsJoin(a[1..], b);
      assert (a + b)[1..] == a[1..] + b && (a + b)[0] == a[0];
      hide FromSegment;
      assert FromSegments(a + b) == FromSegment(a[0]) + (FromSegments(a[1..]) + FromSegments(b));
    }
  }

  lemma SkippedInside(a: string, here: string, b: string)
    requires here == "" || here == "."
    ensures FromSegments(Segments(a + ("/" + (here + ("/" + b))))) == FromSegments(Segments(a + ("/" + b)))
    ensures Segments(a + ("/" + (here + ("/" + b))))[0] == Segments(a + ("/" + b))[0]
  {
    hide Segments, FromSegments;
    SegmentsStep(here, b);
    SegmentsJoin(a, b);
    SegmentsJoin(a, here + ("/" + b));
    FromSegmentsJoin(Segments(a), Segments(b));
    FromSegmentsJoin(Segments(a), [here] + Segments(b));
    SkipsNothing(here, Segments(b));
  }

  /** A doubled slash, and a dot between slashes, tell nothing. */
  lemma RedundancyIsLost(a: string, here: string, b: string)
    requires here == "" || here == "."
    ensures Components(a + ("/" + (here + ("/" + b)))) == Components(a + ("/" + b))
  {
    hide Segments, FromSegments;
    SkippedInside(a, here, b);
    var long, short := a + ("/" + (here + ("/" + b))), a + ("/" + b);
    assert long != "" && short != "" && long[0] == short[0] by {
      if a == "" { assert long[0] == '/' == short[0]; } else { assert long[0] == a[0] == short[0]; }
    }
  }
}
