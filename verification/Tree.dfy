/** A directory tree with symbolic links, and its resolver: section 4.13 (Pathname Resolution) of
    POSIX.1-2017 Base Definitions, without permissions. */
module Tree {
  import opened Wrappers
  import opened Paths

  datatype Node = Dir | File | Link(target: Path)

  type Tree = map<Loc, Node>

  datatype Errno = NoEntry | NotDirectory | TooManyLinks

  function Parent(l: Loc): Loc {
    if l == [] then [] else l[..|l| - 1]
  }

  ghost predicate WellFormed(t: Tree) {
    && [] in t && t[[]].Dir?
    && (forall l {:trigger Parent(l)} :: l in t && l != [] ==> Parent(l) in t && t[Parent(l)].Dir? && ValidName(l[|l| - 1]))
  }

  /** Follow `path` from `at`. `links` bounds how deep links may nest in links, which only loops meet. */
  function Walk(t: Tree, links: nat, at: Loc, path: Path): Result<Loc, Errno>
    decreases links, |path|
  {
    if path == [] then Ok(at)
    else if path[0].Root? then Walk(t, links, [], path[1..])
    else if at !in t then Err(NoEntry)
    else if !t[at].Dir? then Err(NotDirectory)
    else match path[0]
      case Cur => Walk(t, links, at, path[1..])
      case Up => Walk(t, links, Parent(at), path[1..])
      case Name(n) =>
        var child := at + [n];
        if child !in t then Err(NoEntry)
        else match t[child]
          case Dir | File => Walk(t, links, child, path[1..])
          case Link(target) =>
            if target == [] then Err(NoEntry)
            else if links == 0 then Err(TooManyLinks)
            else match Walk(t, links - 1, at, target)
              case Ok(l) => Walk(t, links, l, path[1..])
              case Err(e) => Err(e)
  }

  /** What exists and is not itself a link. */
  predicate Stands(t: Tree, l: Loc) {
    l in t && !t[l].Link?
  }

  lemma {:induction false} WalkSplits(t: Tree, links: nat, at: Loc, a: Path, b: Path)
    ensures Walk(t, links, at, a + b) ==
            match Walk(t, links, at, a) { case Ok(l) => Walk(t, links, l, b) case Err(e) => Err(e) }
    decreases |a|
  {
    if a == [] {
      assert a + b == b;
    } else {
      assert (a + b)[1..] == a[1..] + b && (a + b)[0] == a[0];
      if a[0].Root? {
        WalkSplits(t, links, [], a[1..], b);
      } else if at in t && t[at].Dir? {
        match a[0]
        case Cur => WalkSplits(t, links, at, a[1..], b);
        case Up => WalkSplits(t, links, Parent(at), a[1..], b);
        case Name(n) =>
          if at + [n] in t {
            match t[at + [n]]
            case Dir | File => WalkSplits(t, links, at + [n], a[1..], b);
            case Link(target) =>
              if target != [] && links > 0 && Walk(t, links - 1, at, target).Ok? {
                WalkSplits(t, links, Walk(t, links - 1, at, target).value, a[1..], b);
              }
          }
      }
    }
  }

  /** Where a walk lands, something stands. */
  lemma {:induction false} WalkLands(t: Tree, links: nat, at: Loc, path: Path)
    requires WellFormed(t) && Stands(t, at)
    ensures Walk(t, links, at, path).Ok? ==> Stands(t, Walk(t, links, at, path).value)
    decreases links, |path|
  {
    if path != [] {
      if path[0].Root? {
        WalkLands(t, links, [], path[1..]);
      } else if t[at].Dir? {
        match path[0]
        case Cur => WalkLands(t, links, at, path[1..]);
        case Up => WalkLands(t, links, Parent(at), path[1..]);
        case Name(n) =>
          if at + [n] in t {
            match t[at + [n]]
            case Dir | File => WalkLands(t, links, at + [n], path[1..]);
            case Link(target) =>
              if target != [] && links > 0 {
                WalkLands(t, links - 1, at, target);
                if Walk(t, links - 1, at, target).Ok? {
                  WalkLands(t, links, Walk(t, links - 1, at, target).value, path[1..]);
                }
              }
          }
      }
    }
  }

  /** Every ancestor of a place in the tree is a directory in it. */
  lemma {:induction false} AncestorsAreDirs(t: Tree, l: Loc, k: nat)
    requires WellFormed(t) && l in t && k < |l|
    ensures l[..k] in t && t[l[..k]].Dir?
    decreases |l|
  {
    assert Parent(l) == l[..|l| - 1];
    if k < |l| - 1 {
      AncestorsAreDirs(t, l[..|l| - 1], k);
      assert l[..|l| - 1][..k] == l[..k];
    }
  }

  lemma {:induction false} NamesAreValid(t: Tree, l: Loc, i: nat)
    requires WellFormed(t) && l in t && i < |l|
    ensures ValidName(l[i])
    decreases |l|
  {
    assert Parent(l) == l[..|l| - 1];
    if i < |l| - 1 { NamesAreValid(t, l[..|l| - 1], i); }
  }

  /** A place's own path, with no link in it, leads to it. */
  lemma {:induction false} OwnPathLeadsThere(t: Tree, links: nat, from: Loc, l: Loc)
    requires WellFormed(t) && Stands(t, l)
    ensures Walk(t, links, from, AsPath(l)) == Ok(l)
    decreases |l|
  {
    if l == [] {
      assert AsPath(l) == [Root];
    } else {
      var n := |l| - 1;
      AncestorsAreDirs(t, l, n);
      OwnPathLeadsThere(t, links, from, l[..n]);
      LastStep(l);
      WalkSplits(t, links, from, AsPath(l[..n]), [Name(l[n])]);
      OneName(t, links, l[..n], l[n]);
    }
  }

  lemma LastStep(l: Loc)
    requires l != []
    ensures l[..|l| - 1] + [l[|l| - 1]] == l
    ensures AsPath(l) == AsPath(l[..|l| - 1]) + [Name(l[|l| - 1])]
  {
  }

  /** Stepping to a name that is there and is no link. */
  lemma OneName(t: Tree, links: nat, at: Loc, n: string)
    requires at in t && t[at].Dir? && Stands(t, at + [n])
    ensures Walk(t, links, at, [Name(n)]) == Ok(at + [n])
  {
    assert [Name(n)][1..] == [];
  }

  /** `more` has everything `t` has, as it was. */
  ghost predicate Extends(t: Tree, more: Tree) {
    forall l :: l in t ==> l in more && more[l] == t[l]
  }

  /** What resolves goes on resolving, to the same place, whatever is created elsewhere. */
  lemma {:induction false} WalkSurvivesCreation(t: Tree, more: Tree, links: nat, at: Loc, path: Path)
    requires Extends(t, more) && Walk(t, links, at, path).Ok?
    ensures Walk(more, links, at, path) == Walk(t, links, at, path)
    decreases links, |path|
  {
    if path != [] {
      if path[0].Root? {
        WalkSurvivesCreation(t, more, links, [], path[1..]);
      } else {
        match path[0]
        case Cur => WalkSurvivesCreation(t, more, links, at, path[1..]);
        case Up => WalkSurvivesCreation(t, more, links, Parent(at), path[1..]);
        case Name(n) =>
          match t[at + [n]]
          case Dir | File => WalkSurvivesCreation(t, more, links, at + [n], path[1..]);
          case Link(target) =>
            WalkSurvivesCreation(t, more, links - 1, at, target);
            WalkSurvivesCreation(t, more, links, Walk(t, links - 1, at, target).value, path[1..]);
      }
    }
  }
}
