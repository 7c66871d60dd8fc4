/** File names for credentials (src/runtime/store.rs:279-281, 355-377). */
module Slug {

  const MAX_SLUG: nat := 48

  predicate IsUpper(c: char) { 'A' <= c <= 'Z' }

  predicate IsAlnum(c: char) { 'a' <= c <= 'z' || '0' <= c <= '9' || IsUpper(c) }

  function Lower(c: char): char {
    if IsUpper(c) then (c as int + 32) as char else c
  }

  // ---------------------------------------------------------------- what a slug means

  /** The runs of ASCII letters and digits, lower-cased. */
  function Words(s: string): seq<string> {
    if s == "" then []
    else
      var n := |s| - 1;
      var before := Words(s[..n]);
      if !IsAlnum(s[n]) then before
      else if n > 0 && IsAlnum(s[n - 1]) && before != []
      then before[|before| - 1 := before[|before| - 1] + [Lower(s[n])]]
      else before + [[Lower(s[n])]]
  }

  function Dashed(words: seq<string>): string {
    if words == [] then ""
    else if |words| == 1 then words[0]
    else Dashed(words[..|words| - 1]) + "-" + words[|words| - 1]
  }

  function Take(s: string, room: nat): string {
    if |s| <= room then s else s[..room]
  }

  function Cut(s: string): string {
    Take(s, MAX_SLUG)
  }

  function WithoutTrailingDash(s: string): string {
    if s != "" && s[|s| - 1] == '-' then s[..|s| - 1] else s
  }

  /** The runs joined by single dashes, cut, with no dash left dangling, or `default`. */
  function Slug(s: string): string {
    var cut := WithoutTrailingDash(Cut(Dashed(Words(s))));
    if cut == "" then "default" else cut
  }

  predicate IsSlugChar(c: char) { 'a' <= c <= 'z' || '0' <= c <= '9' || c == '-' }

  /** Canonical form, but for the length and a dash at the end. */
  predicate IsDashed(s: string) {
    && (forall i :: 0 <= i < |s| ==> IsSlugChar(s[i]))
    && (s != "" ==> s[0] != '-')
    && (forall i :: 0 < i < |s| ==> !(s[i - 1] == '-' && s[i] == '-'))
  }

  predicate IsSlug(s: string) {
    1 <= |s| <= MAX_SLUG && IsDashed(s) && s[|s| - 1] != '-'
  }

  // ---------------------------------------------------------------- the loop

  /** What the loop has pushed after these characters, were nothing to stop it. */
  function Pushed(s: string): string {
    if s == "" then ""
    else
      var n := |s| - 1;
      var out := Pushed(s[..n]);
      if IsAlnum(s[n]) then out + [Lower(s[n])]
      else if out != "" && out[|out| - 1] != '-' then out + "-"
      else out
  }

  lemma {:induction false} PushedIsDashed(s: string)
    ensures IsDashed(Pushed(s))
    ensures |Pushed(s)| <= |s|
    decreases |s|
  {
    if s != "" {
      PushedIsDashed(s[..|s| - 1]);
    }
  }

  /** Each character extends what was pushed before it by one character at most. */
  lemma {:induction false} PushedGrows(s: string, k: nat)
    requires k <= |s|
    ensures Pushed(s[..k]) <= Pushed(s)
    decreases |s| - k
  {
    if k == |s| {
      assert s[..k] == s;
    } else {
      PushedGrows(s, k + 1);
      assert s[..k + 1][..k] == s[..k];
    }
  }

  /** The pushed text is the runs joined by dashes, and one more dash when something other than a
      letter or digit follows the last run. */
  lemma {:induction false} PushedIsWords(s: string)
    ensures Words(s) == [] <==> Pushed(s) == ""
    ensures Words(s) != [] ==> Words(s)[|Words(s)| - 1] != "" && Dashed(Words(s)) != "" &&
                               Dashed(Words(s))[|Dashed(Words(s))| - 1] != '-'
    ensures s != "" && IsAlnum(s[|s| - 1]) ==> Words(s) != [] && Pushed(s) == Dashed(Words(s))
    ensures s != "" && !IsAlnum(s[|s| - 1]) && Words(s) != [] ==> Pushed(s) == Dashed(Words(s)) + "-"
    decreases |s|
  {
    if s != "" {
      var n := |s| - 1;
      PushedIsWords(s[..n]);
      var before := Words(s[..n]);
      if IsAlnum(s[n]) {
        assert Lower(s[n]) != '-';
        if n > 0 && IsAlnum(s[n - 1]) {
          LastWordGrows(before, Lower(s[n]));
        } else if before != [] {
          OneWordMore(before, [Lower(s[n])]);
        }
      }
    }
  }

  lemma OneWordMore(words: seq<string>, w: string)
    requires words != []
    ensures Dashed(words + [w]) == Dashed(words) + "-" + w
  {
    assert (words + [w])[..|words|] == words;
  }

  lemma LastWordGrows(words: seq<string>, c: char)
    requires words != []
    ensures Dashed(words[|words| - 1 := words[|words| - 1] + [c]]) == Dashed(words) + [c]
  {
    var n := |words| - 1;
    var grown := words[n := words[n] + [c]];
    assert grown[..n] == words[..n];
  }

  function TrimDashes(s: string): string {
    if s != "" && s[0] == '-' then TrimDashes(s[1..])
    else if s != "" && s[|s| - 1] == '-' then TrimDashes(s[..|s| - 1])
    else s
  }

  lemma TrimOneDash(s: string)
    requires IsDashed(s)
    ensures TrimDashes(s) == WithoutTrailingDash(s)
  {
    if s != "" && s[|s| - 1] == '-' {
      var t := s[..|s| - 1];
      assert t != "" && t[|t| - 1] != '-' && t[0] != '-';
    }
  }

  /** Stopping at 48 characters, or at the end, leaves what the slug is cut from. */
  lemma StoppedEarly(s: string, i: nat)
    requires i <= |s| && |Pushed(s[..i])| <= MAX_SLUG
    requires i < |s| ==> |Pushed(s[..i])| == MAX_SLUG
    ensures var trimmed := TrimDashes(Pushed(s[..i])); Slug(s) == if trimmed == "" then "default" else trimmed
  {
    PushedGrows(s, i);
    assert s[..|s|] == s;
    assert Pushed(s[..i]) == Cut(Pushed(s));
    PushedIsDashed(s[..i]);
    TrimOneDash(Pushed(s[..i]));
    CutAgrees(s);
  }

  /** `slugify` as written: one pass that lower-cases letters and digits, turns whatever lies between
      runs into one dash, and stops at 48. */
  method Slugify(input: string) returns (slug: string)
    ensures slug == Slug(input)
    ensures IsSlug(slug) && 1 <= |slug| <= 48
  {
    var out := "";
    var prevDash := false;
    var i := 0;
    while i < |input|
      invariant i <= |input| && out == Pushed(input[..i]) && |out| < MAX_SLUG
      invariant IsDashed(out)
      invariant out != "" ==> (prevDash <==> out[|out| - 1] == '-')
    {
      var ch := input[i];
      assert input[..i + 1][..i] == input[..i];
      PushedIsDashed(input[..i + 1]);
      if IsAlnum(ch) {
        out := out + [Lower(ch)];
        prevDash := false;
      } else if !prevDash && out != "" {
        out := out + "-";
        prevDash := true;
      }
      i := i + 1;
      if |out| >= MAX_SLUG { break; }
    }
    StoppedEarly(input, i);
    var trimmed := TrimDashes(out);
    slug := if trimmed == "" then "default" else trimmed;
    SlugIsCanonical(input);
  }

  /** Whether or not a trailing dash was pushed, cutting and trimming come to the same. */
  lemma CutAgrees(s: string)
    ensures WithoutTrailingDash(Cut(Pushed(s))) == WithoutTrailingDash(Cut(Dashed(Words(s))))
    ensures Dashed(Words(s)) <= Pushed(s)
  {
    PushedIsWords(s);
  }

  lemma SlugIsCanonical(s: string)
    ensures IsSlug(Slug(s))
  {
    CutAgrees(s);
    PushedIsDashed(s);
    var cut := Cut(Pushed(s));
    assert forall i :: 0 <= i < |cut| ==> cut[i] == Pushed(s)[i];
    assert IsDashed("default");
  }

  lemma {:induction false} DashedIsPushedUnchanged(s: string)
    requires IsDashed(s)
    ensures Pushed(s) == s
    decreases |s|
  {
    if s != "" {
      DashedIsPushedUnchanged(s[..|s| - 1]);
      assert s == s[..|s| - 1] + [s[|s| - 1]];
    }
  }

  /** The fixed points of slugifying are exactly the canonical slugs, so slugifying twice is once. */
  lemma FixedPointsAreTheSlugs(s: string)
    ensures Slug(s) == s <==> IsSlug(s)
    ensures Slug(Slug(s)) == Slug(s)
  {
    SlugIsCanonical(s);
    if IsSlug(s) { SlugKeepsSlug(s); }
    SlugKeepsSlug(Slug(s));
  }

  lemma SlugKeepsSlug(s: string)
    requires IsSlug(s)
    ensures Slug(s) == s
  {
    DashedIsPushedUnchanged(s);
    CutAgrees(s);
  }

  /** Only what fills the first 48 characters of the slug counts: URLs that agree that far share a file. */
  lemma LongNamesCollide(s: string, tail: string)
    requires |Pushed(s)| >= MAX_SLUG
    ensures Slug(s + tail) == Slug(s)
  {
    assert (s + tail)[..|s|] == s;
    PushedGrows(s + tail, |s|);
    CutAgrees(s);
    CutAgrees(s + tail);
    assert Cut(Pushed(s + tail)) == Cut(Pushed(s));
  }

  // ---------------------------------------------------------------- when two names share a slug

  /** As many words, in order, as `room` characters hold with a dash between each two, the last cut short
      where the room ends. */
  function FirstWords(words: seq<string>, room: nat): seq<string>
    decreases |words|
  {
    if words == [] || room == 0 then []
    else if |words[0]| >= room then [words[0][..room]]
    else [words[0]] + FirstWords(words[1..], room - |words[0]| - 1)
  }

  /** The words a slug keeps of a name; `default` if there are none. */
  function Kept(s: string): seq<string> {
    if Words(s) == [] then ["default"] else FirstWords(Words(s), MAX_SLUG)
  }

  predicate IsWord(w: string) {
    w != "" && forall i :: 0 <= i < |w| ==> IsAlnum(w[i]) && Lower(w[i]) == w[i]
  }

  predicate AllWords(words: seq<string>) {
    forall i :: 0 <= i < |words| ==> IsWord(words[i])
  }

  lemma {:induction false} WordsAreWords(s: string)
    ensures AllWords(Words(s))
    decreases |s|
  {
    if s != "" { WordsAreWords(s[..|s| - 1]); }
  }

  lemma {:induction false} DashedFromTheFront(words: seq<string>)
    requires |words| >= 2
    ensures Dashed(words) == words[0] + "-" + Dashed(words[1..])
    decreases |words|
  {
    var n := |words| - 1;
    assert words[1..][..n - 1] == words[1..n] == words[..n][1..];
    if n > 1 {
      DashedFromTheFront(words[..n]);
    } else {
      assert words[..1] == [words[0]] && words[1..] == [words[1]];
    }
  }

  /** Cutting the joined words is joining the first of them, but for a dash left dangling. */
  lemma {:induction false} CutIsFirstWords(words: seq<string>, room: nat)
    requires AllWords(words)
    ensures AllWords(FirstWords(words, room))
    ensures WithoutTrailingDash(Take(Dashed(words), room)) == Dashed(FirstWords(words, room))
    decreases |words|
  {
    if words != [] && room > 0 {
      var w := words[0];
      if |words| == 1 {
        assert words == [w];
        FirstOfOne(w, room);
      } else if |w| >= room {
        DashedFromTheFront(words);
        assert Take(Dashed(words), room) == w[..room];
      } else {
        var left := room - |w| - 1;
        DashedFromTheFront(words);
        assert Take(Dashed(words), room) == w + "-" + Take(Dashed(words[1..]), left);
        CutIsFirstWords(words[1..], left);
        JoinFirst(w, words[1..], left);
      }
    }
  }

  lemma FirstOfOne(w: string, room: nat)
    requires IsWord(w) && room > 0
    ensures FirstWords([w], room) == [Take(w, room)]
  {
    assert FirstWords([w][1..], if room > |w| then room - |w| - 1 else 0) == [];
    assert w[..|w|] == w;
  }

  /** One word in front of words that fit, or of none, with the dash between them. */
  lemma JoinFirst(w: string, rest: seq<string>, left: nat)
    requires IsWord(w) && AllWords(FirstWords(rest, left))
    requires WithoutTrailingDash(Take(Dashed(rest), left)) == Dashed(FirstWords(rest, left))
    ensures WithoutTrailingDash(w + "-" + Take(Dashed(rest), left)) == Dashed([w] + FirstWords(rest, left))
  {
    var kept := FirstWords(rest, left);
    var cut := Take(Dashed(rest), left);
    if kept == [] {
      assert cut == "" || cut == "-";
    } else {
      DashedFromTheFront([w] + kept);
      assert ([w] + kept)[1..] == kept;
    }
  }

  /** After a text that does not end in a letter or digit, a word is one word more. */
  lemma {:induction false} AppendWord(x: string, w: string)
    requires IsWord(w) && (x == "" || !IsAlnum(x[|x| - 1]))
    ensures Words(x + w) == Words(x) + [w]
    decreases |w|
  {
    var n := |w| - 1;
    assert (x + w)[..|x + w| - 1] == x + w[..n];
    assert w == w[..n] + [w[n]];
    if n > 0 {
      AppendWord(x, w[..n]);
    } else {
      assert x + w[..n] == x;
    }
  }

  lemma {:induction false} WordsOfDashed(words: seq<string>)
    requires AllWords(words)
    ensures Words(Dashed(words)) == words
    decreases |words|
  {
    if words != [] {
      var n := |words| - 1;
      if n == 0 {
        AppendWord("", words[0]);
        assert "" + words[0] == words[0];
      } else {
        var x := Dashed(words[..n]);
        WordsOfDashed(words[..n]);
        assert (x + "-")[..|x|] == x;
        AppendWord(x + "-", words[n]);
      }
    }
  }

  /** A slug is the words it keeps, joined, and tells them. */
  lemma SlugTellsKept(s: string)
    ensures Slug(s) == Dashed(Kept(s)) && Words(Slug(s)) == Kept(s)
  {
    WordsAreWords(s);
    if Words(s) == [] {
      assert IsWord("default");
    } else {
      CutIsFirstWords(Words(s), MAX_SLUG);
    }
    WordsOfDashed(Kept(s));
  }

  lemma {:induction false} AllFit(words: seq<string>, room: nat)
    requires AllWords(words) && |Dashed(words)| <= room
    ensures FirstWords(words, room) == words
    decreases |words|
  {
    if |words| == 1 {
      assert words == [words[0]];
      FirstOfOne(words[0], room);
    } else if |words| > 1 {
      DashedFromTheFront(words);
      AllFit(words[1..], room - |words[0]| - 1);
    }
  }

  /** Two names share a slug exactly when they keep the same words: letter case, and what stands between
      and around the words, tell nothing; nor does what the cut leaves no room for. */
  lemma SlugsAgreeExactly(s: string, t: string)
    ensures Slug(s) == Slug(t) <==> Kept(s) == Kept(t)
    ensures Words(s) != [] && |Dashed(Words(s))| <= 48 ==> Kept(s) == Words(s)
    ensures Words(s) == Words(t) ==> Slug(s) == Slug(t)
  {
    SlugTellsKept(s);
    SlugTellsKept(t);
    WordsAreWords(s);
    if Words(s) != [] && |Dashed(Words(s))| <= MAX_SLUG { AllFit(Words(s), MAX_SLUG); }
  }

  /** A name without a letter or digit shares the slug, and so the file, of the name `default`. */
  lemma WordlessIsDefault(s: string, url: string)
    requires forall i :: 0 <= i < |s| ==> !IsAlnum(s[i])
    ensures Slug(s) == Slug("default") == "default"
    ensures FileName(url, s) == FileName(url, "default") && FileName(s, url) == FileName("default", url)
  {
    SeparatorAddsNoWord("", s);
    assert "" + s == s;
    assert IsDashed("default");
    SlugKeepsSlug("default");
    SlugTellsKept(s);
  }

  const CAPITALS := "ABCDEFGHIJKLMNOPQRSTUVWXYZ"
  const SMALL := "abcdefghijklmnopqrstuvwxyz"

  /** The same character, or one letter in two cases. */
  ghost predicate SameLetter(a: char, b: char) {
    a == b || exists k :: 0 <= k < 26 && {a, b} == {CAPITALS[k], SMALL[k]}
  }

  lemma LettersAreLowered(k: nat)
    requires k < 26
    ensures IsAlnum(CAPITALS[k]) && IsAlnum(SMALL[k]) && Lower(CAPITALS[k]) == SMALL[k] == Lower(SMALL[k])
  {
  }

  lemma SameLetterSameWord(a: char, b: char)
    requires SameLetter(a, b)
    ensures (IsAlnum(a) <==> IsAlnum(b)) && (IsAlnum(a) ==> Lower(a) == Lower(b))
  {
    if a != b {
      var k :| 0 <= k < 26 && {a, b} == {CAPITALS[k], SMALL[k]};
      LettersAreLowered(k);
      assert a in {CAPITALS[k], SMALL[k]} && b in {CAPITALS[k], SMALL[k]};
    }
  }

  /** Names that differ only in the case of their letters share a slug. */
  lemma {:induction false} CaseIsLost(s: string, t: string)
    requires |s| == |t| && forall i :: 0 <= i < |s| ==> SameLetter(s[i], t[i])
    ensures Words(s) == Words(t) && Slug(s) == Slug(t)
    decreases |s|
  {
    if s != "" {
      var n := |s| - 1;
      CaseIsLost(s[..n], t[..n]);
      SameLetterSameWord(s[n], t[n]);
      if n > 0 { SameLetterSameWord(s[n - 1], t[n - 1]); }
    }
  }

  /** No letter or digit, and something. */
  predicate IsSeparator(s: string) {
    s != "" && forall i :: 0 <= i < |s| ==> !IsAlnum(s[i])
  }

  lemma {:induction false} SeparatorAddsNoWord(a: string, gap: string)
    requires forall i :: 0 <= i < |gap| ==> !IsAlnum(gap[i])
    ensures Words(a + gap) == Words(a)
    decreases |gap|
  {
    if gap == "" {
      assert a + gap == a;
    } else {
      SeparatorAddsNoWord(a, gap[..|gap| - 1]);
      assert (a + gap)[..|a + gap| - 1] == a + gap[..|gap| - 1];
    }
  }

  lemma {:induction false} SameWordsAround(a: string, gap: string, otherGap: string, b: string)
    requires IsSeparator(gap) && IsSeparator(otherGap)
    ensures Words(a + gap + b) == Words(a + otherGap + b)
    decreases |b|
  {
    if b == "" {
      SeparatorAddsNoWord(a, gap);
      SeparatorAddsNoWord(a, otherGap);
      assert a + gap + b == a + gap && a + otherGap + b == a + otherGap;
    } else {
      var n := |b| - 1;
      SameWordsAround(a, gap, otherGap, b[..n]);
      assert (a + gap + b)[..|a + gap + b| - 1] == a + gap + b[..n];
      assert (a + otherGap + b)[..|a + otherGap + b| - 1] == a + otherGap + b[..n];
    }
  }

  /** `wss://a.b` and `wss://a-b`, for one: deployments that differ only in what separates their words
      share a slug, however short they are. */
  lemma SeparatorsAreLost(a: string, gap: string, otherGap: string, b: string)
    requires IsSeparator(gap) && IsSeparator(otherGap)
    ensures Slug(a + gap + b) == Slug(a + otherGap + b)
  {
    hide Slug;
    SameWordsAround(a, gap, otherGap, b);
    SlugsAgreeExactly(a + gap + b, a + otherGap + b);
  }

  // ---------------------------------------------------------------- file names

  function FileName(url: string, profile: string): string {
    Slug(url) + "-" + Slug(profile) + ".json"
  }

  function Dashes(s: string): nat {
    if s == "" then 0 else Dashes(s[..|s| - 1]) + if s[|s| - 1] == '-' then 1 else 0
  }

  lemma {:induction false} DashesAdd(a: string, b: string)
    ensures Dashes(a + b) == Dashes(a) + Dashes(b)
    decreases |b|
  {
    if b == "" {
      assert a + b == a;
    } else {
      DashesAdd(a, b[..|b| - 1]);
      assert (a + b)[..|a + b| - 1] == a + b[..|b| - 1];
    }
  }

  lemma LongerHasMoreDashes(a: string, b: string, c: string, d: string)
    requires a + "-" + b == c + "-" + d && |b| < |d|
    ensures Dashes(d) > Dashes(b)
  {
    var whole := a + "-" + b;
    var gap := |d| - |b| - 1;
    assert d == whole[|c| + 1..];
    assert d[gap] == whole[|a|] == '-';
    assert d[gap + 1..] == whole[|a| + 1..] == b;
    assert d == d[..gap] + "-" + b;
    DashesAdd(d[..gap] + "-", b);
    DashesAdd(d[..gap], "-");
    assert Dashes("-") == 1;
  }

  /** Some `b` is at the end of `left`, after `a`, and at the front of `c`, before `right`: `a` joined to
      `c`, and `left` joined to `right`, are then both `a-b-right`. */
  ghost predicate Shifted(a: string, left: string, right: string, c: string) {
    exists b :: left == a + "-" + b && c == b + "-" + right
  }

  lemma JoinsAgree(a: string, c: string, left: string, right: string)
    ensures a + "-" + c == left + "-" + right <==>
            (a == left && c == right) || Shifted(a, left, right, c) || Shifted(left, a, c, right)
  {
    if a + "-" + c == left + "-" + right {
      if |c| > |right| {
        ShiftedByTheGap(left, right, a, c);
      } else if |right| > |c| {
        ShiftedByTheGap(a, c, left, right);
      } else {
        var whole := a + "-" + c;
        assert a == whole[..|a|] && left == whole[..|a|];
        assert c == whole[|a| + 1..] && right == whole[|a| + 1..];
      }
    }
    if b :| left == a + "-" + b && c == b + "-" + right { Associates(a, b, right); }
    if b :| a == left + "-" + b && right == b + "-" + c { Associates(left, b, c); }
  }

  lemma ShiftedByTheGap(a: string, b: string, c: string, d: string)
    requires a + "-" + b == c + "-" + d && |b| < |d|
    ensures Shifted(c, a, b, d) && Dashes(d) > Dashes(b)
  {
    LongerHasMoreDashes(a, b, c, d);
    var whole := a + "-" + b;
    var gap := |d| - |b| - 1;
    assert d == whole[|c| + 1..] && c == whole[..|c|] && a == whole[..|a|];
    assert d[gap] == whole[|a|] == '-';
    assert d == d[..gap] + "-" + b;
    assert a == c + "-" + d[..gap];
  }

  lemma Associates(a: string, b: string, c: string)
    ensures a + "-" + (b + "-" + c) == (a + "-" + b) + "-" + c
  {
  }

  /** Two deployments and profiles share a file exactly when they share both slugs, or one slug pair is the
      other with words moved across the joining dash, from the front of a profile slug to the end of a
      deployment slug. Among profiles whose slugs have equally many dashes, above all those with none, the
      name tells both slugs. */
  lemma FileNamesAgreeExactly(url: string, profile: string, otherUrl: string, otherProfile: string)
    ensures FileName(url, profile) == FileName(otherUrl, otherProfile) <==>
            || (Slug(url) == Slug(otherUrl) && Slug(profile) == Slug(otherProfile))
            || Shifted(Slug(url), Slug(otherUrl), Slug(otherProfile), Slug(profile))
            || Shifted(Slug(otherUrl), Slug(url), Slug(profile), Slug(otherProfile))
    ensures Dashes(Slug(profile)) == Dashes(Slug(otherProfile)) ==>
              (FileName(url, profile) == FileName(otherUrl, otherProfile) <==>
               Slug(url) == Slug(otherUrl) && Slug(profile) == Slug(otherProfile))
  {
    var left := Slug(url) + "-" + Slug(profile);
    var right := Slug(otherUrl) + "-" + Slug(otherProfile);
    if FileName(url, profile) == FileName(otherUrl, otherProfile) {
      assert left == FileName(url, profile)[..|FileName(url, profile)| - 5];
      assert right == FileName(otherUrl, otherProfile)[..|FileName(otherUrl, otherProfile)| - 5];
    }
    JoinsAgree(Slug(url), Slug(profile), Slug(otherUrl), Slug(otherProfile));
    ShiftedHasMoreDashes(Slug(url), Slug(otherUrl), Slug(otherProfile), Slug(profile));
    ShiftedHasMoreDashes(Slug(otherUrl), Slug(url), Slug(profile), Slug(otherProfile));
  }

  lemma ShiftedHasMoreDashes(a: string, left: string, right: string, c: string)
    ensures Shifted(a, left, right, c) ==> Dashes(c) > Dashes(right)
  {
    if b :| left == a + "-" + b && c == b + "-" + right {
      Associates(a, b, right);
      LongerHasMoreDashes(left, right, a, c);
    }
  }

  /** Such pairs exist wherever a profile slug has a dash in it: two deployments and two profiles with no
      slug in common over one file. */
  lemma FileNamesCollide(a: string, b: string, c: string)
    requires IsSlug(a) && IsSlug(c) && IsSlug(a + "-" + b) && IsSlug(b + "-" + c)
    ensures FileName(a, b + "-" + c) == FileName(a + "-" + b, c)
    ensures Slug(a) != Slug(a + "-" + b) && Slug(b + "-" + c) != Slug(c)
  {
    SlugKeepsSlug(a);
    SlugKeepsSlug(b + "-" + c);
    SlugKeepsSlug(a + "-" + b);
    SlugKeepsSlug(c);
    Associates(a, b, c);
    assert |a| != |a + "-" + b| && |b + "-" + c| != |c|;
  }

  /** The index of the last dot, or the length where there is none. */
  function LastDot(s: string): (i: nat)
    ensures i <= |s|
  {
    if s == "" then 0
    else if s[|s| - 1] == '.' then |s| - 1
    else
      var i := LastDot(s[..|s| - 1]);
      if i == |s| - 1 then |s| else i
  }

  /** `Path::with_extension("tmp")` on a file name: replace what follows the last dot, unless the dot
      leads the name. */
  function TempName(name: string): string {
    var dot := LastDot(name);
    (if dot == 0 then name else name[..dot]) + ".tmp"
  }

  lemma {:induction false} LastDotOfJoin(stem: string, extension: string)
    requires forall i :: 0 <= i < |extension| ==> extension[i] != '.'
    ensures LastDot(stem + "." + extension) == |stem|
    decreases |extension|
  {
    var name := stem + "." + extension;
    if extension != "" {
      LastDotOfJoin(stem, extension[..|extension| - 1]);
      assert name[..|name| - 1] == stem + "." + extension[..|extension| - 1];
    }
  }

  lemma TempOfCredential(url: string, profile: string)
    ensures TempName(FileName(url, profile)) == Slug(url) + "-" + Slug(profile) + ".tmp"
  {
    var stem := Slug(url) + "-" + Slug(profile);
    SlugIsCanonical(url);
    SlugIsCanonical(profile);
    LastDotOfJoin(stem, "json");
    assert stem + ".json" == stem + "." + "json";
    assert (stem + ".json")[..|stem|] == stem;
  }

  /** No credential's temp file is any credential's file, and two credentials share a temp file only
      by sharing the file: what an atomic save needs of its names. */
  lemma TempIsNeverACredential(url: string, profile: string, otherUrl: string, otherProfile: string)
    ensures TempName(FileName(url, profile)) != FileName(otherUrl, otherProfile)
    ensures TempName(FileName(url, profile)) == TempName(FileName(otherUrl, otherProfile)) <==>
            FileName(url, profile) == FileName(otherUrl, otherProfile)
  {
    TempOfCredential(url, profile);
    TempOfCredential(otherUrl, otherProfile);
    var left := Slug(url) + "-" + Slug(profile);
    var right := Slug(otherUrl) + "-" + Slug(otherProfile);
    assert (left + ".tmp")[|left| + 3] == 'p' && (right + ".json")[|right| + 4] == 'n';
    if left + ".tmp" == right + ".tmp" {
      assert left == (left + ".tmp")[..|left|] && right == (right + ".tmp")[..|right|];
    }
    if left + ".json" == right + ".json" {
      assert left == (left + ".json")[..|left|] && right == (right + ".json")[..|right|];
    }
  }
}
