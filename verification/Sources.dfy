/** The two credential sources an operator mounts (src/runtime/credentials.rs): how the text they
    hold becomes a bearer or one of the three error shades. */
module Sources {
  import opened Wrappers

  datatype CredentialsError = NeedsOperator | Fatal | Unavailable

  /** What reading a mounted credential file comes back with. */
  datatype FileRead = Contents(text: string) | NotFound | PermissionDenied | OtherFailure

  const CREDENTIAL_PREFIX: string := "zc_"

  /** The code points with Unicode property White_Space, which is what trimming removes. */
  predicate IsSpace(c: char) {
    var n := c as int;
    || 0x9 <= n <= 0xD || n == 0x20 || n == 0x85 || n == 0xA0 || n == 0x1680
    || 0x2000 <= n <= 0x200A || n == 0x2028 || n == 0x2029 || n == 0x202F || n == 0x205F || n == 0x3000
  }

  predicate AllSpace(s: string) {
    forall i :: 0 <= i < |s| ==> IsSpace(s[i])
  }

  function TrimStart(s: string): string {
    if s != [] && IsSpace(s[0]) then TrimStart(s[1..]) else s
  }

  function TrimEnd(s: string): string {
    if s != [] && IsSpace(s[|s| - 1]) then TrimEnd(s[..|s| - 1]) else s
  }

  function Trim(s: string): string {
    TrimEnd(TrimStart(s))
  }

  function ValidateCredential(raw: string): Result<string, CredentialsError> {
    var secret := Trim(raw);
    if secret == [] then Err(NeedsOperator)
    else if !(CREDENTIAL_PREFIX <= secret) then Err(Fatal)
    else Ok(secret)
  }

  function TokenFileBearer(read: FileRead): Result<string, CredentialsError> {
    match read
    case Contents(text) => ValidateCredential(text)
    case NotFound => Err(Unavailable)
    case PermissionDenied => Err(NeedsOperator)
    case OtherFailure => Err(Unavailable)
  }

  lemma {:induction false} TrimStartSplits(s: string) returns (front: string)
    ensures s == front + TrimStart(s) && AllSpace(front)
    ensures TrimStart(s) != [] ==> !IsSpace(TrimStart(s)[0])
    decreases |s|
  {
    if s != [] && IsSpace(s[0]) {
      var rest := TrimStartSplits(s[1..]);
      front := [s[0]] + rest;
      assert s == [s[0]] + s[1..];
    } else {
      front := [];
    }
  }

  lemma {:induction false} TrimEndSplits(s: string) returns (back: string)
    ensures s == TrimEnd(s) + back && AllSpace(back)
    ensures TrimEnd(s) != [] ==> !IsSpace(TrimEnd(s)[|TrimEnd(s)| - 1])
    decreases |s|
  {
    if s != [] && IsSpace(s[|s| - 1]) {
      var rest := TrimEndSplits(s[..|s| - 1]);
      back := rest + [s[|s| - 1]];
      assert s == s[..|s| - 1] + [s[|s| - 1]];
    } else {
      back := [];
    }
  }

  /** `s` is `raw` with all the space around it gone and none of anything else. */
  ghost predicate IsCore(raw: string, front: string, s: string, back: string) {
    && raw == front + s + back
    && AllSpace(front) && AllSpace(back)
    && (s != [] ==> !IsSpace(s[0]) && !IsSpace(s[|s| - 1]))
  }

  /** A credential is accepted exactly as its text between surrounding space, only with the prefix;
      text that is nothing but space is the operator's problem, and a wrong prefix is fatal. */
  lemma ValidateMeaning(raw: string) returns (front: string, back: string)
    ensures IsCore(raw, front, Trim(raw), back)
    ensures ValidateCredential(raw).Ok? ==>
              ValidateCredential(raw).value == Trim(raw) && "zc_" <= Trim(raw)
    ensures ValidateCredential(raw) == Err(NeedsOperator) <==> AllSpace(raw)
    ensures ValidateCredential(raw) == Err(Fatal) <==> !AllSpace(raw) && !("zc_" <= Trim(raw))
  {
    front := TrimStartSplits(raw);
    back := TrimEndSplits(TrimStart(raw));
    var s := Trim(raw);
    assert raw == front + s + back;
    if s != [] {
      assert TrimStart(raw)[0] == s[0];
      assert raw[|front|] == s[0];
    }
  }

  lemma {:induction false} TrimStartSkips(front: string, s: string)
    requires AllSpace(front)
    ensures TrimStart(front + s) == TrimStart(s)
    decreases |front|
  {
    if front == "" {
      assert front + s == s;
    } else {
      assert (front + s)[1..] == front[1..] + s;
      TrimStartSkips(front[1..], s);
    }
  }

  lemma {:induction false} TrimEndSkips(s: string, back: string)
    requires AllSpace(back)
    ensures TrimEnd(s + back) == TrimEnd(s)
    decreases |back|
  {
    if back == "" {
      assert s + back == s;
    } else {
      assert (s + back)[..|s + back| - 1] == s + back[..|back| - 1];
      TrimEndSkips(s, back[..|back| - 1]);
    }
  }

  lemma {:induction false} TrimStartStops(s: string, back: string)
    ensures TrimStart(s) != "" ==> TrimStart(s + back) == TrimStart(s) + back
    ensures TrimStart(s) == "" ==> AllSpace(s)
    decreases |s|
  {
    if s != "" && IsSpace(s[0]) {
      assert (s + back)[1..] == s[1..] + back;
      TrimStartStops(s[1..], back);
    }
  }

  /** The blanks an editor or a shell leaves around a line. */
  predicate Blank(s: string) {
    forall i :: 0 <= i < |s| ==> s[i] == ' ' || s[i] == '\t' || s[i] == '\n' || s[i] == '\r'
  }

  /** A credential may be mounted with line ends and blanks around it: they make no difference. What can be
      seen is no blank, so nothing else is trimmed of ASCII text. */
  lemma BlanksAroundAreNothing(front: string, s: string, back: string)
    requires Blank(front) && Blank(back)
    ensures ValidateCredential(front + s + back) == ValidateCredential(s)
    ensures forall c: char :: '!' <= c <= '~' ==> !IsSpace(c)
  {
    assert front + s + back == front + (s + back);
    TrimStartSkips(front, s + back);
    TrimStartStops(s, back);
    if TrimStart(s) == "" {
      TrimStartSkips(s, back);
      TrimStartSkips(back, "");
      assert back + "" == back;
    } else {
      TrimEndSkips(TrimStart(s), back);
    }
  }
}
