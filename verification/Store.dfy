/** The credential file as a reader sees it, and how `load` classifies what it finds
    (src/runtime/store.rs). How bytes get there is the business of module `AtomicSave`. */
module Store {
  import opened Wrappers

  const CREDENTIAL_VERSION: nat := 2

  /** Permission bits: 0o600, and the divisor that leaves the group and other bits (0o077). */
  const PRIVATE_MODE: nat := 384
  const GROUP_AND_OTHER: nat := 64

  /** `details` stands for the system, program, scopes and owner fields no code here looks into. */
  datatype Credential = Credential(version: nat, secret: string, details: string)

  /** File contents after the JSON parser: a credential, or bytes that do not parse as one. */
  datatype Content = Parses(credential: Credential) | Garbage

  /** What stands at the credential path. `Unreadable` exists but cannot be read. */
  datatype Disk = Absent | Unreadable | File(mode: nat, content: Content)

  datatype StoreError = Permissive(mode: nat) | UnknownVersion(found: nat) | Corrupt | Io

  datatype CredentialStoreError = Refused | Unusable

  predicate Exposed(mode: nat) {
    mode % GROUP_AND_OTHER != 0
  }

  function Read(d: Disk): Result<Option<Credential>, StoreError> {
    match d
    case Absent => Ok(None)
    case Unreadable => Err(Io)
    case File(mode, content) =>
      if Exposed(mode) then Err(Permissive(mode))
      else match content
        case Garbage => Err(Corrupt)
        case Parses(c) =>
          if c.version != CREDENTIAL_VERSION then Err(UnknownVersion(c.version)) else Ok(Some(c))
  }

  function Shade(e: StoreError): CredentialStoreError {
    match e
    case Permissive(_) => Refused
    case UnknownVersion(_) | Corrupt | Io => Unusable
  }

  function Load(d: Disk): Result<Option<Credential>, CredentialStoreError> {
    match Read(d)
    case Ok(found) => Ok(found)
    case Err(e) => Err(Shade(e))
  }

  predicate IsDiscardable(e: CredentialStoreError) {
    e == Unusable
  }

  /** The file a completed save leaves. */
  function SavedFile(c: Credential): Disk {
    File(PRIVATE_MODE, Parses(c))
  }

  /** The secret the bytes on disk carry, whatever the mode says about using it. */
  function SecretOn(d: Disk): Option<string> {
    if d.File? && d.content.Parses? then Some(d.content.credential.secret) else None
  }

  /** A mode from its three permission digits, as in 0640. */
  function Mode(owner: nat, group: nat, other: nat): nat
    requires owner < 8 && group < 8 && other < 8
  {
    64 * owner + 8 * group + other
  }

  /** Exactly one kind of file is refused rather than discarded: a readable one that its group or others
      may do anything with. Its contents make no difference, so an exposed corrupt file is not thrown away
      either. A private one is loaded if it parses and is of version 2, and can be thrown away if not. */
  lemma LoadByDigits(owner: nat, group: nat, other: nat, content: Content)
    requires owner < 8 && group < 8 && other < 8
    ensures var loaded := Load(File(Mode(owner, group, other), content));
            && (loaded == Err(Refused) <==> group != 0 || other != 0)
            && (loaded.Err? && IsDiscardable(loaded.error) <==>
                  group == 0 && other == 0 && (content.Garbage? || content.credential.version != 2))
            && (forall c :: loaded == Ok(Some(c)) <==> group == 0 && other == 0 && content == Parses(c) && c.version == 2)
  {
    assert Mode(owner, group, other) % 64 == 8 * group + other;
  }

  /** The same over whatever stands at the path. */
  lemma RefusedExactlyWhenExposed(d: Disk)
    ensures Load(d) == Err(Refused) <==> d.File? && (d.mode / 8 % 8 != 0 || d.mode % 8 != 0)
    ensures Load(d).Err? && IsDiscardable(Load(d).error) <==>
            d.Unreadable? ||
            (d.File? && d.mode / 8 % 8 == 0 && d.mode % 8 == 0 &&
             (d.content.Garbage? || d.content.credential.version != 2))
    ensures Load(d) == Ok(None) <==> d.Absent?
  {
  }

  /** A saved file may be read and written by its owner and by nobody else, and loads as what was saved. */
  lemma SavedFileIsPrivate(c: Credential)
    ensures SavedFile(c).mode == Mode(4 + 2, 0, 0)
    ensures c.version == 2 ==> Load(SavedFile(c)) == Ok(Some(c))
  {
    LoadByDigits(6, 0, 0, Parses(c));
  }
}
