/** The Secrets of a namespace, and the mirroring of encryption keys into internal Secrets
    (internal/controller/password_encryption_key_sharing.go). */
module EncryptionKeys {
  import opened Text

  /** The Secrets the protocol works on; suffixes come from the resource metadata. */
  datatype SecretName =
    | LtpaKeys(suffix: string)
    | PlainConfig(suffix: string)
    | KeyedConfig(suffix: string)
    | LtpaXml(suffix: string)
    | LtpaXmlMount(suffix: string)
    | User(kind: KeyKind)
    | Internal(kind: KeyKind)

  /** The two kinds of encryption keys a user can provide. */
  datatype KeyKind = PasswordKind | AesKind

  datatype DataField =
    | LastRotation
    | EncryptionKeyLastRotation
    | RawPassword
    | Password
    | KeysFile
    | ServerXml
    | KeyField(kind: KeyKind)

  datatype Secret = Secret(data: map<DataField, string>, rotationLabel: Option<string>)

  type Store = map<SecretName, Secret>

  const EMPTY_SECRET: Secret := Secret(map[], None)

  /** The value of a field, empty when it is missing. */
  function ValueOf(s: Secret, f: DataField): string { if f in s.data then s.data[f] else "" }

  /** getSecret: a Secret without data when it does not exist. */
  function Fetch(store: Store, name: SecretName): Secret { if name in store then store[name] else EMPTY_SECRET }

  /** Success, an error that ends the reconcile, or a nil dereference. */
  datatype Outcome<+T> = Success(value: T) | Failure | Crash

  // ----- the internal encryption key -----

  /** getEncryptionKeyData: key and rotation, when both are there. */
  function KeyData(s: Secret, kind: KeyKind): Option<(string, string)> {
    var key, rotation := ValueOf(s, KeyField(kind)), ValueOf(s, LastRotation);
    if key == "" || rotation == "" then None else Some((key, rotation))
  }

  /** getValidInternalEncryptionKey while key sharing is enabled: Success(None) when there is no internal key. */
  function ValidInternalKey(store: Store): Outcome<Option<Secret>> {
    var aes, password := Internal(AesKind), Internal(PasswordKind);
    if aes in store && KeyData(store[aes], AesKind).Some? then Success(Some(store[aes]))
    else if password in store && KeyData(store[password], PasswordKind).Some? then Success(Some(store[password]))
    else if aes in store || password in store then Failure
    else Success(None)
  }

  datatype KeyState = KeyState(key: string, rotation: string, usingAes: bool)

  const NO_KEY: KeyState := KeyState("", "", false)

  /** getInternalEncryptionKeyState. Without a valid internal key it reads the data of a nil Secret. The AES field is
      looked up whenever the internal AES Secret exists, even if the password Secret was the valid one. */
  function InternalKeyState(store: Store, sharing: bool): Outcome<KeyState> {
    if !sharing then Success(NO_KEY)
    else
      match ValidInternalKey(store)
      case Success(Some(secret)) =>
        var usingAes := Internal(AesKind) in store;
        (match KeyData(secret, if usingAes then AesKind else PasswordKind)
         case Some(k) => Success(KeyState(k.0, k.1, usingAes))
         case None => Failure)
      case _ => Crash
  }

  /** isUsingPasswordEncryptionKeySharing. */
  predicate UsingKeySharing(store: Store, sharing: bool) {
    sharing && (User(PasswordKind) in store || User(AesKind) in store)
  }

  // ----- mirroring -----

  /** The internal Secret after mirroring the user's Secret into it. */
  function MirroredSecret(user: Secret, internal: Secret, kind: KeyKind, now: string): Secret {
    if ValueOf(internal, KeyField(kind)) != ValueOf(user, KeyField(kind))
    then internal.(data := internal.data[KeyField(kind) := ValueOf(user, KeyField(kind))][LastRotation := now])
    else internal
  }

  /** mirrorEncryptionKeySecretState: the Secrets afterwards, and whether it succeeded. */
  function Mirror(store: Store, kind: KeyKind, now: string): (Store, bool) {
    if User(kind) !in store then (store - {Internal(kind)}, false)
    else (store[Internal(kind) := MirroredSecret(store[User(kind)], Fetch(store, Internal(kind)), kind, now)], true)
  }

  predicate IsMirrored(store: Store, kind: KeyKind) {
    && User(kind) in store && Internal(kind) in store
    && ValueOf(store[User(kind)], KeyField(kind)) != ""
    && ValueOf(store[Internal(kind)], KeyField(kind)) == ValueOf(store[User(kind)], KeyField(kind))
  }

  /** reconcileAESEncryptionKey and reconcilePasswordEncryptionKey: the key's rotation. A Secret whose key is missing
      or empty counts as success without a rotation, because the error returned there is nil. */
  function ReconcileKind(store: Store, kind: KeyKind, leader: bool): Outcome<string> {
    if Internal(kind) !in store then Failure
    else if ValueOf(store[Internal(kind)], KeyField(kind)) == "" then Success("")
    else if !leader && !IsMirrored(store, kind) then Failure
    else Success(ValueOf(store[Internal(kind)], LastRotation))
  }

  /** reconcileEncryptionKey: the Secrets afterwards and the rotation of the key in use. */
  function ReconcileKey(store: Store, sharing: bool, leader: bool, now: string): (Store, Outcome<string>) {
    if !sharing then (store, Success(""))
    else if leader then
      var (s1, passwordFound) := Mirror(store, PasswordKind, now);
      var (s2, aesFound) := Mirror(s1, AesKind, now);
      if aesFound then (s2, ReconcileKind(s2, AesKind, true))
      else if passwordFound then (s2, ReconcileKind(s2, PasswordKind, true))
      else (s2, Failure)
    else
      (store, if ReconcileKind(store, AesKind, false).Success? then ReconcileKind(store, AesKind, false)
              else ReconcileKind(store, PasswordKind, false))
  }

  /** The Secrets of one namespace, updated in place. */
  class Namespace {
    var secrets: Store

    constructor (store: Store)
      ensures secrets == store
    {
      secrets := store;
    }

    method CreateOrUpdate(name: SecretName, secret: Secret)
      modifies this
      ensures secrets == old(secrets)[name := secret]
    {
      secrets := secrets[name := secret];
    }

    method DeleteResource(name: SecretName)
      modifies this
      ensures secrets == old(secrets) - {name}
    {
      secrets := secrets - {name};
    }

    method MirrorEncryptionKeySecretState(kind: KeyKind, now: string) returns (ok: bool)
      modifies this
      ensures (secrets, ok) == Mirror(old(secrets), kind, now)
    {
      if User(kind) !in secrets {
        if Internal(kind) in secrets {
          DeleteResource(Internal(kind));
        } else {
          assert secrets - {Internal(kind)} == secrets;
        }
        return false;
      }
      var user, internal := secrets[User(kind)], Fetch(secrets, Internal(kind));
      var internalKey, userKey := ValueOf(internal, KeyField(kind)), ValueOf(user, KeyField(kind));
      if internalKey != userKey {
        internal := internal.(data := internal.data[KeyField(kind) := userKey]);
        internal := internal.(data := internal.data[LastRotation := now]);
      }
      CreateOrUpdate(Internal(kind), internal);
      ok := true;
    }

    method ReconcileEncryptionKey(sharing: bool, thisInstanceIsLeader: bool, now: string) returns (r: Outcome<string>)
      modifies this
      ensures (secrets, r) == ReconcileKey(old(secrets), sharing, thisInstanceIsLeader, now)
    {
      if !sharing { return Success(""); }
      if thisInstanceIsLeader {
        var passwordOk := MirrorEncryptionKeySecretState(PasswordKind, now);
        var aesOk := MirrorEncryptionKeySecretState(AesKind, now);
        if !passwordOk {
          if !aesOk { return Failure; }
          return ReconcileKind(secrets, AesKind, thisInstanceIsLeader);
        }
        if aesOk { return ReconcileKind(secrets, AesKind, thisInstanceIsLeader); }
        return ReconcileKind(secrets, PasswordKind, thisInstanceIsLeader);
      }
      r := ReconcileKind(secrets, AesKind, thisInstanceIsLeader);
      if !r.Success? {
        r := ReconcileKind(secrets, PasswordKind, thisInstanceIsLeader);
      }
    }
  }

  // ----- what mirroring guarantees -----

  /** After a successful mirroring the internal key equals the user's key; its rotation moves exactly when the key
      changes; the other Secrets stay as they are; mirroring again changes nothing. */
  lemma MirrorFacts(store: Store, kind: KeyKind, now: string, later: string)
    requires User(kind) in store
    ensures var (after, ok) := Mirror(store, kind, now);
            && ok && Internal(kind) in after
            && ValueOf(after[Internal(kind)], KeyField(kind)) == ValueOf(store[User(kind)], KeyField(kind))
            && (IsMirrored(after, kind) <==> ValueOf(store[User(kind)], KeyField(kind)) != "")
            && ValueOf(after[Internal(kind)], LastRotation) ==
               (if ValueOf(Fetch(store, Internal(kind)), KeyField(kind)) == ValueOf(store[User(kind)], KeyField(kind))
                then ValueOf(Fetch(store, Internal(kind)), LastRotation) else now)
            && (forall name :: name != Internal(kind) ==> (name in after <==> name in store) && Fetch(after, name) == Fetch(store, name))
            && Mirror(after, kind, later) == (after, true)
  {
    var after := Mirror(store, kind, now).0;
    assert Mirror(after, kind, later).0 == after;
  }

  /** At most one internal key Secret exists. */
  predicate OneInternalKey(store: Store) {
    !(Internal(AesKind) in store && Internal(PasswordKind) in store)
  }

  /** A rotation that reconciling the key reports, leader or not, is the rotation of the one valid internal key, and
      the user's Secret of that kind exists. */
  lemma ReportedRotation(store: Store, sharing: bool, leader: bool, now: string)
    requires var (after, r) := ReconcileKey(store, sharing, leader, now); OneInternalKey(after) && r.Success? && r.value != ""
    ensures var (after, r) := ReconcileKey(store, sharing, leader, now);
            && UsingKeySharing(after, sharing)
            && ValidInternalKey(after).Success? && ValidInternalKey(after).value.Some?
            && ValueOf(ValidInternalKey(after).value.value, LastRotation) == r.value
  {
    var (after, r) := ReconcileKey(store, sharing, leader, now);
    var kind := if Internal(AesKind) in after then AesKind else PasswordKind;
    assert KeyData(after[Internal(kind)], kind).Some?;
  }

  // ----- what a reconcile of the key reports -----

  /** The leader succeeds exactly when users provide some key. It reports the rotation of the AES key where there is one, and
      of the password key otherwise; of an empty key it reports none. */
  lemma LeaderReports(store: Store, now: string)
    ensures var (s, r) := ReconcileKey(store, true, true, now); var kind := if User(AesKind) in store then AesKind else PasswordKind;
            && (r.Success? <==> User(kind) in store) && (!r.Success? ==> r == Failure)
            && (User(kind) in store ==>
                  Internal(kind) in s && r.value == if ValueOf(store[User(kind)], KeyField(kind)) == "" then ""
                                                    else ValueOf(s[Internal(kind)], LastRotation))
            && (forall k :: Internal(k) in s <==> User(k) in store)
            && (forall name: SecretName :: !name.Internal? ==> (name in s <==> name in store) && Fetch(s, name) == Fetch(store, name))
  {
    var s1 := Mirror(store, PasswordKind, now).0;
    if User(PasswordKind) in store { MirrorFacts(store, PasswordKind, now, now); }
    if User(AesKind) in s1 { MirrorFacts(s1, AesKind, now, now); }
    var s := ReconcileKey(store, true, true, now).0;
    forall k ensures Internal(k) in s <==> User(k) in store {
      match k
      case AesKind =>
      case PasswordKind =>
    }
  }

  /** Who does not lead changes nothing, and reports a rotation only of an internal key that is the user's: that of the AES key
      where it can be reported, otherwise that of the password key. */
  lemma FollowerReports(store: Store, now: string)
    ensures var (s, r) := ReconcileKey(store, true, false, now);
            && s == store && r != Crash
            && (r.Success? && r.value != "" ==>
                  exists kind :: IsMirrored(store, kind) && r.value == ValueOf(store[Internal(kind)], LastRotation)
                                 && (kind == PasswordKind ==> !IsMirrored(store, AesKind)))
            && (IsMirrored(store, AesKind) ==> r == Success(ValueOf(store[Internal(AesKind)], LastRotation)))
            && (Internal(AesKind) !in store && IsMirrored(store, PasswordKind)
                ==> r == Success(ValueOf(store[Internal(PasswordKind)], LastRotation)))
            && (Internal(AesKind) !in store && Internal(PasswordKind) !in store ==> r == Failure)
  {
    if ReconcileKind(store, AesKind, false).Success? && ReconcileKind(store, AesKind, false).value != "" {
      assert IsMirrored(store, AesKind);
    } else if ReconcileKind(store, PasswordKind, false).Success? && ReconcileKind(store, PasswordKind, false).value != "" {
      assert IsMirrored(store, PasswordKind);
    }
  }

  /** Without key sharing nothing happens and no rotation is reported. */
  lemma UnsharedReports(store: Store, leader: bool, now: string)
    ensures ReconcileKey(store, false, leader, now) == (store, Success(""))
  {
  }

  /** Where both internal keys are valid the AES key is in use; a key without its data is never in use. */
  lemma KeyInUse(store: Store)
    ensures forall kind :: Internal(kind) in store && KeyData(store[Internal(kind)], kind).Some? && (kind == AesKind || Internal(AesKind) !in store) ==>
              ValidInternalKey(store) == Success(Some(store[Internal(kind)]))
    ensures ValidInternalKey(store).Success? && ValidInternalKey(store).value.Some? ==>
              exists kind :: Internal(kind) in store && ValidInternalKey(store).value.value == store[Internal(kind)]
                             && KeyData(store[Internal(kind)], kind).Some?
  {
  }
}
