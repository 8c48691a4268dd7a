/** When a reconcile of the LTPA Secrets dereferences a missing internal key. */
module LtpaCrash {
  import opened Text
  import opened EncryptionKeys
  import opened LtpaProtocol
  import opened LtpaLaws
  import opened LtpaFreshness

  predicate HasValidKey(store: Store) { ValidInternalKey(store).Success? && ValidInternalKey(store).value.Some? }

  lemma StateCrashesExactly(store: Store, sharing: bool)
    ensures InternalKeyState(store, sharing) == Crash <==> sharing && !HasValidKey(store)
  {
  }

  /** Creating the keys needs the encryption key. */
  predicate MakesKeys(store: Store, i: Instance) { KeysName(i) !in store && i.leadsKeys }

  lemma KeysCrashExactly(store: Store, i: Instance, env: Environment)
    ensures Keys(store, i, env).1 == Crash <==> MakesKeys(store, i) && i.sharing && !HasValidKey(store)
  {
    StateCrashesExactly(store, i.sharing);
  }

  /** So does making a configuration from keys with a raw password. */
  predicate MakesConfig(store: Store, i: Instance) {
    && i.leadsConfig && KeysName(i) in store && RawPassword in store[KeysName(i)].data
    && ConfigName(store, i) !in store
  }

  lemma PreparedCrashesExactly(store: Store, i: Instance, env: Environment)
    requires i.leadsConfig && KeysName(i) in store
    ensures Prepared(store, i, env).1 == Crash <==> MakesConfig(store, i) && i.sharing && !HasValidKey(store)
  {
    StateCrashesExactly(store, i.sharing);
  }

  predicate SomeInternalKey(store: Store) { Internal(AesKind) in store || Internal(PasswordKind) in store }

  /** The check of the configuration finds a nil key only when there is no internal Secret at all. */
  lemma CheckNeverCrashes(store: Store, i: Instance, keysRotation: string)
    requires i.sharing ==> SomeInternalKey(store)
    ensures Checked(store, i, keysRotation).1 != Crash
  {
  }

  lemma ConfigCrashesExactly(store: Store, i: Instance, env: Environment, keysRotation: string, keyRelated: string)
    requires KeysName(i) in store && (i.sharing ==> SomeInternalKey(store))
    ensures Config(store, i, env, keysRotation, keyRelated).1 == Crash <==> MakesConfig(store, i) && i.sharing && !HasValidKey(store)
  {
    if i.leadsConfig {
      var s1 := Prepared(store, i, env).0;
      PreparedCrashesExactly(store, i, env);
      PreparedKeeps(store, i, env);
      KeysStayThere(store, s1);
      CheckNeverCrashes(s1, i, keysRotation);
    }
  }

  lemma KeysStayThere(s: Store, s': Store)
    requires SameKeys(s, s')
    ensures SomeInternalKey(s) == SomeInternalKey(s') && HasValidKey(s) == HasValidKey(s')
  {
    assert Internal(AesKind) in s <==> Internal(AesKind) in s';
    assert Internal(PasswordKind) in s <==> Internal(PasswordKind) in s';
    assert Fetch(s, Internal(AesKind)) == Fetch(s', Internal(AesKind));
    assert Fetch(s, Internal(PasswordKind)) == Fetch(s', Internal(PasswordKind));
  }

  /** The rotations have a time, so that the reconcile goes on to the configuration. */
  predicate GoesOn(store: Store, i: Instance, rotation: string) {
    KeysName(i) in store && Timed(rotation, ValueOf(store[KeysName(i)], LastRotation))
  }

  lemma ReconcileCrashesExactly(store: Store, i: Instance, env: Environment, rotation: string)
    requires i.sharing ==> SomeInternalKey(store)
    ensures Reconcile(store, i, env, rotation).1 == Crash
            <==> i.sharing && !HasValidKey(store) && (MakesKeys(store, i) || (GoesOn(store, i, rotation) && MakesConfig(store, i)))
  {
    var (s1, keys) := Keys(store, i, env);
    KeysCrashExactly(store, i, env);
    if KeysName(i) in store {
      if GoesOn(store, i, rotation) {
        ConfigCrashesExactly(store, i, env, keys.value, FormatInt(MaxTime([rotation, keys.value]).value));
      }
    } else if keys.Success? {
      AfterNewKeys(store, i, env, rotation);
    }
  }

  /** Keys that were just made had a valid internal key, so nothing crashes later on. */
  lemma AfterNewKeys(store: Store, i: Instance, env: Environment, rotation: string)
    requires (i.sharing ==> SomeInternalKey(store)) && KeysName(i) !in store && Keys(store, i, env).1.Success?
    ensures Reconcile(store, i, env, rotation).1 != Crash && (i.sharing ==> HasValidKey(store))
  {
    var (s1, keys) := Keys(store, i, env);
    StateCrashesExactly(store, i.sharing);
    KeysKeep(store, i, env);
    KeysStayThere(store, s1);
    if Timed(rotation, keys.value) {
      ConfigCrashesExactly(s1, i, env, keys.value, FormatInt(MaxTime([rotation, keys.value]).value));
    }
  }

  /** A rotation is reported only where there is an internal Secret, valid or not. */
  lemma ReportMeansInternal(store: Store, leader: bool, now: string)
    requires ReconcileKey(store, true, leader, now).1.Success?
    ensures SomeInternalKey(ReconcileKey(store, true, leader, now).0)
  {
  }

  /** A whole reconcile crashes exactly when key sharing is enabled, an internal key Secret is there but none is valid, and
      this instance is to make the keys, or to make the configuration from keys with a raw password. */
  lemma CrashesExactly(store: Store, i: Instance, leadsEncryption: bool, env: Environment)
    ensures var (s0, encryption) := ReconcileKey(store, i.sharing, leadsEncryption, env.now);
            Full(store, i, leadsEncryption, env).1 == Crash
            <==> i.sharing && encryption.Success? && !HasValidKey(s0)
                 && (MakesKeys(s0, i) || (GoesOn(s0, i, encryption.value) && MakesConfig(s0, i)))
  {
    var (s0, encryption) := ReconcileKey(store, i.sharing, leadsEncryption, env.now);
    if encryption.Success? {
      if i.sharing { ReportMeansInternal(store, leadsEncryption, env.now); }
      ReconcileCrashesExactly(s0, i, env, encryption.value);
    }
  }

  /** Internal keys carry a rotation, as mirroring leaves them. */
  predicate KeysDated(store: Store) {
    forall kind :: Internal(kind) in store && ValueOf(store[Internal(kind)], KeyField(kind)) != "" ==>
      ValueOf(store[Internal(kind)], LastRotation) != ""
  }

  predicate SomeUserKey(store: Store) { User(AesKind) in store || User(PasswordKind) in store }

  /** No Secret of a user holds a key. */
  predicate UserKeysEmpty(store: Store) {
    forall kind :: User(kind) in store ==> ValueOf(store[User(kind)], KeyField(kind)) == ""
  }

  lemma MirroredKind(store: Store, kind: KeyKind, now: string)
    requires KeysDated(store) && now != ""
    ensures var s := Mirror(store, kind, now).0;
            && KeysDated(s) && (Internal(kind) in s <==> User(kind) in store)
            && (User(kind) in store ==> (KeyData(s[Internal(kind)], kind).Some? <==> ValueOf(store[User(kind)], KeyField(kind)) != ""))
            && (forall name :: name != Internal(kind) ==> (name in s <==> name in store) && Fetch(s, name) == Fetch(store, name))
  {
  }

  /** For the leader of the encryption key that is the case exactly when users provide Secrets and none holds a key. */
  lemma InvalidExactly(store: Store, now: string)
    requires KeysDated(store) && now != ""
    ensures var (s0, encryption) := ReconcileKey(store, true, true, now);
            encryption.Success? && !HasValidKey(s0) <==> SomeUserKey(store) && UserKeysEmpty(store)
  {
    var (s1, _) := Mirror(store, PasswordKind, now);
    var (s2, _) := Mirror(s1, AesKind, now);
    MirroredKind(store, PasswordKind, now);
    MirroredKind(s1, AesKind, now);
    assert Fetch(s2, Internal(PasswordKind)) == Fetch(s1, Internal(PasswordKind));
    assert Fetch(s1, User(AesKind)) == Fetch(store, User(AesKind));
    BothKindsEmpty(store);
  }

  lemma BothKindsEmpty(store: Store)
    ensures UserKeysEmpty(store)
            <==> (User(AesKind) in store ==> ValueOf(store[User(AesKind)], KeyField(AesKind)) == "")
                 && (User(PasswordKind) in store ==> ValueOf(store[User(PasswordKind)], KeyField(PasswordKind)) == "")
  {
    if (User(AesKind) in store ==> ValueOf(store[User(AesKind)], KeyField(AesKind)) == "")
       && (User(PasswordKind) in store ==> ValueOf(store[User(PasswordKind)], KeyField(PasswordKind)) == "") {
      forall kind | User(kind) in store ensures ValueOf(store[User(kind)], KeyField(kind)) == "" {
        match kind
        case AesKind =>
        case PasswordKind =>
      }
    }
  }

  lemma KeyStepDated(store: Store, sharing: bool, leader: bool, now: string)
    requires KeysDated(store) && now != ""
    ensures KeysDated(ReconcileKey(store, sharing, leader, now).0)
  {
    var s1 := Mirror(store, PasswordKind, now).0;
    MirroredKind(store, PasswordKind, now);
    MirroredKind(s1, AesKind, now);
  }

  lemma ReconcileKeeps(store: Store, i: Instance, env: Environment, rotation: string)
    ensures SameKeys(store, Reconcile(store, i, env, rotation).0)
  {
    var (s1, keys) := Keys(store, i, env);
    KeysKeep(store, i, env);
    if keys.Success? && Timed(rotation, keys.value) {
      var kr := FormatInt(MaxTime([rotation, keys.value]).value);
      ConfigKeeps(s1, i, env, keys.value, kr);
      SameKeysTransitive(store, s1, Config(s1, i, env, keys.value, kr).0);
    }
  }

  lemma SameKeysDated(s: Store, s': Store)
    requires SameKeys(s, s') && KeysDated(s)
    ensures KeysDated(s')
  {
    forall kind | Internal(kind) in s' ensures Internal(kind) in s && s'[Internal(kind)] == s[Internal(kind)] {
      assert Fetch(s, Internal(kind)) == Fetch(s', Internal(kind));
    }
  }

  lemma FullDated(store: Store, i: Instance, leadsEncryption: bool, env: Environment)
    requires KeysDated(store) && env.now != ""
    ensures KeysDated(Full(store, i, leadsEncryption, env).0)
  {
    var (s0, encryption) := ReconcileKey(store, i.sharing, leadsEncryption, env.now);
    KeyStepDated(store, i.sharing, leadsEncryption, env.now);
    if encryption.Success? {
      ReconcileKeeps(s0, i, env, encryption.value);
      SameKeysDated(s0, Reconcile(s0, i, env, encryption.value).0);
    }
  }

  lemma {:induction false} HistoryDated(events: seq<Event>)
    requires forall k :: 0 <= k < |events| ==> EventOk(events[k])
    ensures KeysDated(History(events))
  {
    if events != [] {
      var before, e := History(events[..|events| - 1]), events[|events| - 1];
      HistoryDated(events[..|events| - 1]);
      if e.Reconciles? {
        AtoiInRange("");
        FullDated(before, e.i, e.leadsEncryption, e.env);
      }
    }
  }

  /** In every history, a reconcile of an instance that leads the encryption key and the LTPA keys, which are missing,
      crashes exactly when users provide encryption key Secrets and none of them holds a key. */
  lemma LeaderCrashesExactly(events: seq<Event>, i: Instance, env: Environment)
    requires (forall k :: 0 <= k < |events| ==> EventOk(events[k])) && IsTime(env.now)
    requires i.sharing && MakesKeys(History(events), i)
    ensures var s := History(events); Full(s, i, true, env).1 == Crash <==> SomeUserKey(s) && UserKeysEmpty(s)
  {
    var s := History(events);
    HistoryDated(events);
    AtoiInRange("");
    InvalidExactly(s, env.now);
    CrashesExactly(s, i, true, env);
    assert MakesKeys(ReconcileKey(s, true, true, env.now).0, i);
  }

  /** A user's Secret without its key field crashes the leader that is to make the LTPA keys. */
  lemma EmptyUserKeyCrashes(i: Instance, env: Environment)
    requires i.sharing && i.leadsKeys && env.now != ""
    ensures Full(map[User(PasswordKind) := EMPTY_SECRET], i, true, env).1 == Crash
  {
    var store: Store := map[User(PasswordKind) := EMPTY_SECRET];
    InvalidExactly(store, env.now);
    CrashesExactly(store, i, true, env);
  }
}
