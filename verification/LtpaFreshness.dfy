/** Every successful reconcile of the LTPA configuration, by a leader or not, leaves a configuration at least as recent
    as the rotations it saw. */
module LtpaFreshness {
  import opened Text
  import opened EncryptionKeys
  import opened LtpaProtocol
  import opened LtpaLaws

  // ----- one whole reconcile -----

  /** The key-related part of the reconcile loop: encryption key, LTPA keys, LTPA configuration. */
  function Full(store: Store, i: Instance, leadsEncryption: bool, env: Environment): (Store, Outcome<()>) {
    var (s0, encryption) := ReconcileKey(store, i.sharing, leadsEncryption, env.now);
    match encryption
    case Success(rotation) => Reconcile(s0, i, env, rotation)
    case Failure => (s0, Failure)
    case Crash => (s0, Crash)
  }

  /** A keyed configuration records the rotation of the encryption key it was made with. */
  ghost predicate KeyedStamped(store: Store) {
    forall suffix :: KeyedConfig(suffix) in store ==> EncryptionKeyLastRotation in store[KeyedConfig(suffix)].data
  }

  /** The keys carry the time of their creation. */
  ghost predicate KeysTimed(store: Store) {
    forall suffix :: LtpaKeys(suffix) in store ==> IsTime(ValueOf(store[LtpaKeys(suffix)], LastRotation))
  }

  ghost predicate Stamped(store: Store) { KeyedStamped(store) && KeysTimed(store) }

  // ----- the stamps survive every step -----

  lemma KeyStepStamped(store: Store, sharing: bool, leader: bool, now: string)
    requires Stamped(store)
    ensures Stamped(ReconcileKey(store, sharing, leader, now).0)
  {
    var after := ReconcileKey(store, sharing, leader, now).0;
    assert forall suffix :: KeyedConfig(suffix) in after <==> KeyedConfig(suffix) in store;
    assert forall suffix :: LtpaKeys(suffix) in after <==> LtpaKeys(suffix) in store;
  }

  lemma KeysStamped(store: Store, i: Instance, env: Environment)
    requires Stamped(store) && IsTime(env.now)
    ensures Stamped(Keys(store, i, env).0)
    ensures Keys(store, i, env).1.Success? ==>
              KeysName(i) in Keys(store, i, env).0 && IsTime(Keys(store, i, env).1.value)
              && Keys(store, i, env).1.value == ValueOf(Keys(store, i, env).0[KeysName(i)], LastRotation)
  {
  }

  lemma PreparedStamped(store: Store, i: Instance, env: Environment)
    requires Stamped(store)
    ensures Stamped(Prepared(store, i, env).0)
  {
    var after := Prepared(store, i, env).0;
    if UsingKeySharing(store, i.sharing) && InternalKeyState(store, true).Success? {
      assert InternalKeyState(store, true).value.key != "" && InternalKeyState(store, true).value.rotation != "";
    }
  }

  lemma CheckedStamped(store: Store, i: Instance, keysRotation: string)
    requires Stamped(store)
    ensures Stamped(Checked(store, i, keysRotation).0)
  {
  }

  lemma ConfigStamped(store: Store, i: Instance, env: Environment, keysRotation: string, keyRelated: string)
    requires Stamped(store)
    ensures Stamped(Config(store, i, env, keysRotation, keyRelated).0)
  {
    PreparedStamped(store, i, env);
    CheckedStamped(Prepared(store, i, env).0, i, keysRotation);
  }

  lemma ReconcileStamped(store: Store, i: Instance, env: Environment, rotation: string)
    requires Stamped(store) && IsTime(env.now)
    ensures Stamped(Reconcile(store, i, env, rotation).0)
  {
    var (s1, keys) := Keys(store, i, env);
    KeysStamped(store, i, env);
    if keys.Success? && MaxTime([rotation, keys.value]).Some? {
      ConfigStamped(s1, i, env, keys.value, FormatInt(MaxTime([rotation, keys.value]).value));
    }
  }

  lemma FullStamped(store: Store, i: Instance, leadsEncryption: bool, env: Environment)
    requires Stamped(store) && IsTime(env.now)
    ensures Stamped(Full(store, i, leadsEncryption, env).0)
  {
    var (s0, encryption) := ReconcileKey(store, i.sharing, leadsEncryption, env.now);
    KeyStepStamped(store, i.sharing, leadsEncryption, env.now);
    if encryption.Success? { ReconcileStamped(s0, i, env, encryption.value); }
  }

  // ----- what a leader's success says -----

  /** The label of the XML Secret, as a time. */
  predicate LabelIs(store: Store, i: Instance, t: int) {
    && LtpaXml(i.configSuffix) in store
    && store[LtpaXml(i.configSuffix)].rotationLabel.Some?
    && Atoi(store[LtpaXml(i.configSuffix)].rotationLabel.value) == Some(t)
  }

  lemma CheckedSuccess(store: Store, i: Instance, keysRotation: string) returns (t: int)
    requires Checked(store, i, keysRotation).1.Success? && IsTime(keysRotation) && KeyedStamped(store)
    ensures LabelIs(Checked(store, i, keysRotation).0, i, t) && t >= TimeOf(keysRotation)
    ensures forall suffix :: LtpaKeys(suffix) in store <==> LtpaKeys(suffix) in Checked(store, i, keysRotation).0
    ensures UsingKeySharing(store, i.sharing) ==>
              ValidInternalKey(store).Success? && ValidInternalKey(store).value.Some?
              && t >= TimeOf(ValueOf(ValidInternalKey(store).value.value, LastRotation))
  {
    var config := Fetch(store, ConfigName(store, i));
    t := ConfigRotation(config).value;
    AtoiInRange(ValueOf(config, LastRotation));
    AtoiInRange(ValueOf(config, EncryptionKeyLastRotation));
    FormatThenAtoi(t);
  }

  lemma PreparedThenChecked(store: Store, i: Instance, env: Environment, keysRotation: string, keyRelated: string) returns (t: int)
    requires i.leadsConfig && Stamped(store) && IsTime(keysRotation) && Config(store, i, env, keysRotation, keyRelated).1.Success?
    ensures var s' := Config(store, i, env, keysRotation, keyRelated).0;
            LabelIs(s', i, t) && t >= TimeOf(keysRotation) && KeysName(i) in s'
    ensures UsingKeySharing(store, i.sharing) && ValidInternalKey(store).Success? && ValidInternalKey(store).value.Some? ==>
              t >= TimeOf(ValueOf(ValidInternalKey(store).value.value, LastRotation))
  {
    var s1 := Prepared(store, i, env).0;
    PreparedStamped(store, i, env);
    PreparedKeeps(store, i, env);
    SameKeysSameState(store, s1, i);
    t := CheckedSuccess(s1, i, keysRotation);
    assert KeysName(i) in s1;
  }

  /** With key sharing in use, the label is the later of the two rotations recorded: that of the keys, and that of the
      valid internal key. */
  lemma CheckedLabel(store: Store, i: Instance, keysRotation: string) returns (t: int)
    requires Checked(store, i, keysRotation).1.Success? && IsTime(keysRotation) && KeyedStamped(store)
    requires UsingKeySharing(store, i.sharing)
    ensures LabelIs(Checked(store, i, keysRotation).0, i, t)
    ensures t == Max(TimeOf(keysRotation), TimeOf(UsedRotation(store)))
  {
    var config := Fetch(store, ConfigName(store, i));
    t := ConfigRotation(config).value;
    AtoiInRange(ValueOf(config, LastRotation));
    AtoiInRange(ValueOf(config, EncryptionKeyLastRotation));
    FormatThenAtoi(t);
  }

  function Max(a: int, b: int): int { if a >= b then a else b }

  /** The rotation of the internal key that is valid, so that passwords are encoded with it. */
  function UsedRotation(store: Store): string {
    match ValidInternalKey(store)
    case Success(Some(key)) => ValueOf(key, LastRotation)
    case _ => ""
  }

  lemma LeaderLabel(store: Store, i: Instance, env: Environment, keysRotation: string, keyRelated: string) returns (t: int)
    requires i.leadsConfig && Stamped(store) && IsTime(keysRotation) && Config(store, i, env, keysRotation, keyRelated).1.Success?
    requires UsingKeySharing(store, i.sharing)
    ensures LabelIs(Config(store, i, env, keysRotation, keyRelated).0, i, t)
    ensures t == Max(TimeOf(keysRotation), TimeOf(UsedRotation(store)))
  {
    var s1 := Prepared(store, i, env).0;
    PreparedStamped(store, i, env);
    PreparedKeeps(store, i, env);
    SameKeysSameState(store, s1, i);
    t := CheckedLabel(s1, i, keysRotation);
  }

  lemma WaitingSuccess(store: Store, i: Instance, env: Environment, keysRotation: string, keyRelated: string) returns (t: int)
    requires !i.leadsConfig && Config(store, i, env, keysRotation, keyRelated).1.Success?
    ensures Config(store, i, env, keysRotation, keyRelated).0 == store
    ensures LabelIs(store, i, t) && Atoi(keyRelated).Some? && t >= Atoi(keyRelated).value && KeysName(i) in store
  {
    t := Atoi(store[LtpaXml(i.configSuffix)].rotationLabel.value).value;
  }

  // ----- the main results -----

  /** The rotations one reconcile sees: of the encryption key and of the LTPA keys. */
  function SeenRotations(store: Store, i: Instance, leadsEncryption: bool, env: Environment): (string, string) {
    var (s0, encryption) := ReconcileKey(store, i.sharing, leadsEncryption, env.now);
    var keys := Keys(s0, i, env).1;
    (if encryption.Success? then encryption.value else "", if keys.Success? then keys.value else "")
  }

  /** With one internal key Secret at most, a successful reconcile ends with a label at least as late as both rotations,
      whoever performs it. */
  lemma SuccessIsCurrent(store: Store, i: Instance, leadsEncryption: bool, env: Environment) returns (t: int)
    requires Stamped(store) && IsTime(env.now)
    requires OneInternalKey(ReconcileKey(store, i.sharing, leadsEncryption, env.now).0)
    requires Full(store, i, leadsEncryption, env).1.Success?
    ensures var (encryption, keys) := SeenRotations(store, i, leadsEncryption, env);
            LabelIs(Full(store, i, leadsEncryption, env).0, i, t) && t >= TimeOf(encryption) && t >= TimeOf(keys)
    ensures KeysName(i) in Full(store, i, leadsEncryption, env).0
  {
    var (s0, encryption) := ReconcileKey(store, i.sharing, leadsEncryption, env.now);
    var (s1, keys) := Keys(s0, i, env);
    KeyStepStamped(store, i.sharing, leadsEncryption, env.now);
    KeysStamped(s0, i, env);
    KeysKeep(s0, i, env);
    SameKeysSameState(s0, s1, i);
    var m := MaxTime([encryption.value, keys.value]).value;
    var kr := FormatInt(m);
    if i.leadsConfig {
      t := PreparedThenChecked(s1, i, env, keys.value, kr);
      if encryption.value != "" {
        ReportedRotation(store, i.sharing, leadsEncryption, env.now);
      } else {
        AtoiInRange("");
      }
    } else {
      t := WaitingSuccess(s1, i, env, keys.value, kr);
      MaxIsLater(encryption.value, keys.value);
    }
  }

  /** Nothing is overlooked: the instance waits for the leader, or the keys are as recent as the encryption key it saw, or the
      internal key in use is. */
  predicate NothingOverlooked(store: Store, i: Instance, leadsEncryption: bool, env: Environment) {
    var s0 := ReconcileKey(store, i.sharing, leadsEncryption, env.now).0;
    var (encryption, keys) := SeenRotations(store, i, leadsEncryption, env);
    !i.leadsConfig || TimeOf(keys) >= TimeOf(encryption) || TimeOf(UsedRotation(s0)) >= TimeOf(encryption)
  }

  lemma ReportedMeansSharing(store: Store, sharing: bool, leader: bool, now: string)
    requires var r := ReconcileKey(store, sharing, leader, now).1; r.Success? && r.value != ""
    ensures UsingKeySharing(ReconcileKey(store, sharing, leader, now).0, sharing)
  {
  }

  /** Whatever internal keys there are: a successful reconcile ends with a label at least as late as both rotations exactly
      when nothing is overlooked. */
  lemma SuccessIsCurrentExactly(store: Store, i: Instance, leadsEncryption: bool, env: Environment) returns (t: int)
    requires Stamped(store) && IsTime(env.now) && Full(store, i, leadsEncryption, env).1.Success?
    ensures LabelIs(Full(store, i, leadsEncryption, env).0, i, t)
    ensures var (encryption, keys) := SeenRotations(store, i, leadsEncryption, env);
            t >= TimeOf(encryption) && t >= TimeOf(keys) <==> NothingOverlooked(store, i, leadsEncryption, env)
  {
    var (s0, encryption) := ReconcileKey(store, i.sharing, leadsEncryption, env.now);
    var (s1, keys) := Keys(s0, i, env);
    KeyStepStamped(store, i.sharing, leadsEncryption, env.now);
    KeysStamped(s0, i, env);
    KeysKeep(s0, i, env);
    SameKeysSameState(s0, s1, i);
    var kr := FormatInt(MaxTime([encryption.value, keys.value]).value);
    AtoiInRange("");
    if !i.leadsConfig {
      t := WaitingSuccess(s1, i, env, keys.value, kr);
      MaxIsLater(encryption.value, keys.value);
    } else if encryption.value == "" {
      t := PreparedThenChecked(s1, i, env, keys.value, kr);
    } else {
      ReportedMeansSharing(store, i.sharing, leadsEncryption, env.now);
      t := LeaderLabel(s1, i, env, keys.value, kr);
    }
  }

  predicate Timed(rotation: string, keys: string) { MaxTime([rotation, keys]).Some? && MaxTime([rotation, keys]).value != -1 }

  /** The maximum, written out and read back, is the later of the two times. */
  lemma MaxIsLater(a: string, b: string)
    requires MaxTime([a, b]).Some? && MaxTime([a, b]).value != -1 && IsTime(b)
    ensures Atoi(FormatInt(MaxTime([a, b]).value)) == Some(MaxTime([a, b]).value)
    ensures MaxTime([a, b]).value == Max(TimeOf(a), TimeOf(b))
  {
    assert [a, b][..1] == [a] && [a][..0] == [];
    AtoiInRange(a);
    AtoiInRange(b);
    AtoiInRange("");
    assert MaxTime([a]).Some? && -1 <= MaxTime([a]).value <= MAX_INT64 && (TimeOf(a) < 0 || TimeOf(a) <= MaxTime([a]).value);
    FormatThenAtoi(MaxTime([a, b]).value);
  }

  /** A leader's success lets every instance through that waits for the same configuration and has seen the same
      rotations. */
  lemma LeaderUnblocks(store: Store, i: Instance, leadsEncryption: bool, env: Environment, j: Instance, env': Environment)
    requires Stamped(store) && IsTime(env.now)
    requires OneInternalKey(ReconcileKey(store, i.sharing, leadsEncryption, env.now).0)
    requires i.leadsConfig && Full(store, i, leadsEncryption, env).1.Success?
    requires !j.leadsConfig && j.keysSuffix == i.keysSuffix && j.configSuffix == i.configSuffix
    ensures var (encryption, keys) := SeenRotations(store, i, leadsEncryption, env);
            var s' := Full(store, i, leadsEncryption, env).0;
            Config(s', j, env', keys, Later(encryption, keys)) == (s', Success(()))
  {
    var t := SuccessIsCurrent(store, i, leadsEncryption, env);
    var (encryption, keys) := SeenRotations(store, i, leadsEncryption, env);
    var (s0, _) := ReconcileKey(store, i.sharing, leadsEncryption, env.now);
    KeyStepStamped(store, i.sharing, leadsEncryption, env.now);
    KeysStamped(s0, i, env);
    MaxIsLater(encryption, keys);
    LabelUnblocks(Full(store, i, leadsEncryption, env).0, i, j, t, encryption, keys);
    WaitsOnly(Full(store, i, leadsEncryption, env).0, j, env', keys, Later(encryption, keys));
  }

  /** A label at least as late as both rotations lets an instance through. */
  lemma LabelUnblocks(s: Store, i: Instance, j: Instance, t: int, encryption: string, keys: string)
    requires LabelIs(s, i, t) && j.configSuffix == i.configSuffix && t >= TimeOf(encryption) && t >= TimeOf(keys)
    requires Timed(encryption, keys) && IsTime(keys)
    ensures Unblocked(s, j, Later(encryption, keys))
  {
    MaxIsLater(encryption, keys);
  }

  lemma WaitsOnly(s: Store, j: Instance, env: Environment, keys: string, keyRelated: string)
    requires !j.leadsConfig && KeysName(j) in s && Unblocked(s, j, keyRelated)
    ensures Config(s, j, env, keys, keyRelated) == (s, Success(()))
  {
  }

  lemma CheckedAgain(store: Store, i: Instance, keysRotation: string)
    requires Checked(store, i, keysRotation).1.Success?
    ensures var s' := Checked(store, i, keysRotation).0;
            && Checked(s', i, keysRotation) == (s', Success(()))
            && ConfigName(store, i) in s' && Fetch(s', ConfigName(store, i)) == Fetch(store, ConfigName(store, i))
            && (forall suffix :: Fetch(s', LtpaKeys(suffix)) == Fetch(store, LtpaKeys(suffix)) &&
                                 (LtpaKeys(suffix) in s' <==> LtpaKeys(suffix) in store))
  {
    var s' := Checked(store, i, keysRotation).0;
    CheckedKeeps(store, i, keysRotation);
    SameKeysSameState(store, s', i);
    assert s'[LtpaXmlMount(i.configSuffix) := Fetch(s', LtpaXmlMount(i.configSuffix))] == s';
    var config := Fetch(store, ConfigName(store, i));
    var t := ConfigRotation(config).value;
    var xml := s'[LtpaXml(i.configSuffix)];
    assert Fetch(s', ConfigName(store, i)) == config;
    assert xml.data[ServerXml := ValueOf(config, Password)] == xml.data && xml.rotationLabel == Some(FormatInt(t));
    assert Published(s', i, Fetch(s', ConfigName(store, i)), t) == s';
  }

  lemma KeysGive(store: Store, i: Instance, env: Environment)
    requires i.leadsConfig && Keys(store, i, env).1.Success?
    ensures var (s1, r) := Keys(store, i, env); KeysName(i) in s1 && ValueOf(s1[KeysName(i)], LastRotation) == r.value
  {}

  /** A leader's success comes from checking the configuration, with the rotation of the keys then stored. */
  lemma SuccessSteps(store: Store, i: Instance, env: Environment, rotation: string) returns (s: Store, keys: string)
    requires i.leadsConfig && Reconcile(store, i, env, rotation).1.Success?
    ensures Reconcile(store, i, env, rotation) == Checked(s, i, keys) && Timed(rotation, keys)
    ensures s == Prepared(Keys(store, i, env).0, i, env).0 && Success(keys) == Keys(store, i, env).1
    ensures KeysName(i) in s && ValueOf(s[KeysName(i)], LastRotation) == keys
  {
    var (s1, r) := Keys(store, i, env);
    keys := r.value;
    s := Prepared(s1, i, env).0;
    KeysGive(store, i, env);
    if ConfigName(s1, i) !in s1 && RawPassword !in Fetch(s1, KeysName(i)).data && i.sharing { DeletedKeysFail(s1, i, env, keys); }
  }

  /** Deleting keys of an old operator leaves no configuration, so the check fails. */
  lemma DeletedKeysFail(store: Store, i: Instance, env: Environment, keys: string)
    requires ConfigName(store, i) !in store && RawPassword !in Fetch(store, KeysName(i)).data && i.sharing
    ensures !Checked(Prepared(store, i, env).0, i, keys).1.Success?
  {
    PreparedKeeps(store, i, env);
    SameKeysSameState(store, Prepared(store, i, env).0, i);
  }

  /** Where the configuration is there, the keys are in step and the check changes nothing, neither does a reconcile. */
  lemma SettledIsStable(s: Store, i: Instance, env: Environment, rotation: string, keys: string)
    requires i.leadsConfig && Checked(s, i, keys) == (s, Success(())) && ConfigName(s, i) in s
    requires KeysName(i) in s && ValueOf(s[KeysName(i)], LastRotation) == keys && Timed(rotation, keys)
    ensures Reconcile(s, i, env, rotation) == (s, Success(()))
  {
  }

  /** After a leader's success the same reconcile succeeds again and changes no Secret. */
  lemma SuccessIsStable(store: Store, i: Instance, env: Environment, env': Environment, rotation: string)
    requires i.leadsConfig && Reconcile(store, i, env, rotation).1.Success?
    ensures var s' := Reconcile(store, i, env, rotation).0;
            Reconcile(s', i, env', rotation) == (s', Success(()))
  {
    var s, keys := SuccessSteps(store, i, env, rotation);
    CheckedAgain(s, i, keys);
    CheckedKeeps(s, i, keys);
    var s' := Checked(s, i, keys).0;
    SameKeysSameState(s, s', i);
    assert Fetch(s', LtpaKeys(i.keysSuffix)) == Fetch(s, LtpaKeys(i.keysSuffix));
    SettledIsStable(s', i, env', rotation, keys);
  }

  // ----- convergence of whole reconciles -----

  lemma MirrorsAgain(store: Store, now: string, s': Store, kind: KeyKind, now': string)
    requires SameKeys(ReconcileKey(store, true, true, now).0, s')
    ensures Mirror(s', kind, now').0 == s' && (Mirror(s', kind, now').1 <==> User(kind) in store)
  {
    var s := ReconcileKey(store, true, true, now).0;
    assert Fetch(s, Internal(kind)) == Fetch(s', Internal(kind)) && (Internal(kind) in s <==> Internal(kind) in s');
    assert Fetch(s, User(kind)) == Fetch(s', User(kind)) && (User(kind) in s <==> User(kind) in s');
    assert User(kind) in s <==> User(kind) in store;
    if User(kind) in s' {
      assert s'[Internal(kind) := s'[Internal(kind)]] == s';
    }
  }

  /** What a reconcile of the key leaves is left as it is by the next one, which reports the same rotation. */
  lemma KeyStepAgain(store: Store, sharing: bool, leader: bool, now: string, s': Store, now': string)
    requires SameKeys(ReconcileKey(store, sharing, leader, now).0, s')
    ensures ReconcileKey(s', sharing, leader, now') == (s', ReconcileKey(store, sharing, leader, now).1)
  {
    var s := ReconcileKey(store, sharing, leader, now).0;
    forall kind ensures Fetch(s, Internal(kind)) == Fetch(s', Internal(kind)) && (Internal(kind) in s <==> Internal(kind) in s') {}
    forall kind ensures Fetch(s, User(kind)) == Fetch(s', User(kind)) && (User(kind) in s <==> User(kind) in s') {}
    if sharing && leader {
      forall kind ensures Mirror(s', kind, now').0 == s' && (Mirror(s', kind, now').1 <==> User(kind) in store) {
        MirrorsAgain(store, now, s', kind, now');
      }
    }
  }

  /** From any state with the required fields one of three successive whole reconciles of a leader succeeds, while users
      leave their encryption keys as they are. */
  lemma FullConvergesInThree(store: Store, i: Instance, leadsEncryption: bool, e1: Environment, e2: Environment, e3: Environment)
    requires var (s0, encryption) := ReconcileKey(store, i.sharing, leadsEncryption, e1.now);
             && encryption.Success? && Usable(s0, i) && Settled(s0, i, e1, encryption.value)
             && Settled(s0, i, e2, encryption.value) && Settled(s0, i, e3, encryption.value)
    ensures var (s1, r1) := Full(store, i, leadsEncryption, e1);
            var (s2, r2) := Full(s1, i, leadsEncryption, e2);
            var (_, r3) := Full(s2, i, leadsEncryption, e3);
            r1.Success? || r2.Success? || r3.Success?
  {
    var (s0, encryption) := ReconcileKey(store, i.sharing, leadsEncryption, e1.now);
    var rotation := encryption.value;
    var (s1, r1) := Reconcile(s0, i, e1, rotation);
    Progress(s0, i, e1, rotation);
    KeyStepAgain(store, i.sharing, leadsEncryption, e1.now, s1, e2.now);
    if !r1.Success? {
      SettledStays(s0, s1, i, e2, rotation);
      var (s2, r2) := Reconcile(s1, i, e2, rotation);
      Progress(s1, i, e2, rotation);
      SameKeysTransitive(s0, s1, s2);
      KeyStepAgain(store, i.sharing, leadsEncryption, e1.now, s2, e3.now);
    }
    ConvergesInThree(s0, i, e1, e2, e3, rotation);
  }

  // ----- runs -----

  /** What happens in a namespace: reconciles by any instance, users editing or deleting their key Secrets, keys left by
      an older operator, and deletions of any Secret. */
  datatype Event =
    | Reconciles(i: Instance, leadsEncryption: bool, env: Environment)
    | UserEdits(kind: KeyKind, secret: Secret)
    | OlderOperator(suffix: string, keys: Secret)
    | Deletes(name: SecretName)

  ghost predicate EventOk(e: Event) {
    match e
    case Reconciles(_, _, env) => IsTime(env.now)
    case OlderOperator(_, keys) => IsTime(ValueOf(keys, LastRotation))
    case _ => true
  }

  function Happens(store: Store, e: Event): Store {
    match e
    case Reconciles(i, leadsEncryption, env) => Full(store, i, leadsEncryption, env).0
    case UserEdits(kind, secret) => store[User(kind) := secret]
    case OlderOperator(suffix, keys) => store[LtpaKeys(suffix) := keys]
    case Deletes(name) => store - {name}
  }

  function History(events: seq<Event>): Store {
    if events == [] then map[] else Happens(History(events[..|events| - 1]), events[|events| - 1])
  }

  lemma {:induction false} HistoryStamped(events: seq<Event>)
    requires forall k :: 0 <= k < |events| ==> EventOk(events[k])
    ensures Stamped(History(events))
  {
    if events != [] {
      var before, e := History(events[..|events| - 1]), events[|events| - 1];
      HistoryStamped(events[..|events| - 1]);
      if e.Reconciles? { FullStamped(before, e.i, e.leadsEncryption, e.env); }
    }
  }

  /** In every history of a namespace that starts empty, every successful reconcile made while at most one internal key
      Secret exists ends with a label at least as late as the rotations it saw. */
  lemma EverySuccessIsCurrent(events: seq<Event>, i: Instance, leadsEncryption: bool, env: Environment) returns (t: int)
    requires (forall k :: 0 <= k < |events| ==> EventOk(events[k])) && IsTime(env.now)
    requires OneInternalKey(ReconcileKey(History(events), i.sharing, leadsEncryption, env.now).0)
    requires Full(History(events), i, leadsEncryption, env).1.Success?
    ensures var (encryption, keys) := SeenRotations(History(events), i, leadsEncryption, env);
            LabelIs(Full(History(events), i, leadsEncryption, env).0, i, t) && t >= TimeOf(encryption) && t >= TimeOf(keys)
  {
    HistoryStamped(events);
    t := SuccessIsCurrent(History(events), i, leadsEncryption, env);
  }

  /** So in every history, whatever internal keys it leads to. */
  lemma EverySuccessExactly(events: seq<Event>, i: Instance, leadsEncryption: bool, env: Environment) returns (t: int)
    requires (forall k :: 0 <= k < |events| ==> EventOk(events[k])) && IsTime(env.now)
    requires Full(History(events), i, leadsEncryption, env).1.Success?
    ensures LabelIs(Full(History(events), i, leadsEncryption, env).0, i, t)
    ensures var (encryption, keys) := SeenRotations(History(events), i, leadsEncryption, env);
            t >= TimeOf(encryption) && t >= TimeOf(keys) <==> NothingOverlooked(History(events), i, leadsEncryption, env)
  {
    HistoryStamped(events);
    t := SuccessIsCurrentExactly(History(events), i, leadsEncryption, env);
  }

  /** Two internal keys: the password key, mirrored, rotated at 9, and an AES key no user Secret stands for, rotated at 5. */
  const TWO_KEYS: Store :=
    map[User(PasswordKind) := Secret(map[KeyField(PasswordKind) := "b"], None),
        Internal(PasswordKind) := Secret(map[KeyField(PasswordKind) := "b", LastRotation := "9"], None),
        Internal(AesKind) := Secret(map[KeyField(AesKind) := "a", LastRotation := "5"], None),
        LtpaKeys("") := Secret(map[RawPassword := "p", LastRotation := "1"], None)]

  /** With two internal key Secrets the label can lag behind: an instance that leads the configuration but not the
      encryption key sees rotation 9 and publishes 5. */
  lemma TwoInternalKeysLag(env: Environment)
    requires env.encode("p", KeyState("a", "5", true)) == Some("x")
    ensures var i := Instance(true, true, true, "", "");
            && Full(TWO_KEYS, i, false, env).1.Success?
            && SeenRotations(TWO_KEYS, i, false, env) == ("9", "1")
            && LabelIs(Full(TWO_KEYS, i, false, env).0, i, 5)
  {
    var i := Instance(true, true, true, "", "");
    SmallTimes();
    assert ReconcileKey(TWO_KEYS, true, false, env.now) == (TWO_KEYS, Success("9"));
    assert Keys(TWO_KEYS, i, env) == (TWO_KEYS, Success("1"));
    var s1 := TwoKeysPrepared(env);
    TwoKeysPublish(s1);
    assert Full(TWO_KEYS, i, false, env) == Checked(s1, i, "1");
  }

  lemma TwoKeysPublish(s1: Store)
    requires s1 == TWO_KEYS[KeyedConfig("") :=
                     Secret(map[EncryptionKeyLastRotation := "5", LastRotation := "1", Password := "x"], None)]
    ensures var i := Instance(true, true, true, "", ""); Checked(s1, i, "1").1.Success? && LabelIs(Checked(s1, i, "1").0, i, 5)
  {
    SmallTimes();
    assert Fetch(s1, KeyedConfig("")).data[LastRotation] == "1";
    assert ValidInternalKey(s1) == Success(Some(s1[Internal(AesKind)]));
  }

  lemma TwoKeysPrepared(env: Environment) returns (s1: Store)
    requires env.encode("p", KeyState("a", "5", true)) == Some("x")
    ensures Prepared(TWO_KEYS, Instance(true, true, true, "", ""), env) == (s1, Success(()))
    ensures s1 == TWO_KEYS[KeyedConfig("") :=
                    Secret(map[EncryptionKeyLastRotation := "5", LastRotation := "1", Password := "x"], None)]
  {
    s1 := Prepared(TWO_KEYS, Instance(true, true, true, "", ""), env).0;
    assert InternalKeyState(TWO_KEYS, true) == Success(KeyState("a", "5", true));
  }

  lemma SmallTimes()
    ensures Atoi("1") == Some(1) && Atoi("5") == Some(5) && Atoi("9") == Some(9)
    ensures FormatInt(5) == "5" && FormatInt(9) == "9"
    ensures MaxTime(["9", "1"]) == Some(9)
  {
    assert Decimal(5) == "5" && Decimal(9) == "9" && Decimal(1) == "1";
    NumeralOfDecimal(1);
    NumeralOfDecimal(5);
    NumeralOfDecimal(9);
    assert ["9", "1"][..1] == ["9"] && ["9"][..0] == [];
    assert MaxTime(["9"]) == Some(9);
  }
}
