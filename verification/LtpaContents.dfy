/** What the shared LTPA Secrets hold: the keys file, the password it was made with, and the encoded password that the
    Liberty servers receive. */
module LtpaContents {
  import opened Text
  import opened EncryptionKeys
  import opened LtpaProtocol
  import opened LtpaLaws
  import opened LtpaFreshness

  // ----- the keys -----

  /** The Secret holds a file made with its own raw password and the encryption key, its time, and the time of the key. */
  predicate MadeWith(keys: Secret, env: Environment, k: KeyState) {
    && RawPassword in keys.data && env.createKeys(keys.data[RawPassword], k) == Some(ValueOf(keys, KeysFile))
    && keys.data[RawPassword] == env.password && ValueOf(keys, LastRotation) == env.now
    && (k.key != "" && k.rotation != "" ==> ValueOf(keys, EncryptionKeyLastRotation) == k.rotation)
    && (k.key == "" || k.rotation == "" ==> EncryptionKeyLastRotation !in keys.data)
  }

  /** Keys that exist are never touched. Missing keys are created by the leader of the keys alone, with the internal key in
      force, and only if the tool gives a file; whoever needs them otherwise fails and changes nothing. */
  lemma KeysExactly(store: Store, i: Instance, env: Environment)
    ensures var (s', r) := Keys(store, i, env);
            && (forall name :: name != KeysName(i) ==> (name in s' <==> name in store) && Fetch(s', name) == Fetch(store, name))
            && (KeysName(i) in store ==> s' == store && r == Success(ValueOf(store[KeysName(i)], LastRotation)))
            && (KeysName(i) !in store ==>
                  (r.Success? <==> i.leadsKeys && InternalKeyState(store, i.sharing).Success?
                                   && env.createKeys(env.password, InternalKeyState(store, i.sharing).value).Some?)
                  && (r.Success? ==> KeysName(i) in s' && r.value == env.now
                                     && MadeWith(s'[KeysName(i)], env, InternalKeyState(store, i.sharing).value))
                  && (!r.Success? ==> s' == store))
  {
  }

  // ----- the configuration -----

  /** The configuration holds the encoding of the raw password of the keys, for the encryption key in force. */
  predicate EncodedFrom(config: Secret, keys: Secret, env: Environment, k: KeyState) {
    && RawPassword in keys.data && env.encode(keys.data[RawPassword], k) == Some(ValueOf(config, Password))
    && ValueOf(config, LastRotation) == ValueOf(keys, LastRotation)
    && (k.key != "" && k.rotation != "" ==> ValueOf(config, EncryptionKeyLastRotation) == k.rotation)
    && (k.key == "" || k.rotation == "" ==> EncryptionKeyLastRotation !in config.data)
  }

  /** What a configuration holds after the branch for a missing one: that of before; the encoded password; or, from keys of an
      old operator, their own password. */
  lemma ConfigExactly(store: Store, i: Instance, env: Environment)
    requires KeysName(i) in store && ConfigName(store, i) in Prepared(store, i, env).0
    ensures var s' := Prepared(store, i, env).0; var name := ConfigName(store, i); var keys := store[KeysName(i)];
            && KeysName(i) in s' && s'[KeysName(i)] == keys
            && (name in store ==> s' == store)
            && (name !in store && RawPassword in keys.data ==>
                  InternalKeyState(store, i.sharing).Success?
                  && EncodedFrom(s'[name], keys, env, InternalKeyState(store, i.sharing).value))
            && (name !in store && RawPassword !in keys.data ==>
                  !i.sharing && Password in keys.data && ValueOf(s'[name], Password) == keys.data[Password]
                  && ValueOf(s'[name], LastRotation) == ValueOf(keys, LastRotation))
  {
  }

  // ----- what the servers receive -----

  /** The mounted XML carries the password of the configuration, with the later of its rotations as the label. */
  predicate Publishes(store: Store, i: Instance, config: Secret) {
    && LtpaXml(i.configSuffix) in store && LtpaXmlMount(i.configSuffix) in store
    && ServerXml in store[LtpaXml(i.configSuffix)].data
    && store[LtpaXml(i.configSuffix)].data[ServerXml] == ValueOf(config, Password)
    && ConfigRotation(config).Some?
    && store[LtpaXml(i.configSuffix)].rotationLabel == Some(FormatInt(ConfigRotation(config).value))
  }

  lemma CheckedPublishes(store: Store, i: Instance, keysRotation: string)
    requires Checked(store, i, keysRotation).1.Success?
    ensures var s' := Checked(store, i, keysRotation).0; var config := Fetch(store, ConfigName(store, i));
            && Publishes(s', i, config) && Fetch(s', ConfigName(store, i)) == config
            && (ConfigName(store, i) in s' <==> ConfigName(store, i) in store)
            && LastRotation in config.data && config.data[LastRotation] == keysRotation
            && (forall suffix :: Fetch(s', LtpaKeys(suffix)) == Fetch(store, LtpaKeys(suffix)))
  {
  }

  /** After a leader's success the servers receive the password of the configuration in force, which was made at the time of
      the keys in force. */
  lemma SuccessPublishes(store: Store, i: Instance, env: Environment, rotation: string)
    requires i.leadsConfig && Reconcile(store, i, env, rotation).1.Success?
    ensures var s' := Reconcile(store, i, env, rotation).0; var name := ConfigName(s', i);
            && name in s' && Publishes(s', i, s'[name])
            && KeysName(i) in s' && ValueOf(s'[name], LastRotation) == ValueOf(s'[KeysName(i)], LastRotation)
  {
    var s, keys := SuccessSteps(store, i, env, rotation);
    CheckedPublishes(s, i, keys);
    CheckedAgain(s, i, keys);
    CheckedKeeps(s, i, keys);
    SameKeysSameState(s, Checked(s, i, keys).0, i);
    assert Fetch(Checked(s, i, keys).0, KeysName(i)) == Fetch(s, KeysName(i));
  }

  /** What a leader's success makes the servers receive: the password of the configuration that was there; from keys with a
      raw password, what the encoder gives for it and the encryption key; from keys of an old operator, their own password. */
  lemma SuccessServes(store: Store, i: Instance, env: Environment, rotation: string)
    requires i.leadsConfig && Reconcile(store, i, env, rotation).1.Success?
    ensures var s' := Reconcile(store, i, env, rotation).0; var name := ConfigName(store, i); var xml := LtpaXml(i.configSuffix);
            KeysName(i) in s' && xml in s' &&
            var keys, served := s'[KeysName(i)], ValueOf(s'[xml], ServerXml);
            && (KeysName(i) in store ==> keys == store[KeysName(i)])
            && (name in store ==> served == ValueOf(store[name], Password))
            && (name !in store && RawPassword in keys.data ==>
                  InternalKeyState(store, i.sharing).Success?
                  && env.encode(keys.data[RawPassword], InternalKeyState(store, i.sharing).value) == Some(served))
            && (name !in store && RawPassword !in keys.data ==> !i.sharing && served == ValueOf(keys, Password))
  {
    var s, keys := SuccessSteps(store, i, env, rotation);
    var s1 := Keys(store, i, env).0;
    KeysExactly(store, i, env);
    KeysKeep(store, i, env);
    SameKeysSameState(store, s1, i);
    assert Fetch(s1, ConfigName(store, i)) == Fetch(store, ConfigName(store, i));
    CheckedPublishes(s, i, keys);
    CheckedAgain(s, i, keys);
    PreparedKeeps(s1, i, env);
    SameKeysSameState(s1, s, i);
    assert ConfigName(s, i) in s;
    ConfigExactly(s1, i, env);
    assert Fetch(Checked(s, i, keys).0, KeysName(i)) == Fetch(s, KeysName(i));
  }

  /** Starting without keys and without a configuration, the servers receive the encoding of the very password the keys file
      was made with, both for the same encryption key. */
  lemma FirstSuccess(store: Store, i: Instance, env: Environment, rotation: string)
    requires i.leadsConfig && Reconcile(store, i, env, rotation).1.Success?
    requires KeysName(i) !in store && ConfigName(store, i) !in store
    ensures var s' := Reconcile(store, i, env, rotation).0; var state := InternalKeyState(store, i.sharing);
            && state.Success? && KeysName(i) in s' && MadeWith(s'[KeysName(i)], env, state.value) && LtpaXml(i.configSuffix) in s'
            && env.encode(s'[KeysName(i)].data[RawPassword], state.value) == Some(ValueOf(s'[LtpaXml(i.configSuffix)], ServerXml))
  {
    var s, keys := SuccessSteps(store, i, env, rotation);
    KeysExactly(store, i, env);
    SuccessServes(store, i, env, rotation);
    SuccessKeepsKeys(store, i, env, rotation);
  }

  /** The keys that a success ends with are those of its first step. */
  lemma SuccessKeepsKeys(store: Store, i: Instance, env: Environment, rotation: string)
    requires i.leadsConfig && Reconcile(store, i, env, rotation).1.Success?
    ensures var s1 := Keys(store, i, env).0; var s' := Reconcile(store, i, env, rotation).0;
            KeysName(i) in s1 && KeysName(i) in s' && s'[KeysName(i)] == s1[KeysName(i)]
  {
    var s, keys := SuccessSteps(store, i, env, rotation);
    CheckedAgain(s, i, keys);
    assert KeysName(i) in s && Fetch(Checked(s, i, keys).0, LtpaKeys(i.keysSuffix)) == Fetch(s, LtpaKeys(i.keysSuffix));
    KeysGive(store, i, env);
  }

  lemma FullPublishes(store: Store, i: Instance, leadsEncryption: bool, env: Environment)
    requires i.leadsConfig && Full(store, i, leadsEncryption, env).1.Success?
    ensures var s' := Full(store, i, leadsEncryption, env).0; var name := ConfigName(s', i);
            && name in s' && Publishes(s', i, s'[name])
            && KeysName(i) in s' && ValueOf(s'[name], LastRotation) == ValueOf(s'[KeysName(i)], LastRotation)
  {
    var (s0, encryption) := ReconcileKey(store, i.sharing, leadsEncryption, env.now);
    SuccessPublishes(s0, i, env, encryption.value);
  }

  // ----- which configuration, and when it is in step -----

  /** The configuration is the keyed one exactly when sharing is enabled and a user provides an encryption key. */
  lemma KeyedExactly(store: Store, i: Instance)
    ensures ConfigName(store, i) == KeyedConfig(i.configSuffix) <==> i.sharing && exists kind :: User(kind) in store
    ensures ConfigName(store, i) != KeyedConfig(i.configSuffix) ==> ConfigName(store, i) == PlainConfig(i.configSuffix)
  {
    if kind :| User(kind) in store {
      match kind
      case AesKind =>
      case PasswordKind =>
    }
  }

  /** Made from the keys in force and, where an encryption key is in use, with that key, unless it does not say. */
  predicate InStepWith(store: Store, i: Instance, config: Secret, keysRotation: string) {
    && LastRotation in config.data && config.data[LastRotation] == keysRotation
    && (UsingKeySharing(store, i.sharing) && EncryptionKeyLastRotation in config.data ==>
          ValidInternalKey(store).Success? && ValidInternalKey(store).value.Some?
          && config.data[EncryptionKeyLastRotation] == ValueOf(ValidInternalKey(store).value.value, LastRotation))
  }

  /** Where the encryption key can be read, the check succeeds exactly for a configuration that is in step and whose times are
      numbers; one that is out of step is deleted, and nothing else is. */
  lemma CheckedExactly(store: Store, i: Instance, keysRotation: string)
    requires UsingKeySharing(store, i.sharing) ==> ValidInternalKey(store).Success? && ValidInternalKey(store).value.Some?
    ensures var (s', r) := Checked(store, i, keysRotation); var name := ConfigName(store, i); var config := Fetch(store, name);
            && (r.Success? <==> InStepWith(store, i, config, keysRotation) && ConfigRotation(config).Some?)
            && (!InStepWith(store, i, config, keysRotation) ==> s' == store - {name} && r == Failure)
            && (InStepWith(store, i, config, keysRotation) ==>
                  forall n: SecretName :: n != LtpaXml(i.configSuffix) && n != LtpaXmlMount(i.configSuffix) ==>
                    (n in s' <==> n in store) && Fetch(s', n) == Fetch(store, n))
  {
  }

  /** Who does not lead the configuration changes nothing, and succeeds exactly when the published label is at least as late as
      the rotations it has seen. */
  lemma FollowerWaits(store: Store, i: Instance, env: Environment, keys: string, seen: string)
    requires !i.leadsConfig && KeysName(i) in store
    ensures Config(store, i, env, keys, seen).0 == store
    ensures Config(store, i, env, keys, seen).1 == Success(()) <==>
            exists t :: LabelIs(store, i, t) && Atoi(seen).Some? && t >= Atoi(seen).value
  {
    if Unblocked(store, i, seen) { assert LabelIs(store, i, Atoi(store[LtpaXml(i.configSuffix)].rotationLabel.value).value); }
  }
}
