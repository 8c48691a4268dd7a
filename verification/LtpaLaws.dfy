/** Convergence and freshness of the shared LTPA configuration. */
module LtpaLaws {
  import opened Text
  import opened EncryptionKeys
  import opened LtpaProtocol

  // ----- times -----

  /** A rotation stamp: a numeral that is not negative. */
  predicate IsTime(s: string) {
    match Atoi(s)
    case Some(t) => t >= 0
    case None => false
  }

  /** The time of a rotation, 0 when there is none. */
  function TimeOf(s: string): int { if Atoi(s).Some? then Atoi(s).value else 0 }

  lemma AtoiInRange(s: string)
    ensures Atoi(s).Some? ==> Atoi(s).value <= MAX_INT64
    ensures Atoi("") == None
  {
  }

  lemma FormatThenAtoi(t: int)
    requires 0 <= t <= MAX_INT64
    ensures Atoi(FormatInt(t)) == Some(t)
  {
    NumeralOfDecimal(t);
  }

  lemma MaxOfTwo(a: string, b: string)
    requires (a == "" || IsTime(a)) && IsTime(b)
    ensures MaxTime([a, b]) == Some(if TimeOf(b) > TimeOf(a) then TimeOf(b) else TimeOf(a))
    ensures 0 <= MaxTime([a, b]).value <= MAX_INT64
  {
    assert [a, b][..1] == [a] && [a][..0] == [];
    AtoiInRange(a);
    AtoiInRange(b);
    assert MaxTime([a]) == Some(TimeOf(a));
  }

  /** GetMaxTime of the two key rotations. */
  function Later(encryptionRotation: string, keysRotation: string): string {
    match MaxTime([encryptionRotation, keysRotation])
    case Some(m) => FormatInt(m)
    case None => ""
  }

  // ----- what reconciling leaves alone -----

  predicate SameKeys(s: Store, s': Store) {
    forall k :: Fetch(s, User(k)) == Fetch(s', User(k)) && Fetch(s, Internal(k)) == Fetch(s', Internal(k)) &&
                (User(k) in s <==> User(k) in s') && (Internal(k) in s <==> Internal(k) in s')
  }

  lemma SameKeysSameState(s: Store, s': Store, i: Instance)
    requires SameKeys(s, s')
    ensures InternalKeyState(s, i.sharing) == InternalKeyState(s', i.sharing)
    ensures ValidInternalKey(s) == ValidInternalKey(s')
    ensures ConfigName(s, i) == ConfigName(s', i) && UsingKeySharing(s, i.sharing) == UsingKeySharing(s', i.sharing)
  {
    assert Fetch(s, Internal(AesKind)) == Fetch(s', Internal(AesKind));
    assert Fetch(s, Internal(PasswordKind)) == Fetch(s', Internal(PasswordKind));
    assert User(AesKind) in s <==> User(AesKind) in s';
    assert User(PasswordKind) in s <==> User(PasswordKind) in s';
  }

  lemma KeysKeep(store: Store, i: Instance, env: Environment)
    ensures SameKeys(store, Keys(store, i, env).0)
  {
  }

  lemma PreparedKeeps(store: Store, i: Instance, env: Environment)
    ensures SameKeys(store, Prepared(store, i, env).0)
  {
  }

  lemma CheckedKeeps(store: Store, i: Instance, keysRotation: string)
    ensures SameKeys(store, Checked(store, i, keysRotation).0)
  {
  }

  lemma SameKeysTransitive(a: Store, b: Store, c: Store)
    requires SameKeys(a, b) && SameKeys(b, c)
    ensures SameKeys(a, c)
  {
  }

  lemma ConfigKeeps(store: Store, i: Instance, env: Environment, keysRotation: string, keyRelated: string)
    ensures SameKeys(store, Config(store, i, env, keysRotation, keyRelated).0)
  {
    var s1 := Prepared(store, i, env).0;
    PreparedKeeps(store, i, env);
    CheckedKeeps(s1, i, keysRotation);
    SameKeysTransitive(store, s1, Checked(s1, i, keysRotation).0);
  }

  // ----- convergence of an instance that leads keys and configuration -----

  /** The settings of a run without further rotations: both leaderships, a valid internal key when sharing is enabled,
      and tools that succeed. */
  ghost predicate Settled(store: Store, i: Instance, env: Environment, rotation: string) {
    && i.leadsKeys && i.leadsConfig
    && (i.sharing ==> InternalKeyState(store, true).Success? && IsTime(InternalKeyState(store, true).value.rotation))
    && IsTime(env.now) && (rotation == "" || IsTime(rotation))
    && (forall p, k :: env.createKeys(p, k).Some?) && (forall p, k :: env.encode(p, k).Some?)
  }

  /** The fields an LTPA Secret needs, of any operator version, and a configuration whose stamps are numerals. */
  predicate Usable(store: Store, i: Instance) {
    && (KeysName(i) in store ==>
          var keys := store[KeysName(i)];
          LastRotation in keys.data && IsTime(keys.data[LastRotation]) && (RawPassword in keys.data || Password in keys.data))
    && (ConfigName(store, i) in store ==>
          var config := store[ConfigName(store, i)];
          EncryptionKeyLastRotation in config.data ==> IsTime(config.data[EncryptionKeyLastRotation]))
  }

  predicate LegacyKeys(store: Store, i: Instance) {
    KeysName(i) in store && RawPassword !in store[KeysName(i)].data
  }

  lemma KeysStep(store: Store, i: Instance, env: Environment, rotation: string)
    requires Settled(store, i, env, rotation) && Usable(store, i)
    ensures var (s1, r) := Keys(store, i, env);
            && r.Success? && IsTime(r.value) && Usable(s1, i) && SameKeys(store, s1)
            && KeysName(i) in s1 && ValueOf(s1[KeysName(i)], LastRotation) == r.value
            && (LegacyKeys(s1, i) <==> LegacyKeys(store, i))
            && (ConfigName(s1, i) in s1 <==> ConfigName(store, i) in store)
    ensures Reconcile(store, i, env, rotation) ==
            var (s1, r) := Keys(store, i, env);
            Config(s1, i, env, r.value, Later(rotation, r.value))
  {
    var (s1, r) := Keys(store, i, env);
    KeysKeep(store, i, env);
    SameKeysSameState(store, s1, i);
    MaxOfTwo(rotation, r.value);
  }

  lemma FreshlyMade(store: Store, i: Instance, env: Environment, rotation: string, keysRotation: string)
    requires Settled(store, i, env, rotation) && Usable(store, i) && KeysName(i) in store
    requires ConfigName(store, i) !in store && !(LegacyKeys(store, i) && i.sharing)
    requires ValueOf(store[KeysName(i)], LastRotation) == keysRotation && IsTime(keysRotation)
    ensures forall kr :: Config(store, i, env, keysRotation, kr).1.Success?
  {
    var (s1, r) := Prepared(store, i, env);
    assert r.Success? && ConfigName(store, i) in s1 && s1[ConfigName(store, i)].data[LastRotation] == keysRotation;
    assert SameKeys(store, s1);
    SameKeysSameState(store, s1, i);
  }

  lemma LegacyDeleted(store: Store, i: Instance, env: Environment, keysRotation: string, keyRelated: string)
    requires i.leadsConfig && i.sharing && LegacyKeys(store, i) && ConfigName(store, i) !in store
    ensures var (s', r) := Config(store, i, env, keysRotation, keyRelated);
            r == Failure && s' == store - {KeysName(i)}
  {
    var s1 := store - {KeysName(i)};
    assert SameKeys(store, s1);
    SameKeysSameState(store, s1, i);
    assert s1 - {ConfigName(s1, i)} == s1;
  }

  lemma StaleDeleted(store: Store, i: Instance, env: Environment, rotation: string, keysRotation: string, keyRelated: string)
    requires Settled(store, i, env, rotation) && Usable(store, i) && KeysName(i) in store && ConfigName(store, i) in store
    requires IsTime(keysRotation)
    ensures var (s', r) := Config(store, i, env, keysRotation, keyRelated);
            r.Success? || (r == Failure && s' == store - {ConfigName(store, i)})
  {
  }

  /** What one reconcile brings about: success, or one more obstacle deleted. */
  ghost predicate Advances(store: Store, s': Store, r: Outcome<()>, i: Instance) {
    || r.Success?
    || (r == Failure && Usable(s', i) && ConfigName(s', i) !in s' &&
        (ConfigName(store, i) in store || (LegacyKeys(store, i) && i.sharing && KeysName(i) !in s')))
  }

  lemma ConfigAdvances(store: Store, i: Instance, env: Environment, rotation: string, keysRotation: string, keyRelated: string)
    requires Settled(store, i, env, rotation) && Usable(store, i) && KeysName(i) in store
    requires ValueOf(store[KeysName(i)], LastRotation) == keysRotation && IsTime(keysRotation)
    ensures var (s', r) := Config(store, i, env, keysRotation, keyRelated); Advances(store, s', r, i)
  {
    ConfigKeeps(store, i, env, keysRotation, keyRelated);
    SameKeysSameState(store, Config(store, i, env, keysRotation, keyRelated).0, i);
    if ConfigName(store, i) in store {
      StaleDeleted(store, i, env, rotation, keysRotation, keyRelated);
    } else if LegacyKeys(store, i) && i.sharing {
      LegacyDeleted(store, i, env, keysRotation, keyRelated);
    } else {
      FreshlyMade(store, i, env, rotation, keysRotation);
    }
  }

  /** A reconcile that does not succeed deletes a stale configuration or, once that is gone, keys of an old operator;
      nothing else can fail. */
  lemma Progress(store: Store, i: Instance, env: Environment, rotation: string)
    requires Settled(store, i, env, rotation) && Usable(store, i)
    ensures var (s', r) := Reconcile(store, i, env, rotation); SameKeys(store, s') && Advances(store, s', r, i)
  {
    var (s1, keys) := Keys(store, i, env);
    var kr := Later(rotation, keys.value);
    KeysStep(store, i, env, rotation);
    SettledStays(store, s1, i, env, rotation);
    ConfigAdvances(s1, i, env, rotation, keys.value, kr);
    ConfigKeeps(s1, i, env, keys.value, kr);
    SameKeysTransitive(store, s1, Config(s1, i, env, keys.value, kr).0);
  }

  lemma SettledStays(store: Store, s': Store, i: Instance, env: Environment, rotation: string)
    requires Settled(store, i, env, rotation) && SameKeys(store, s')
    ensures Settled(s', i, env, rotation)
  {
    SameKeysSameState(store, s', i);
  }

  /** From any state with the required fields one of three successive reconciles succeeds. */
  lemma ConvergesInThree(store: Store, i: Instance, e1: Environment, e2: Environment, e3: Environment, rotation: string)
    requires Usable(store, i)
    requires Settled(store, i, e1, rotation) && Settled(store, i, e2, rotation) && Settled(store, i, e3, rotation)
    ensures var (s1, r1) := Reconcile(store, i, e1, rotation);
            var (s2, r2) := Reconcile(s1, i, e2, rotation);
            var (s3, r3) := Reconcile(s2, i, e3, rotation);
            r1.Success? || r2.Success? || r3.Success?
  {
    var (s1, r1) := Reconcile(store, i, e1, rotation);
    Progress(store, i, e1, rotation);
    if !r1.Success? {
      SettledStays(store, s1, i, e2, rotation);
      SettledStays(store, s1, i, e3, rotation);
      var (s2, r2) := Reconcile(s1, i, e2, rotation);
      Progress(s1, i, e2, rotation);
      if !r2.Success? {
        SettledStays(s1, s2, i, e3, rotation);
        Progress(s2, i, e3, rotation);
      }
    }
  }

  /** Three are needed: a stale configuration next to keys of an old operator, with key sharing enabled, fails twice. */
  lemma TwoAreNotEnough(store: Store, i: Instance, e1: Environment, e2: Environment, rotation: string)
    requires Usable(store, i) && Settled(store, i, e1, rotation) && Settled(store, i, e2, rotation)
    requires i.sharing && LegacyKeys(store, i) && ConfigName(store, i) in store
    requires ValueOf(store[ConfigName(store, i)], LastRotation) != ValueOf(store[KeysName(i)], LastRotation)
    ensures var (s1, r1) := Reconcile(store, i, e1, rotation);
            var (s2, r2) := Reconcile(s1, i, e2, rotation);
            !r1.Success? && !r2.Success?
  {
    KeysStep(store, i, e1, rotation);
    var (s1, r1) := Reconcile(store, i, e1, rotation);
    Progress(store, i, e1, rotation);
    assert s1 == store - {ConfigName(store, i)};
    SameKeysSameState(store, s1, i);
    SettledStays(store, s1, i, e2, rotation);
    KeysStep(s1, i, e2, rotation);
    LegacyDeleted(s1, i, e2, Keys(s1, i, e2).1.value, Later(rotation, Keys(s1, i, e2).1.value));
  }
}
