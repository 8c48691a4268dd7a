/** A history that leads to two internal key Secrets and then to a published rotation behind one that was seen. */
module LtpaLag {
  import opened Text
  import opened EncryptionKeys
  import opened LtpaProtocol
  import opened LtpaLaws
  import opened LtpaFreshness

  // One instance leads the encryption key and the LTPA keys, another one the configuration.

  const KEY_LEADER: Instance := Instance(true, true, false, "", "")
  const CONFIG_LEADER: Instance := Instance(true, false, true, "", "")

  const AES_USER: Secret := Secret(map[KeyField(AesKind) := "a"], None)
  const AES_MIRROR: Secret := Secret(map[KeyField(AesKind) := "a", LastRotation := "5"], None)
  const PASSWORD_USER: Secret := Secret(map[KeyField(PasswordKind) := "b"], None)
  const PASSWORD_MIRROR: Secret := Secret(map[KeyField(PasswordKind) := "b", LastRotation := "9"], None)
  const AES_STATE: KeyState := KeyState("a", "5", true)

  /** The user provides an AES key at 5, adds a password key at 9, and takes the AES key away. */
  function Story(at5: Environment, at9: Environment): seq<Event> {
    [UserEdits(AesKind, AES_USER), Reconciles(KEY_LEADER, true, at5), UserEdits(PasswordKind, PASSWORD_USER),
     Reconciles(KEY_LEADER, true, at9), Deletes(User(AesKind))]
  }

  predicate Tools(at5: Environment, at9: Environment) {
    at5.now == "5" && at9.now == "9" && at5.createKeys(at5.password, AES_STATE).Some?
  }

  function LtpaSecret(at5: Environment): Secret
    requires Tools(at5, at5.(now := "9"))
  {
    NewKeys(at5, AES_STATE, at5.createKeys(at5.password, AES_STATE).value)
  }

  lemma Times()
    ensures Atoi("5") == Some(5) && Atoi("9") == Some(9) && FormatInt(5) == "5" && FormatInt(9) == "9"
    ensures MaxTime(["5", "5"]) == Some(5) && MaxTime(["9", "5"]) == Some(9)
  {
    assert Decimal(5) == "5" && Decimal(9) == "9";
    NumeralOfDecimal(5);
    NumeralOfDecimal(9);
    assert ["5", "5"][..1] == ["5"] && ["5"][..0] == [] && ["9", "5"][..1] == ["9"] && ["9"][..0] == [];
    assert MaxTime(["5"]) == Some(5) && MaxTime(["9"]) == Some(9);
  }

  function AfterAes(at5: Environment): Store
    requires Tools(at5, at5.(now := "9"))
  {
    map[User(AesKind) := AES_USER, Internal(AesKind) := AES_MIRROR, LtpaKeys("") := LtpaSecret(at5)]
  }

  lemma MirrorsAes(now: string)
    requires now == "5"
    ensures ReconcileKey(map[User(AesKind) := AES_USER], true, true, now)
         == (map[User(AesKind) := AES_USER, Internal(AesKind) := AES_MIRROR], Success("5"))
  {
    var store: Store := map[User(AesKind) := AES_USER];
    assert store - {Internal(PasswordKind)} == store;
    assert MirroredSecret(AES_USER, EMPTY_SECRET, AesKind, now) == AES_MIRROR;
    assert store[Internal(AesKind) := AES_MIRROR] == map[User(AesKind) := AES_USER, Internal(AesKind) := AES_MIRROR];
  }

  lemma CreatesKeys(at5: Environment)
    requires Tools(at5, at5.(now := "9"))
    ensures Keys(map[User(AesKind) := AES_USER, Internal(AesKind) := AES_MIRROR], KEY_LEADER, at5) == (AfterAes(at5), Success("5"))
  {
    var store: Store := map[User(AesKind) := AES_USER, Internal(AesKind) := AES_MIRROR];
    assert KeyData(AES_MIRROR, AesKind) == Some(("a", "5"));
    assert InternalKeyState(store, true) == Success(AES_STATE);
    assert store[LtpaKeys("") := LtpaSecret(at5)] == AfterAes(at5);
  }

  /** The first reconcile stamps the AES key and creates the LTPA keys, then waits for a configuration. */
  lemma FirstReconcile(at5: Environment)
    requires Tools(at5, at5.(now := "9"))
    ensures Full(map[User(AesKind) := AES_USER], KEY_LEADER, true, at5).0 == AfterAes(at5)
  {
    Times();
    MirrorsAes(at5.now);
    CreatesKeys(at5);
  }

  function AfterPassword(at5: Environment): Store
    requires Tools(at5, at5.(now := "9"))
  {
    AfterAes(at5)[User(PasswordKind) := PASSWORD_USER]
  }

  function AfterBoth(at5: Environment): Store
    requires Tools(at5, at5.(now := "9"))
  {
    AfterPassword(at5)[Internal(PasswordKind) := PASSWORD_MIRROR]
  }

  lemma MirrorsBoth(at5: Environment, now: string)
    requires Tools(at5, at5.(now := "9")) && now == "9"
    ensures ReconcileKey(AfterPassword(at5), true, true, now) == (AfterBoth(at5), Success("5"))
  {
    assert MirroredSecret(PASSWORD_USER, EMPTY_SECRET, PasswordKind, now) == PASSWORD_MIRROR;
    assert AfterBoth(at5)[Internal(AesKind) := AES_MIRROR] == AfterBoth(at5);
  }

  lemma SecondReconcile(at5: Environment, at9: Environment)
    requires Tools(at5, at9)
    ensures Full(AfterPassword(at5), KEY_LEADER, true, at9).0 == AfterBoth(at5)
  {
    Times();
    MirrorsBoth(at5, at9.now);
    assert Keys(AfterBoth(at5), KEY_LEADER, at9) == (AfterBoth(at5), Success("5"));
  }

  lemma HistoryStep(events: seq<Event>, n: nat)
    requires n < |events|
    ensures History(events[..n + 1]) == Happens(History(events[..n]), events[n])
  {
    assert events[..n + 1][..n] == events[..n];
  }

  lemma StoryBegins(at5: Environment, at9: Environment)
    requires Tools(at5, at9)
    ensures History(Story(at5, at9)[..2]) == AfterAes(at5)
  {
    var e := Story(at5, at9);
    HistoryStep(e, 0);
    HistoryStep(e, 1);
    assert History(e[..1]) == map[User(AesKind) := AES_USER];
    FirstReconcile(at5);
  }

  lemma StoryGoesOn(at5: Environment, at9: Environment)
    requires Tools(at5, at9)
    ensures History(Story(at5, at9)[..3]) == AfterPassword(at5)
  {
    StoryBegins(at5, at9);
    HistoryStep(Story(at5, at9), 2);
  }

  lemma StoryTurns(at5: Environment, at9: Environment)
    requires Tools(at5, at9)
    ensures History(Story(at5, at9)[..4]) == AfterBoth(at5)
  {
    StoryGoesOn(at5, at9);
    HistoryStep(Story(at5, at9), 3);
    SecondReconcile(at5, at9);
  }

  lemma StoryEnds(at5: Environment, at9: Environment)
    requires Tools(at5, at9)
    ensures History(Story(at5, at9)) == AfterBoth(at5) - {User(AesKind)}
  {
    StoryTurns(at5, at9);
    HistoryStep(Story(at5, at9), 4);
    assert Story(at5, at9)[..5] == Story(at5, at9);
  }

  lemma SeesPassword(at5: Environment, now: string)
    requires Tools(at5, at5.(now := "9"))
    ensures var s := AfterBoth(at5) - {User(AesKind)}; ReconcileKey(s, true, false, now) == (s, Success("9"))
  {
  }

  lemma EncodesWithAes(at5: Environment, env: Environment) returns (s1: Store)
    requires Tools(at5, at5.(now := "9")) && env.encode(at5.password, AES_STATE).Some?
    ensures var s := AfterBoth(at5) - {User(AesKind)};
            && Prepared(s, CONFIG_LEADER, env) == (s1, Success(()))
            && s1 == s[KeyedConfig("") := NewConfig(LtpaSecret(at5), AES_STATE, env.encode(at5.password, AES_STATE).value)]
  {
    var s := AfterBoth(at5) - {User(AesKind)};
    assert KeyData(AES_MIRROR, AesKind) == Some(("a", "5"));
    assert InternalKeyState(s, true) == Success(AES_STATE);
    s1 := Prepared(s, CONFIG_LEADER, env).0;
  }

  lemma PublishesOld(at5: Environment, s1: Store, encoded: string)
    requires Tools(at5, at5.(now := "9"))
    requires s1 == (AfterBoth(at5) - {User(AesKind)})[KeyedConfig("") := NewConfig(LtpaSecret(at5), AES_STATE, encoded)]
    ensures Checked(s1, CONFIG_LEADER, "5").1.Success?
  {
    Times();
    assert KeyData(AES_MIRROR, AesKind) == Some(("a", "5"));
    assert ValidInternalKey(s1) == Success(Some(AES_MIRROR));
  }

  /** After that story an instance that leads the configuration, but not the encryption key, succeeds although it has seen
      rotation 9 and uses the key of rotation 5: something is overlooked. */
  lemma LagIsReached(at5: Environment, at9: Environment, env: Environment)
    requires Tools(at5, at9) && env.encode(at5.password, AES_STATE).Some?
    ensures var s := History(Story(at5, at9));
            && !OneInternalKey(s) && Full(s, CONFIG_LEADER, false, env).1.Success?
            && SeenRotations(s, CONFIG_LEADER, false, env) == ("9", "5")
            && !NothingOverlooked(s, CONFIG_LEADER, false, env)
  {
    var s := AfterBoth(at5) - {User(AesKind)};
    StoryEnds(at5, at9);
    Times();
    SeesPassword(at5, env.now);
    assert Keys(s, CONFIG_LEADER, env) == (s, Success("5"));
    var s1 := EncodesWithAes(at5, env);
    PublishesOld(at5, s1, env.encode(at5.password, AES_STATE).value);
    assert Full(s, CONFIG_LEADER, false, env) == Checked(s1, CONFIG_LEADER, "5");
    assert KeyData(AES_MIRROR, AesKind) == Some(("a", "5"));
    assert UsedRotation(s) == "5";
  }
}
