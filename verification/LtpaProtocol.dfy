/** Creating, deleting and recreating the shared LTPA Secrets: generateLTPAKeys and generateLTPAConfig in
    internal/controller/ltpa_keys_sharing.go, as the reconcile loop calls them. */
module LtpaProtocol {
  import opened Text
  import opened EncryptionKeys

  /** What the reconciled instance brings along: its settings, its part in the elections and the names it uses. */
  datatype Instance = Instance(sharing: bool, leadsKeys: bool, leadsConfig: bool, keysSuffix: string, configSuffix: string)

  /** Clock, random password and the two calls to the Liberty tools; an encoder maps a password and an optional key,
      of either kind, to the encoded text, and None stands for an error. */
  datatype Environment = Environment(
    now: string,
    password: string,
    createKeys: (string, KeyState) -> Option<string>,
    encode: (string, KeyState) -> Option<string>)

  function KeysName(i: Instance): SecretName { LtpaKeys(i.keysSuffix) }

  function ConfigName(store: Store, i: Instance): SecretName {
    if UsingKeySharing(store, i.sharing) then KeyedConfig(i.configSuffix) else PlainConfig(i.configSuffix)
  }

  function WithRotation(data: map<DataField, string>, k: KeyState): map<DataField, string> {
    if k.key != "" && k.rotation != "" then data[EncryptionKeyLastRotation := k.rotation] else data
  }

  // ----- the keys -----

  function NewKeys(env: Environment, k: KeyState, file: string): Secret {
    Secret(WithRotation(map[], k)[LastRotation := env.now][RawPassword := env.password][KeysFile := file], None)
  }

  /** generateLTPAKeys: the Secrets afterwards and the rotation of the keys. */
  function Keys(store: Store, i: Instance, env: Environment): (Store, Outcome<string>) {
    if KeysName(i) in store then (store, Success(ValueOf(store[KeysName(i)], LastRotation)))
    else if !i.leadsKeys then (store, Failure)
    else
      match InternalKeyState(store, i.sharing)
      case Success(k) =>
        (match env.createKeys(env.password, k)
         case Some(file) => (store[KeysName(i) := NewKeys(env, k, file)], Success(env.now))
         case None => (store, Failure))
      case Failure => (store, Failure)
      case Crash => (store, Crash)
  }

  // ----- the configuration: creating it when it is missing -----

  /** The configuration Secret made from keys with a raw password. */
  function NewConfig(keys: Secret, k: KeyState, encoded: string): Secret {
    Secret(WithRotation(map[], k)[LastRotation := ValueOf(keys, LastRotation)][Password := encoded], None)
  }

  /** The Secrets after the branch that runs when the configuration Secret is missing. Keys without a raw password are
      those of an old operator: they are copied when no encryption is wanted and deleted otherwise. */
  function Prepared(store: Store, i: Instance, env: Environment): (Store, Outcome<()>) {
    var name := ConfigName(store, i);
    var keys := Fetch(store, KeysName(i));
    if name in store then (store, Success(()))
    else if RawPassword !in keys.data then
      if i.sharing then (store - {KeysName(i)}, Success(()))
      else if Password in keys.data && LastRotation in keys.data then
        (store[name := Secret(map[Password := keys.data[Password], LastRotation := keys.data[LastRotation]], None)], Success(()))
      else (store, Success(()))
    else
      match InternalKeyState(store, i.sharing)
      case Success(k) =>
        (match env.encode(keys.data[RawPassword], k)
         case Some(encoded) => (store[name := NewConfig(keys, k, encoded)], Success(()))
         case None => (store, Failure))
      case Failure => (store, Failure)
      case Crash => (store, Crash)
  }

  // ----- the configuration: checking it -----

  /** The configuration is in step with the keys and, when key sharing is in use, with the encryption key. */
  function Fresh(store: Store, i: Instance, config: Secret, keysRotation: string): Outcome<bool> {
    if LastRotation !in config.data || config.data[LastRotation] != keysRotation then Success(false)
    else if !UsingKeySharing(store, i.sharing) then Success(true)
    else
      match ValidInternalKey(store)
      case Success(Some(key)) =>
        Success(EncryptionKeyLastRotation !in config.data
                || config.data[EncryptionKeyLastRotation] == ValueOf(key, LastRotation))
      case Success(None) => Crash
      case _ => Failure
  }

  /** The later of the two rotations recorded in the configuration. */
  function ConfigRotation(config: Secret): Option<int> {
    match Atoi(ValueOf(config, LastRotation))
    case None => None
    case Some(t) =>
      if EncryptionKeyLastRotation !in config.data then Some(t)
      else
        match Atoi(config.data[EncryptionKeyLastRotation])
        case None => None
        case Some(e) => Some(if e >= t then e else t)
  }

  function Published(store: Store, i: Instance, config: Secret, t: int): Store {
    var xml := Fetch(store, LtpaXml(i.configSuffix));
    store[LtpaXml(i.configSuffix) :=
      xml.(rotationLabel := Some(FormatInt(t)), data := xml.data[ServerXml := ValueOf(config, Password)])]
  }

  function Checked(store: Store, i: Instance, keysRotation: string): (Store, Outcome<()>) {
    var name := ConfigName(store, i);
    var config := Fetch(store, name);
    match Fresh(store, i, config, keysRotation)
    case Success(current) =>
      if !current then (store - {name}, Failure)
      else
        var mounted := store[LtpaXmlMount(i.configSuffix) := Fetch(store, LtpaXmlMount(i.configSuffix))];
        (match ConfigRotation(config)
         case None => (mounted, Failure)
         case Some(t) => (Published(mounted, i, config, t), Success(())))
    case Failure => (store, Failure)
    case Crash => (store, Crash)
  }

  /** CompareStringTimeGreaterThanOrEqual. */
  function TimeAtLeast(time1: string, time2: string): Option<bool> {
    match (Atoi(time1), Atoi(time2))
    case (Some(t1), Some(t2)) => Some(t1 >= t2)
    case _ => None
  }

  /** What an instance that does not lead the configuration waits for. */
  predicate Unblocked(store: Store, i: Instance, keyRelatedRotation: string) {
    && LtpaXml(i.configSuffix) in store
    && store[LtpaXml(i.configSuffix)].rotationLabel.Some?
    && TimeAtLeast(store[LtpaXml(i.configSuffix)].rotationLabel.value, keyRelatedRotation) == Some(true)
  }

  /** generateLTPAConfig. */
  function Config(store: Store, i: Instance, env: Environment, keysRotation: string, keyRelatedRotation: string): (Store, Outcome<()>) {
    if KeysName(i) !in store then (store, Failure)
    else if !i.leadsConfig then (store, if Unblocked(store, i, keyRelatedRotation) then Success(()) else Failure)
    else
      var (s1, r) := Prepared(store, i, env);
      if r.Success? then Checked(s1, i, keysRotation) else (s1, r)
  }

  // ----- the later of several times -----

  /** GetMaxTime on at least one argument; the empty string counts as 0, and the maximum starts at -1. */
  function MaxTime(args: seq<string>): Option<int> {
    if args == [] then Some(-1)
    else
      match (MaxTime(args[..|args| - 1]), if args[|args| - 1] == "" then Some(0) else Atoi(args[|args| - 1]))
      case (Some(m), Some(t)) => Some(if t > m then t else m)
      case _ => None
  }

  method GetMaxTime(args: seq<string>) returns (r: Option<string>)
    ensures r == match MaxTime(args)
                 case Some(m) => if m == -1 then None else Some(FormatInt(m))
                 case None => None
  {
    var maxVal := -1;
    for i := 0 to |args|
      invariant MaxTime(args[..i]) == Some(maxVal)
    {
      assert args[..i + 1][..i] == args[..i];
      var val := 0;
      if args[i] != "" {
        var t := Atoi(args[i]);
        if t.None? {
          NoMaxTime(args, i);
          return None;
        }
        val := t.value;
      }
      if val > maxVal { maxVal := val; }
    }
    assert args[..|args|] == args;
    r := if maxVal == -1 then None else Some(FormatInt(maxVal));
  }

  lemma {:induction false} NoMaxTime(args: seq<string>, i: nat)
    requires i < |args| && args[i] != "" && Atoi(args[i]) == None
    ensures MaxTime(args) == None
  {
    if i < |args| - 1 { NoMaxTime(args[..|args| - 1], i); }
  }

  // ----- one reconcile of the LTPA Secrets -----

  function Reconcile(store: Store, i: Instance, env: Environment, encryptionRotation: string): (Store, Outcome<()>) {
    var (s1, keys) := Keys(store, i, env);
    match keys
    case Success(keysRotation) =>
      (match MaxTime([encryptionRotation, keysRotation])
       case Some(m) => if m == -1 then (s1, Failure) else Config(s1, i, env, keysRotation, FormatInt(m))
       case None => (s1, Failure))
    case Failure => (s1, Failure)
    case Crash => (s1, Crash)
  }

  /** The operator's side: the same steps as updates of the namespace. */
  class Reconciler {
    const namespace: Namespace

    constructor (n: Namespace)
      ensures namespace == n
    {
      namespace := n;
    }

    method GenerateLTPAKeys(i: Instance, env: Environment) returns (r: Outcome<string>)
      modifies namespace
      ensures (namespace.secrets, r) == Keys(old(namespace.secrets), i, env)
    {
      var name := KeysName(i);
      if name !in namespace.secrets {
        if !i.leadsKeys { return Failure; }
        var state := InternalKeyState(namespace.secrets, i.sharing);
        if state.Crash? { return Crash; }
        if state.Failure? { return Failure; }
        var k := state.value;
        var file := env.createKeys(env.password, k);
        if file.None? { return Failure; }
        var data: map<DataField, string> := map[];
        if k.key != "" && k.rotation != "" { data := data[EncryptionKeyLastRotation := k.rotation]; }
        data := data[LastRotation := env.now];
        data := data[RawPassword := env.password];
        data := data[KeysFile := file.value];
        namespace.CreateOrUpdate(name, Secret(data, None));
        return Success(env.now);
      }
      r := Success(ValueOf(namespace.secrets[name], LastRotation));
    }

    method PrepareConfig(i: Instance, env: Environment) returns (r: Outcome<()>)
      modifies namespace
      ensures (namespace.secrets, r) == Prepared(old(namespace.secrets), i, env)
    {
      var store := namespace.secrets;
      var name, keys := ConfigName(store, i), Fetch(store, KeysName(i));
      if name in store { return Success(()); }
      if RawPassword !in keys.data {
        if i.sharing {
          namespace.DeleteResource(KeysName(i));
        } else if Password in keys.data && LastRotation in keys.data {
          var data: map<DataField, string> := map[];
          data := data[Password := keys.data[Password]];
          data := data[LastRotation := keys.data[LastRotation]];
          namespace.CreateOrUpdate(name, Secret(data, None));
        }
        return Success(());
      }
      var state := InternalKeyState(store, i.sharing);
      if state.Crash? { return Crash; }
      if state.Failure? { return Failure; }
      var encoded := env.encode(keys.data[RawPassword], state.value);
      if encoded.None? { return Failure; }
      namespace.CreateOrUpdate(name, NewConfig(keys, state.value, encoded.value));
      r := Success(());
    }

    method CheckConfig(i: Instance, keysRotation: string) returns (r: Outcome<()>)
      modifies namespace
      ensures (namespace.secrets, r) == Checked(old(namespace.secrets), i, keysRotation)
    {
      var name := ConfigName(namespace.secrets, i);
      var config := Fetch(namespace.secrets, name);
      if LastRotation !in config.data || config.data[LastRotation] != keysRotation {
        namespace.DeleteResource(name);
        return Failure;
      }
      if UsingKeySharing(namespace.secrets, i.sharing) {
        var key := ValidInternalKey(namespace.secrets);
        if key.Failure? { return Failure; }
        if key.Crash? || key.value.None? { return Crash; }
        // a valid internal key always has a rotation
        var keyRotation := ValueOf(key.value.value, LastRotation);
        if EncryptionKeyLastRotation in config.data && config.data[EncryptionKeyLastRotation] != keyRotation {
          namespace.DeleteResource(name);
          return Failure;
        }
      }
      namespace.CreateOrUpdate(LtpaXmlMount(i.configSuffix), Fetch(namespace.secrets, LtpaXmlMount(i.configSuffix)));
      var latest := Atoi(config.data[LastRotation]);
      if latest.None? { return Failure; }
      var latestRotationTime := latest.value;
      if EncryptionKeyLastRotation in config.data {
        var t := Atoi(config.data[EncryptionKeyLastRotation]);
        if t.None? { return Failure; }
        if t.value >= latestRotationTime { latestRotationTime := t.value; }
      }
      var xml := Fetch(namespace.secrets, LtpaXml(i.configSuffix));
      xml := xml.(rotationLabel := Some(FormatInt(latestRotationTime)));
      xml := xml.(data := xml.data[ServerXml := ValueOf(config, Password)]);
      namespace.CreateOrUpdate(LtpaXml(i.configSuffix), xml);
      r := Success(());
    }

    method GenerateLTPAConfig(i: Instance, env: Environment, keysRotation: string, keyRelatedRotation: string) returns (r: Outcome<()>)
      modifies namespace
      ensures (namespace.secrets, r) == Config(old(namespace.secrets), i, env, keysRotation, keyRelatedRotation)
    {
      if KeysName(i) !in namespace.secrets { return Failure; }
      if !i.leadsConfig {
        return if Unblocked(namespace.secrets, i, keyRelatedRotation) then Success(()) else Failure;
      }
      r := PrepareConfig(i, env);
      if r.Success? {
        r := CheckConfig(i, keysRotation);
      }
    }

    method ReconcileLTPA(i: Instance, env: Environment, encryptionRotation: string) returns (r: Outcome<()>)
      modifies namespace
      ensures (namespace.secrets, r) == Reconcile(old(namespace.secrets), i, env, encryptionRotation)
    {
      var keys := GenerateLTPAKeys(i, env);
      if keys.Crash? { return Crash; }
      if keys.Failure? { return Failure; }
      var keyRelatedRotation := GetMaxTime([encryptionRotation, keys.value]);
      if keyRelatedRotation.None? { return Failure; }
      r := GenerateLTPAConfig(i, env, keys.value, keyRelatedRotation.value);
    }
  }
}
