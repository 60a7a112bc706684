/** Initialising the environment file: host ports and secrets are filled in, what is there is kept. */
module EnvInit {
  import opened Text
  import opened EnvFile

  const PORT_KEYS: seq<string> := [
    "POSTGRES_HOST_PORT", "LLAMA_HOST_PORT", "GATEWAY_HOST_PORT", "OPEN_WEBUI_HOST_PORT", "SILLYTAVERN_HOST_PORT",
    "HERMES_API_HOST_PORT", "HERMES_DASHBOARD_HOST_PORT", "PROMETHEUS_HOST_PORT"]

  // The secrets, then the optional ones.
  const SECRETS: seq<string> := [
    "POSTGRES_PASSWORD", "LLAMA_API_KEY", "GATEWAY_API_KEY", "WEBUI_SECRET_KEY", "MEMORY_SUBJECT_HMAC_KEY",
    "HERMES_API_KEY", "HERMES_DASHBOARD_PASSWORD",
    "SEARXNG_SECRET_KEY", "OPEN_TERMINAL_API_KEY", "CONTINUITY_API_TOKEN"]

  const FIRST_PORT := 40000
  const LAST_PORT := 60999

  // Upper-case letters and underscores.
  predicate IsName(k: string) {
    k != "" && forall i :: 0 <= i < |k| ==> k[i] == '_' || 'A' <= k[i] <= 'Z'
  }

  lemma NamesAreClean(k: string)
    requires IsName(k)
    ensures CleanKey(k)
  {
  }

  lemma PortNames()
    ensures IsName("POSTGRES_HOST_PORT") && IsName("LLAMA_HOST_PORT") && IsName("GATEWAY_HOST_PORT")
    ensures IsName("OPEN_WEBUI_HOST_PORT")
  {
  }

  lemma MorePortNames()
    ensures IsName("SILLYTAVERN_HOST_PORT") && IsName("HERMES_API_HOST_PORT") && IsName("HERMES_DASHBOARD_HOST_PORT")
    ensures IsName("PROMETHEUS_HOST_PORT")
  {
  }

  lemma SecretNames()
    ensures IsName("POSTGRES_PASSWORD") && IsName("LLAMA_API_KEY") && IsName("GATEWAY_API_KEY")
    ensures IsName("WEBUI_SECRET_KEY") && IsName("MEMORY_SUBJECT_HMAC_KEY")
  {
  }

  lemma MoreSecretNames()
    ensures IsName("HERMES_API_KEY") && IsName("HERMES_DASHBOARD_PASSWORD") && IsName("SEARXNG_SECRET_KEY")
    ensures IsName("OPEN_TERMINAL_API_KEY") && IsName("CONTINUITY_API_TOKEN")
  {
  }

  predicate AllNames(keys: seq<string>) {
    forall k :: k in keys ==> IsName(k)
  }

  lemma KeysAreNames()
    ensures AllNames(PORT_KEYS) && AllNames(SECRETS)
  {
    PortNames();
    MorePortNames();
    SecretNames();
    MoreSecretNames();
  }

  // No key is named twice.
  lemma KeysDiffer()
    ensures forall i, j :: 0 <= i < j < |PORT_KEYS| ==> PORT_KEYS[i] != PORT_KEYS[j]
    ensures forall i, j :: 0 <= i < j < |SECRETS| ==> SECRETS[i] != SECRETS[j]
    ensures forall i, j :: 0 <= i < |PORT_KEYS| && 0 <= j < |SECRETS| ==> PORT_KEYS[i] != SECRETS[j]
  {
    assert forall i, j :: 0 <= i < j < |PORT_KEYS| ==>
      |PORT_KEYS[i]| != |PORT_KEYS[j]| || PORT_KEYS[i][0] != PORT_KEYS[j][0];
    assert forall i, j :: 0 <= i < j < |SECRETS| ==> |SECRETS[i]| != |SECRETS[j]|;
    assert forall i, j :: 0 <= i < |PORT_KEYS| && 0 <= j < |SECRETS| ==>
      |PORT_KEYS[i]| != |SECRETS[j]| || PORT_KEYS[i][0] != SECRETS[j][0];
  }

  // ---------------------------------------------------------------- ports

  // str(n)
  function Decimal(n: nat): string {
    if n < 10 then [Digit(n)] else Decimal(n / 10) + [Digit(n % 10)]
  }

  function Digit(n: nat): char
    requires n < 10
  {
    '0' + n as char
  }

  lemma {:induction false} DecimalIsClean(n: nat)
    ensures Decimal(n) != "" && CleanValue(Decimal(n))
    ensures forall i :: 0 <= i < |Decimal(n)| ==> '0' <= Decimal(n)[i] <= '9'
    decreases n
  {
    if n >= 10 { DecimalIsClean(n / 10); }
  }

  // int(s), and that it reads back what str prints.
  type Reader = string -> Option<int>

  ghost predicate ReadsDecimals(read: Reader) {
    forall n: nat :: read(Decimal(n)) == Some(n as int)
  }

  predicate UsablePort(read: Reader, value: string) {
    read(value).Some? && 1024 <= read(value).value <= 65535
  }

  /** What is not under the command's control: the ports drawn for a key, one after the other, and which ports
      can be bound. */
  datatype Chance = Chance(draw: (string, nat) -> nat, binds: nat -> bool)

  ghost predicate InRange(chance: Chance) {
    forall key, n :: FIRST_PORT <= chance.draw(key, n) <= LAST_PORT
  }

  // The n-th port drawn for the key will not do.
  predicate Unfit(chance: Chance, key: string, used: set<int>, n: nat) {
    chance.draw(key, n) as int in used || !chance.binds(chance.draw(key, n))
  }

  /** The first of up to 5000 drawn ports that is new and can be bound. */
  method AllocatePort(key: string, used: set<int>, chance: Chance) returns (port: Option<nat>)
    requires InRange(chance)
    ensures port.Some? ==> FIRST_PORT <= port.value <= LAST_PORT && port.value as int !in used
    ensures port.Some? ==>
      exists n: nat :: n < 5000 && port.value == chance.draw(key, n) && chance.binds(port.value)
        && forall m: nat :: m < n ==> Unfit(chance, key, used, m)
    ensures port.None? ==> forall m: nat :: m < 5000 ==> Unfit(chance, key, used, m)
  {
    for attempt := 0 to 5000
      invariant forall m: nat :: m < attempt ==> Unfit(chance, key, used, m)
    {
      var candidate := chance.draw(key, attempt);
      if candidate as int in used { continue; }
      if chance.binds(candidate) { return Some(candidate); }
    }
    port := None;
  }

  // ---------------------------------------------------------------- the command

  datatype Flags = Flags(reallocatePorts: bool, rotateSecrets: bool, rotatePostgres: bool)

  const NO_FLAGS := Flags(false, false, false)

  datatype Result = Written(text: string, values: Env) | Failed

  // The file as it is, or None when there is none.
  function Existing(output: Option<string>): Env {
    if output.Some? then ParseLines(SplitLines(output.value)) else map[]
  }

  // The template's values under the existing ones.
  function Given(template: string, output: Option<string>): Env {
    ParseLines(SplitLines(template)) + Existing(output)
  }

  predicate Rotates(flags: Flags, output: Option<string>, k: string) {
    flags.rotateSecrets && (k == "POSTGRES_PASSWORD" && output.Some? ==> flags.rotatePostgres)
  }

  /** The existing file wins over the template, key by key. */
  lemma ExistingWins(template: string, output: Option<string>, k: string)
    ensures var was, def := Existing(output), ParseLines(SplitLines(template));
      && (k in Given(template, output) <==> k in was || k in def)
      && (k in was ==> Given(template, output)[k] == was[k])
      && (k !in was && k in def ==> Given(template, output)[k] == def[k])
      && (output.None? ==> k !in was) && (output.Some? ==> was == ParseLines(SplitLines(output.value)))
  {
  }

  /** Rotating replaces every secret, but the database password of an existing file only on request. */
  lemma RotatesExactly(flags: Flags, output: Option<string>, k: string)
    ensures !flags.rotateSecrets ==> !Rotates(flags, output, k)
    ensures flags.rotateSecrets ==> (Rotates(flags, output, k) <==> k != "POSTGRES_PASSWORD" || output.None? || flags.rotatePostgres)
  {
  }

  // The port keys and the secret keys the command fills.
  datatype Keys = Keys(ports: seq<string>, secrets: seq<string>)

  const KEYS := Keys(PORT_KEYS, SECRETS)

  ghost predicate WellNamed(keys: Keys) {
    && Distinct(keys.ports)
    && (forall k :: k in keys.ports ==> k !in keys.secrets && CleanKey(k))
    && (forall k :: k in keys.secrets ==> CleanKey(k))
  }

  ghost predicate Distinct(keys: seq<string>) {
    forall i, j :: 0 <= i < j < |keys| ==> keys[i] != keys[j]
  }

  lemma KeysAreWellNamed()
    ensures WellNamed(KEYS)
  {
    KeysAreNames();
    KeysDiffer();
    forall k | k in KEYS.ports || k in KEYS.secrets
      ensures CleanKey(k)
    {
      NamesAreClean(k);
    }
  }

  // A configured port stays, any other is drawn.
  predicate PortFilled(read: Reader, given: Env, flags: Flags, values: Env, k: string) {
    && k in values && UsablePort(read, values[k])
    && (if ValueOr(given, k) != "" && !flags.reallocatePorts then values[k] == given[k] else IsDrawn(values[k]))
  }

  predicate IsDrawn(value: string) {
    exists n: nat :: FIRST_PORT <= n <= LAST_PORT && value == Decimal(n)
  }

  // A secret that is there stays unless it is rotated, any other is drawn.
  predicate SecretFilled(given: Env, flags: Flags, output: Option<string>, values: Env, k: string) {
    && k in values && values[k] != ""
    && (if ValueOr(given, k) != "" && !Rotates(flags, output, k) then values[k] == given[k] else CleanValue(values[k]))
  }

  predicate SamePort(read: Reader, values: Env, k: string, l: string) {
    k in values && l in values && read(values[k]) == read(values[l])
  }

  ghost predicate PortsFilled(read: Reader, given: Env, flags: Flags, values: Env, ports: seq<string>) {
    forall k :: k in ports ==> PortFilled(read, given, flags, values, k)
  }

  ghost predicate PortsDiffer(read: Reader, values: Env, ports: seq<string>) {
    forall i, j :: 0 <= i < j < |ports| ==> !SamePort(read, values, ports[i], ports[j])
  }

  ghost predicate SecretsFilled(given: Env, flags: Flags, output: Option<string>, values: Env, secrets: seq<string>) {
    forall k :: k in secrets ==> SecretFilled(given, flags, output, values, k)
  }

  // The keys given are there, those named are added, and only the named ones change.
  ghost predicate ChangesOnly(given: Env, values: Env, keys: seq<string>) {
    && (forall k :: k in values <==> k in given || k in keys)
    && (forall k :: k in given && k !in keys ==> values[k] == given[k])
  }

  /** What a successful run leaves: every port usable and no two the same, every secret set, everything
      else as given. */
  ghost predicate Initialized(keys: Keys, read: Reader, given: Env, output: Option<string>, flags: Flags, values: Env) {
    && ChangesOnly(given, values, keys.ports + keys.secrets)
    && PortsFilled(read, given, flags, values, keys.ports)
    && PortsDiffer(read, values, keys.ports)
    && SecretsFilled(given, flags, output, values, keys.secrets)
  }

  // All ports are configured, usable and different.
  ghost predicate PortsSet(read: Reader, given: Env, ports: seq<string>) {
    && (forall k :: k in ports ==> ValueOr(given, k) != "" && UsablePort(read, given[k]))
    && PortsDiffer(read, given, ports)
  }

  // ---------------------------------------------------------------- filling in

  // The ports of the keys done are in use, and nothing else is.
  ghost predicate InUse(read: Reader, values: Env, done: seq<string>, used: set<int>) {
    && (forall k :: k in done && k in values && read(values[k]).Some? ==> read(values[k]).value in used)
    && (forall n :: n in used ==> exists k :: k in done && k in values && read(values[k]) == Some(n))
  }

  // One port key more, whose value alone changes.
  predicate OneMore(ports: seq<string>, i: nat, values: Env, values': Env) {
    && i < |ports| && ports[i] !in ports[..i] && ports[..i + 1] == ports[..i] + [ports[i]]
    && ports[i] in values' && values' == values[ports[i] := values'[ports[i]]]
  }

  lemma OneMoreKey(ports: seq<string>, i: nat)
    requires i < |ports| && Distinct(ports)
    ensures ports[i] !in ports[..i] && ports[..i + 1] == ports[..i] + [ports[i]]
  {
  }

  lemma FilledMore(read: Reader, given: Env, flags: Flags, ports: seq<string>, i: nat, values: Env, values': Env)
    requires OneMore(ports, i, values, values') && PortFilled(read, given, flags, values', ports[i])
    requires ChangesOnly(given, values, ports[..i]) && PortsFilled(read, given, flags, values, ports[..i])
    ensures ChangesOnly(given, values', ports[..i + 1]) && PortsFilled(read, given, flags, values', ports[..i + 1])
  {
    forall k | k in ports[..i]
      ensures PortFilled(read, given, flags, values', k)
    {
      assert PortFilled(read, given, flags, values, k);
    }
  }

  lemma DifferMore(read: Reader, ports: seq<string>, i: nat, values: Env, values': Env, used: set<int>, port: int)
    requires OneMore(ports, i, values, values') && PortsDiffer(read, values, ports[..i]) && InUse(read, values, ports[..i], used)
    requires read(values'[ports[i]]) == Some(port) && port !in used
    ensures PortsDiffer(read, values', ports[..i + 1])
  {
    var done := ports[..i + 1];
    forall j, l | 0 <= j < l < |done|
      ensures !SamePort(read, values', done[j], done[l])
    {
      assert done[j] == ports[..i][j] && done[j] in ports[..i];
      if l < i { assert done[l] == ports[..i][l] && done[l] in ports[..i] && !SamePort(read, values, done[j], done[l]); }
    }
  }

  lemma InUseMore(read: Reader, ports: seq<string>, i: nat, values: Env, values': Env, used: set<int>, port: int)
    requires OneMore(ports, i, values, values') && InUse(read, values, ports[..i], used)
    requires read(values'[ports[i]]) == Some(port)
    ensures InUse(read, values', ports[..i + 1], used + {port})
  {
    forall n | n in used + {port}
      ensures exists k :: k in ports[..i + 1] && k in values' && read(values'[k]) == Some(n)
    {
      if n in used {
        var k :| k in ports[..i] && k in values && read(values[k]) == Some(n);
        assert k in ports[..i + 1] && k in values';
      } else {
        assert ports[i] in ports[..i + 1] && ports[i] in values';
      }
    }
  }

  // The first i keys are done.
  ghost predicate Done(read: Reader, given: Env, flags: Flags, ports: seq<string>, i: nat, values: Env, used: set<int>)
    requires i <= |ports|
  {
    && ChangesOnly(given, values, ports[..i]) && PortsFilled(read, given, flags, values, ports[..i])
    && PortsDiffer(read, values, ports[..i]) && InUse(read, values, ports[..i], used)
  }

  // One port key more.
  lemma PortDone(read: Reader, given: Env, flags: Flags, ports: seq<string>, i: nat, values: Env, values': Env, used: set<int>, port: int)
    requires i < |ports| && Distinct(ports)
    requires Done(read, given, flags, ports, i, values, used)
    requires ports[i] in values' && values' == values[ports[i] := values'[ports[i]]]
    requires PortFilled(read, given, flags, values', ports[i]) && read(values'[ports[i]]) == Some(port) && port !in used
    ensures Done(read, given, flags, ports, i + 1, values', used + {port})
  {
    OneMoreKey(ports, i);
    FilledMore(read, given, flags, ports, i, values, values');
    DifferMore(read, ports, i, values, values', used, port);
    InUseMore(read, ports, i, values, values', used, port);
  }

  // A configured port is not usable or already taken, or 5000 draws found none for a key without.
  ghost predicate Stuck(read: Reader, given: Env, flags: Flags, chance: Chance, key: string, taken: set<int>) {
    if Configured(given, flags, key) then !UsablePort(read, given[key]) || read(given[key]).value in taken
    else forall n: nat :: n < 5000 ==> Unfit(chance, key, taken, n)
  }

  predicate Configured(given: Env, flags: Flags, key: string) {
    ValueOr(given, key) != "" && !flags.reallocatePorts
  }

  // The ports taken are those configured for other keys, or drawn.
  ghost predicate TakenByOthers(read: Reader, given: Env, flags: Flags, ports: seq<string>, key: string, taken: set<int>) {
    forall n :: n in taken ==>
      FIRST_PORT <= n <= LAST_PORT
      || exists k :: k in ports && k != key && Configured(given, flags, k) && read(given[k]) == Some(n)
  }

  lemma TakenIs(read: Reader, given: Env, flags: Flags, values: Env, ports: seq<string>, i: nat, used: set<int>)
    requires ReadsDecimals(read) && i < |ports| && Distinct(ports)
    requires Done(read, given, flags, ports, i, values, used)
    ensures TakenByOthers(read, given, flags, ports, ports[i], used)
  {
    OneMoreKey(ports, i);
    forall n | n in used && !(FIRST_PORT <= n <= LAST_PORT)
      ensures exists k :: k in ports && k != ports[i] && Configured(given, flags, k) && read(given[k]) == Some(n)
    {
      var k :| k in ports[..i] && k in values && read(values[k]) == Some(n);
      assert PortFilled(read, given, flags, values, k);
    }
  }

  /** Ports are filled in unless one is stuck. */
  method FillPorts(ports: seq<string>, read: Reader, given: Env, flags: Flags, chance: Chance)
      returns (filled: Option<Env>, ghost stuck: string, ghost taken: set<int>)
    requires ReadsDecimals(read) && Distinct(ports) && InRange(chance)
    ensures filled.None? ==>
      && stuck in ports && Stuck(read, given, flags, chance, stuck, taken)
      && TakenByOthers(read, given, flags, ports, stuck, taken)
    ensures filled.Some? ==>
      && ChangesOnly(given, filled.value, ports)
      && PortsFilled(read, given, flags, filled.value, ports) && PortsDiffer(read, filled.value, ports)
    ensures PortsSet(read, given, ports) && !flags.reallocatePorts ==> filled.Some?
  {
    stuck, taken := "", {};
    var values := given;
    var used: set<int> := {};
    for i := 0 to |ports|
      invariant Done(read, given, flags, ports, i, values, used)
      invariant PortsSet(read, given, ports) && !flags.reallocatePorts ==> values == given
    {
      var key := ports[i];
      ghost var was := values;
      OneMoreKey(ports, i);
      KeyUntouched(given, values, ports, i);
      var current := if key in values then values[key] else "";
      if current != "" && !flags.reallocatePorts {
        var port := read(current);
        if port.None? || !(1024 <= port.value <= 65535) || port.value in used {
          if PortsSet(read, given, ports) { ConfiguredIsNew(read, given, ports, i, used); }
          TakenIs(read, given, flags, values, ports, i, used);
          return None, key, used;
        }
        PortDone(read, given, flags, ports, i, was, values, used, port.value);
        used := used + {port.value};
      } else {
        var port := AllocatePort(key, used, chance);
        if port.None? {
          TakenIs(read, given, flags, values, ports, i, used);
          return None, key, used;
        }
        values := values[key := Decimal(port.value)];
        PortDone(read, given, flags, ports, i, was, values, used, port.value);
        used := used + {port.value as int};
      }
    }
    assert ports[..|ports|] == ports;
    filled := Some(values);
  }

  lemma KeyUntouched(given: Env, values: Env, ports: seq<string>, i: nat)
    requires i < |ports| && Distinct(ports) && ChangesOnly(given, values, ports[..i])
    ensures ValueOr(values, ports[i]) == ValueOr(given, ports[i])
  {
    OneMoreKey(ports, i);
  }

  // A port that differs from all others is not in use yet.
  lemma ConfiguredIsNew(read: Reader, given: Env, ports: seq<string>, i: nat, used: set<int>)
    requires i < |ports| && PortsSet(read, given, ports) && InUse(read, given, ports[..i], used)
    ensures ports[i] in given && UsablePort(read, given[ports[i]]) && read(given[ports[i]]).value !in used
  {
    assert ports[i] in ports;
    assert forall j :: 0 <= j < i ==> !SamePort(read, given, ports[j], ports[i]);
  }

  method FillSecrets(secrets: seq<string>, given: Env, flags: Flags, output: Option<string>) returns (values: Env)
    ensures ChangesOnly(given, values, secrets)
    ensures SecretsFilled(given, flags, output, values, secrets)
  {
    values := given;
    for i := 0 to |secrets|
      invariant ChangesOnly(given, values, secrets[..i])
      invariant SecretsFilled(given, flags, output, values, secrets[..i])
    {
      var key := secrets[i];
      assert secrets[..i + 1] == secrets[..i] + [key];
      assert key in secrets[..i] ==> SecretFilled(given, flags, output, values, key);
      if key !in values || values[key] == "" || Rotates(flags, output, key) {
        var token := Token();
        values := values[key := token];
      }
    }
    assert secrets[..|secrets|] == secrets;
  }

  // secrets.token_urlsafe(32): letters, digits, underscores and dashes.
  method Token() returns (token: string)
    ensures token != "" && CleanValue(token)
  {
    assert CleanValue("a");
    token :| token != "" && CleanValue(token);
  }

  /** The command fails only over a port, and says nothing of the output then. */
  method EnvInit(read: Reader, template: string, output: Option<string>, flags: Flags, chance: Chance)
      returns (r: Result, ghost stuck: string, ghost taken: set<int>)
    requires ReadsDecimals(read) && InRange(chance)
    ensures r.Failed? ==>
      && stuck in KEYS.ports && Stuck(read, Given(template, output), flags, chance, stuck, taken)
      && TakenByOthers(read, Given(template, output), flags, KEYS.ports, stuck, taken)
    ensures r.Written? ==>
      Initialized(KEYS, read, Given(template, output), output, flags, r.values) && r.text == Rendered(template, r.values)
    ensures PortsSet(read, Given(template, output), KEYS.ports) && !flags.reallocatePorts ==> r.Written?
  {
    KeysAreWellNamed();
    var fromTemplate := ParseEnv(template);
    var existing: Env := map[];
    if output.Some? { existing := ParseEnv(output.value); }
    r, stuck, taken := Fill(KEYS, read, template, fromTemplate + existing, output, flags, chance);
  }

  // The part of the command after reading its files.
  method Fill(keys: Keys, read: Reader, template: string, given: Env, output: Option<string>, flags: Flags, chance: Chance)
      returns (r: Result, ghost stuck: string, ghost taken: set<int>)
    requires ReadsDecimals(read) && WellNamed(keys) && InRange(chance)
    ensures r.Failed? ==>
      && stuck in keys.ports && Stuck(read, given, flags, chance, stuck, taken)
      && TakenByOthers(read, given, flags, keys.ports, stuck, taken)
    ensures r.Written? ==> Initialized(keys, read, given, output, flags, r.values) && r.text == Rendered(template, r.values)
    ensures PortsSet(read, given, keys.ports) && !flags.reallocatePorts ==> r.Written?
  {
    var filled;
    filled, stuck, taken := FillPorts(keys.ports, read, given, flags, chance);
    if filled.None? { return Failed, stuck, taken; }
    var values := FillSecrets(keys.secrets, filled.value, flags, output);
    InitializedByParts(keys, read, given, output, flags, filled.value, values);
    var text := RenderEnvTemplate(template, values);
    r := Written(text, values);
  }

  lemma InitializedByParts(keys: Keys, read: Reader, given: Env, output: Option<string>, flags: Flags, ports: Env, values: Env)
    requires WellNamed(keys)
    requires ChangesOnly(given, ports, keys.ports) && PortsFilled(read, given, flags, ports, keys.ports)
    requires PortsDiffer(read, ports, keys.ports)
    requires ChangesOnly(ports, values, keys.secrets) && SecretsFilled(ports, flags, output, values, keys.secrets)
    ensures Initialized(keys, read, given, output, flags, values)
  {
    forall k | k in keys.ports
      ensures k in ports && k in values && values[k] == ports[k] && PortFilled(read, given, flags, values, k)
    {
      assert PortFilled(read, given, flags, ports, k);
    }
    forall k | k in keys.secrets
      ensures SecretFilled(given, flags, output, values, k)
    {
      assert SecretFilled(ports, flags, output, values, k) && k !in keys.ports;
    }
    forall i, j | 0 <= i < j < |keys.ports|
      ensures !SamePort(read, values, keys.ports[i], keys.ports[j])
    {
      assert !SamePort(read, ports, keys.ports[i], keys.ports[j]) && keys.ports[i] in keys.ports && keys.ports[j] in keys.ports;
    }
  }

  // ---------------------------------------------------------------- the second run

  lemma GivenIsClean(template: string, output: Option<string>)
    ensures Clean(Given(template, output))
  {
    ParsedIsClean(template);
    if output.Some? { ParsedIsClean(output.value); }
  }

  lemma InitializedIsClean(keys: Keys, read: Reader, given: Env, output: Option<string>, flags: Flags, values: Env)
    requires WellNamed(keys) && Clean(given) && Initialized(keys, read, given, output, flags, values)
    ensures Clean(values)
  {
    forall k | k in values
      ensures CleanKey(k) && CleanValue(values[k])
    {
      if k in keys.ports {
        assert PortFilled(read, given, flags, values, k);
        if n: nat :| values[k] == Decimal(n) { DecimalIsClean(n); }
      } else if k in keys.secrets {
        assert SecretFilled(given, flags, output, values, k);
      }
    }
  }

  // The keys of a template's lines are the keys it parses to.
  lemma TemplateKeysParsed(template: string)
    ensures TemplateKeys(SplitLines(template)) == ParseLines(SplitLines(template)).Keys
  {
    SplitLinesHaveNoBreak(template);
    KeysOfLines(SplitLines(template));
  }

  lemma {:induction false} KeysOfLines(lines: seq<string>)
    requires forall i :: 0 <= i < |lines| ==> NoBreak(lines[i])
    ensures TemplateKeys(lines) == ParseLines(lines).Keys
    decreases |lines|
  {
    if lines != [] {
      var n := |lines| - 1;
      KeysOfLines(lines[..n]);
      TemplateEntry(lines[n]);
      KeysSnoc(lines, n);
      assert lines[..n + 1] == lines;
    }
  }

  lemma NothingToComplete(template: string, output: Option<string>, values: Env)
    requires TemplateKeys(SplitLines(template)) == ParseLines(SplitLines(template)).Keys
    requires forall k :: k in Given(template, output) ==> k in values
    ensures Completed(template, values) == values
  {
    assert forall k :: k in TemplateKeys(SplitLines(template)) ==> k in Given(template, output);
  }

  /** Reading the written file gives back exactly the values written. */
  lemma InitRoundTrip(keys: Keys, read: Reader, template: string, output: Option<string>, flags: Flags, values: Env)
    requires WellNamed(keys) && Initialized(keys, read, Given(template, output), output, flags, values)
    ensures ParseLines(SplitLines(Rendered(template, values))) == values
  {
    GivenIsClean(template, output);
    InitializedIsClean(keys, read, Given(template, output), output, flags, values);
    CleanRoundTrip(template, values);
    TemplateKeysParsed(template);
    NothingToComplete(template, output, values);
  }

  // The written file names every key of the template, so the template no longer matters.
  lemma FileCoversTemplate(template: string, output: Option<string>, values: Env)
    requires ParseLines(SplitLines(Rendered(template, values))) == values
    requires forall k :: k in Given(template, output) ==> k in values
    ensures Given(template, Some(Rendered(template, values))) == values
  {
    assert forall k :: k in ParseLines(SplitLines(template)) ==> k in Given(template, output);
  }

  /** A second run without flags on the written file finds every port set, so it succeeds, and whatever
      it leaves is what was there: it writes the same text. */
  lemma SecondInitReproduces(keys: Keys, read: Reader, template: string, output: Option<string>, flags: Flags, values: Env, again: Env)
    requires WellNamed(keys) && Initialized(keys, read, Given(template, output), output, flags, values)
    ensures var file := Some(Rendered(template, values));
      && PortsSet(read, Given(template, file), keys.ports)
      && (Initialized(keys, read, Given(template, file), file, NO_FLAGS, again) ==>
            again == values && Rendered(template, again) == file.value)
  {
    var file := Some(Rendered(template, values));
    InitRoundTrip(keys, read, template, output, flags, values);
    FileCoversTemplate(template, output, values);
    forall k | k in keys.ports
      ensures ValueOr(values, k) != "" && UsablePort(read, values[k])
    {
      assert PortFilled(read, Given(template, output), flags, values, k);
      if n: nat :| values[k] == Decimal(n) { DecimalIsClean(n); }
    }
    if Initialized(keys, read, values, file, NO_FLAGS, again) {
      NothingToFill(keys, read, Given(template, output), output, flags, values, file, again);
    }
  }

  lemma NothingToFill(keys: Keys, read: Reader, given: Env, output: Option<string>, flags: Flags, values: Env, file: Option<string>, again: Env)
    requires Initialized(keys, read, given, output, flags, values)
    requires Initialized(keys, read, values, file, NO_FLAGS, again)
    requires forall k :: k in keys.ports ==> ValueOr(values, k) != ""
    ensures again == values
  {
    forall k | k in values
      ensures k in again && again[k] == values[k]
    {
      if k in keys.ports { assert PortFilled(read, values, NO_FLAGS, again, k); }
      else if k in keys.secrets {
        assert SecretFilled(given, flags, output, values, k);
        assert SecretFilled(values, NO_FLAGS, file, again, k);
      }
    }
  }
}
