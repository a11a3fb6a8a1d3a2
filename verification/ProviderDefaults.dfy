/** The registry of built-in providers, and filling a user's configuration from
    it (crates/bitrouter-providers/src/builtin.rs, crates/bitrouter-providers/src/apply.rs). */
module ProviderDefaults {
  import opened Wrappers
  import opened ProtocolMapping
  import opened PatternMap

  datatype Protocol = ChatCompletions | Responses | Messages | OtherProtocol(name: string)

  type ProtocolList = seq<Protocol>

  datatype AuthScheme =
    | Bearer(env: string)
    | Header(header: string, env: string, extraHeaders: map<string, string>)
    | Oauth(handler: string)
    | Native(handler: string)

  /** The compiled-in description of a provider. */
  datatype ProviderEntry = ProviderEntry(id: string, displayName: string, apiBase: string,
                                         apiProtocol: Mapping<ProtocolList>,
                                         protocolEndpoints: map<string, string>, auth: AuthScheme, docUrl: string)

  datatype Account = Account(apiKey: string, apiBase: string, accountLabel: string)

  datatype ProviderConfig = ProviderConfig(apiBase: string, apiKey: string, apiProtocol: Entries<ProtocolList>,
                                           protocolEndpoints: map<string, string>, models: seq<string>,
                                           autoDiscover: bool, active: bool, tags: seq<string>,
                                           derives: Option<string>, accounts: seq<Account>)

  const DEFAULT_PROVIDER: ProviderConfig := ProviderConfig("", "", [], map[], [], false, true, [], None, [])

  /** The value of an environment variable, override map first. */
  type Env = string -> Option<string>

  function EnvVar(auth: AuthScheme): Option<string> {
    match auth
    case Bearer(env) => Some(env)
    case Header(_, env, _) => Some(env)
    case Oauth(_) => None
    case Native(_) => None
  }

  /** The credential the environment holds for a scheme, if it is not empty. */
  function Credential(env: Env, auth: AuthScheme): Option<string> {
    if EnvVar(auth).Some? && env(EnvVar(auth).value).Some? && env(EnvVar(auth).value).value != ""
    then env(EnvVar(auth).value) else None
  }

  // ---------------------------------------------------------------- registry

  predicate UniqueIds(registry: seq<ProviderEntry>) {
    forall i, j :: 0 <= i < j < |registry| ==> registry[i].id != registry[j].id
  }

  function FindEntry(registry: seq<ProviderEntry>, id: string): Option<ProviderEntry> {
    if registry == [] then None
    else if registry[0].id == id then Some(registry[0])
    else FindEntry(registry[1..], id)
  }

  datatype LoadError = ParseFailed(id: string) | IdMismatch(declared: string, expected: string)
                       | DuplicateId(id: string)

  type Toml = string -> Option<ProviderEntry>

  /** What is wrong with file `k`: it does not parse, declares another id than its
      name, or an earlier file has the same name. */
  function FileError(parse: Toml, files: seq<(string, string)>, k: nat): Option<LoadError>
    requires k < |files|
  {
    var (stem, body) := files[k];
    if parse(body).None? then Some(ParseFailed(stem))
    else if parse(body).value.id != stem then Some(IdMismatch(parse(body).value.id, stem))
    else if exists j :: 0 <= j < k && files[j].0 == stem then Some(DuplicateId(stem))
    else None
  }

  /** Parses the embedded files one by one; the first with an error decides, and
      without one every file gives its entry, under different ids. */
  method LoadEmbedded(parse: Toml, files: seq<(string, string)>) returns (r: Result<seq<ProviderEntry>, LoadError>)
    ensures r.Ok? <==> forall k :: 0 <= k < |files| ==> FileError(parse, files, k).None?
    ensures r.Ok? ==> UniqueIds(r.value) && |r.value| == |files|
    ensures r.Ok? ==> forall k :: 0 <= k < |files| ==>
            parse(files[k].1) == Some(r.value[k]) && r.value[k].id == files[k].0
    ensures r.Err? ==> exists k :: && 0 <= k < |files| && FileError(parse, files, k) == Some(r.error)
                                   && forall j :: 0 <= j < k ==> FileError(parse, files, j).None?
  {
    var out: seq<ProviderEntry> := [];
    for i := 0 to |files|
      invariant |out| == i && UniqueIds(out)
      invariant forall k :: 0 <= k < i ==> FileError(parse, files, k).None?
      invariant forall k :: 0 <= k < i ==> parse(files[k].1) == Some(out[k]) && out[k].id == files[k].0
    {
      var (stem, body) := files[i];
      var entry := parse(body);
      if entry.None? {
        assert FileError(parse, files, i) == Some(ParseFailed(stem));
        return Err(ParseFailed(stem));
      }
      if entry.value.id != stem {
        assert FileError(parse, files, i) == Some(IdMismatch(entry.value.id, stem));
        return Err(IdMismatch(entry.value.id, stem));
      }
      if exists k :: 0 <= k < |out| && out[k].id == entry.value.id {
        ghost var k :| 0 <= k < |out| && out[k].id == entry.value.id;
        assert files[k].0 == stem;
        assert FileError(parse, files, i) == Some(DuplicateId(stem));
        return Err(DuplicateId(entry.value.id));
      }
      forall j | 0 <= j < i ensures files[j].0 != stem {
        assert out[j].id == files[j].0;
      }
      out := out + [entry.value];
    }
    return Ok(out);
  }

  /** With different ids, every entry is found under its own. */
  lemma {:induction false} FindsEveryEntry(registry: seq<ProviderEntry>, k: nat)
    requires UniqueIds(registry) && k < |registry|
    ensures FindEntry(registry, registry[k].id) == Some(registry[k])
  {
    if k > 0 {
      FindsEveryEntry(registry[1..], k - 1);
    }
  }

  lemma {:induction false} FoundIsThere(registry: seq<ProviderEntry>, id: string)
    ensures match FindEntry(registry, id)
            case Some(e) => e in registry && e.id == id
            case None => forall k :: 0 <= k < |registry| ==> registry[k].id != id
  {
    if registry != [] {
      FoundIsThere(registry[1..], id);
    }
  }

  // ---------------------------------------------------------- filling a provider

  /** A provider with its empty fields taken from the built-in entry. */
  function Filled(e: ProviderEntry, env: Env, p: ProviderConfig): ProviderConfig {
    var q := p.(apiBase := if p.apiBase == "" then e.apiBase else p.apiBase,
                apiProtocol := if p.apiProtocol == [] then Translated(e.apiProtocol) else p.apiProtocol,
                protocolEndpoints := if p.protocolEndpoints == map[] then e.protocolEndpoints else p.protocolEndpoints);
    if p.accounts != [] then q
    else
      var key := if p.apiKey == "" && Credential(env, e.auth).Some? then Credential(env, e.auth).value else p.apiKey;
      q.(apiKey := key, active := p.active && (key != "" || EnvVar(e.auth).None?))
  }

  function FilledFrom(registry: seq<ProviderEntry>, env: Env, id: string, p: ProviderConfig): ProviderConfig {
    match FindEntry(registry, id)
    case Some(e) => Filled(e, env, p)
    case None => p
  }

  /** Fills one provider field by field. */
  method FillProvider(builtin: ProviderEntry, env: Env, provider: ProviderConfig) returns (p: ProviderConfig)
    ensures p == Filled(builtin, env, provider)
  {
    p := provider;
    if p.apiBase == "" {
      p := p.(apiBase := builtin.apiBase);
    }
    if p.apiProtocol == [] {
      var translated := ToPatternMap(builtin.apiProtocol);
      p := p.(apiProtocol := translated);
    }
    if p.protocolEndpoints == map[] && builtin.protocolEndpoints != map[] {
      p := p.(protocolEndpoints := builtin.protocolEndpoints);
    }
    if p.accounts != [] {
      return;
    }
    var credential := Credential(env, builtin.auth);
    if p.apiKey == "" && credential.Some? {
      p := p.(apiKey := credential.value);
    }
    if p.apiKey == "" && EnvVar(builtin.auth).Some? {
      p := p.(active := false);
    }
  }

  type Providers = map<string, ProviderConfig>

  function AllFilled(registry: seq<ProviderEntry>, env: Env, providers: Providers): Providers {
    map id | id in providers :: FilledFrom(registry, env, id, providers[id])
  }

  class Config {
    var listen: string
    var skipAuth: bool
    var inheritDefaults: bool
    var providers: Providers

    constructor (listen: string, skipAuth: bool, inheritDefaults: bool, providers: Providers)
      ensures this.listen == listen && this.skipAuth == skipAuth && this.inheritDefaults == inheritDefaults
      ensures this.providers == providers
    {
      this.listen, this.skipAuth, this.inheritDefaults, this.providers := listen, skipAuth, inheritDefaults, providers;
    }

    /** Visits the providers in any order and fills each that a built-in matches. */
    method ApplyBuiltinDefaults(registry: seq<ProviderEntry>, env: Env)
      modifies this`providers
      ensures providers == if inheritDefaults then AllFilled(registry, env, old(providers)) else old(providers)
    {
      if !inheritDefaults {
        return;
      }
      var remaining := providers.Keys;
      while remaining != {}
        invariant remaining <= providers.Keys == old(providers).Keys
        invariant forall id :: id in old(providers) ==>
                                 providers[id] == if id in remaining then old(providers)[id]
                                                  else FilledFrom(registry, env, id, old(providers)[id])
        decreases remaining
      {
        var id :| id in remaining;
        var builtin := FindEntry(registry, id);
        if builtin.Some? {
          var provider := FillProvider(builtin.value, env, providers[id]);
          providers := providers[id := provider];
        }
        remaining := remaining - {id};
      }
    }
  }

  /** The configuration used when there is none: every built-in whose credential
      is in the environment, as an empty entry that discovers its models. */
  method ZeroConfig(registry: seq<ProviderEntry>, env: Env) returns (config: Config)
    ensures fresh(config) && config.listen == "127.0.0.1:4356" && config.skipAuth && config.inheritDefaults
    ensures AutoEnabled(registry, env, config.providers)
  {
    var providers: Providers := map[];
    for i := 0 to |registry|
      invariant AutoEnabled(registry[..i], env, providers)
    {
      AutoEnabledNext(registry, env, i, providers);
      if Credential(env, registry[i].auth).Some? {
        providers := providers[registry[i].id := DEFAULT_PROVIDER.(autoDiscover := true)];
      }
    }
    assert registry[..|registry|] == registry;
    config := new Config("127.0.0.1:4356", true, true, providers);
  }

  /** Exactly the ids of entries with a credential, each with default fields. */
  ghost predicate AutoEnabled(registry: seq<ProviderEntry>, env: Env, providers: Providers) {
    && (forall id :: id in providers <==> HasCredential(registry, env, id))
    && (forall id :: id in providers ==> providers[id] == DEFAULT_PROVIDER.(autoDiscover := true))
  }

  ghost predicate HasCredential(registry: seq<ProviderEntry>, env: Env, id: string) {
    exists e :: e in registry && e.id == id && Credential(env, e.auth).Some?
  }

  lemma {:induction false} AutoEnabledNext(registry: seq<ProviderEntry>, env: Env, i: nat, providers: Providers)
    requires i < |registry| && AutoEnabled(registry[..i], env, providers)
    ensures AutoEnabled(registry[..i + 1], env,
                        if Credential(env, registry[i].auth).Some?
                        then providers[registry[i].id := DEFAULT_PROVIDER.(autoDiscover := true)] else providers)
  {
    assert registry[..i + 1] == registry[..i] + [registry[i]];
    forall id
      ensures HasCredential(registry[..i + 1], env, id) <==>
              HasCredential(registry[..i], env, id) || (registry[i].id == id && Credential(env, registry[i].auth).Some?)
    {
      if registry[i].id == id && Credential(env, registry[i].auth).Some? {
        assert registry[i] in registry[..i + 1];
      }
      if HasCredential(registry[..i], env, id) {
        var e :| e in registry[..i] && e.id == id && Credential(env, e.auth).Some?;
        assert e in registry[..i + 1];
      }
    }
  }

  // --------------------------------------------------------------- properties

  /** For a fixed environment, filling a filled provider changes nothing. */
  lemma {:induction false} FilledTwice(e: ProviderEntry, env: Env, p: ProviderConfig)
    ensures Filled(e, env, Filled(e, env, p)) == Filled(e, env, p)
  {
    RefillIff(e, env, env, p);
  }

  /** Applying the defaults twice is applying them once. */
  lemma {:induction false} ApplyIsIdempotent(registry: seq<ProviderEntry>, env: Env, providers: Providers)
    ensures AllFilled(registry, env, AllFilled(registry, env, providers)) == AllFilled(registry, env, providers)
  {
    forall id | id in providers
      ensures FilledFrom(registry, env, id, FilledFrom(registry, env, id, providers[id])) ==
              FilledFrom(registry, env, id, providers[id])
    {
      if FindEntry(registry, id).Some? {
        FilledTwice(FindEntry(registry, id).value, env, providers[id]);
      }
    }
  }

  /** What the user wrote stays: non-empty fields are kept, the fields that have
      no default are never touched, and no provider is switched on. */
  ghost predicate RespectsUser(p: ProviderConfig, q: ProviderConfig) {
    && (p.apiBase != "" ==> q.apiBase == p.apiBase)
    && (p.apiKey != "" ==> q.apiKey == p.apiKey)
    && (p.apiProtocol != [] ==> q.apiProtocol == p.apiProtocol)
    && (p.protocolEndpoints != map[] ==> q.protocolEndpoints == p.protocolEndpoints)
    && (p.accounts != [] ==> q.apiKey == p.apiKey && q.active == p.active)
    && (q.active ==> p.active)
    && q.models == p.models && q.autoDiscover == p.autoDiscover && q.tags == p.tags && q.derives == p.derives
    && q.accounts == p.accounts
  }

  lemma {:induction false} ApplyRespectsUser(registry: seq<ProviderEntry>, env: Env, providers: Providers)
    ensures AllFilled(registry, env, providers).Keys == providers.Keys
    ensures forall id :: id in providers ==> RespectsUser(providers[id], AllFilled(registry, env, providers)[id])
    ensures forall id :: id in providers && (forall k :: 0 <= k < |registry| ==> registry[k].id != id) ==>
                           AllFilled(registry, env, providers)[id] == providers[id]
  {
    forall id | id in providers && (forall k :: 0 <= k < |registry| ==> registry[k].id != id)
      ensures FindEntry(registry, id).None?
    {
      FoundIsThere(registry, id);
    }
  }

  /** A provider without accounts is active afterwards exactly when it was and it
      has a key by then or needs none. */
  lemma {:induction false} ActiveIffUsable(e: ProviderEntry, env: Env, p: ProviderConfig)
    requires p.accounts == []
    ensures Filled(e, env, p).active <==>
            p.active && (p.apiKey != "" || Credential(env, e.auth).Some? || EnvVar(e.auth).None?)
    ensures Filled(e, env, p).active && EnvVar(e.auth).Some? ==> Filled(e, env, p).apiKey != ""
  {
  }

  /** Every auto-enabled provider ends up active, with its credential from the
      environment as its key. */
  lemma {:induction false} ZeroConfigIsUsable(registry: seq<ProviderEntry>, env: Env, providers: Providers, id: string)
    requires UniqueIds(registry) && AutoEnabled(registry, env, providers) && id in providers
    ensures var p := AllFilled(registry, env, providers)[id];
            && p.active && p.apiKey != ""
            && exists e :: && e in registry && e.id == id && EnvVar(e.auth).Some?
                           && env(EnvVar(e.auth).value) == Some(p.apiKey)
  {
    var e :| e in registry && e.id == id && Credential(env, e.auth).Some?;
    var k :| 0 <= k < |registry| && registry[k] == e;
    FindsEveryEntry(registry, k);
  }

  /** With or without different ids: an auto-enabled provider ends up active exactly
      when the entry that is found under its id has a credential or needs none. */
  lemma {:induction false} AutoEnabledIsActiveIff(registry: seq<ProviderEntry>, env: Env, providers: Providers,
                                                  id: string)
    requires AutoEnabled(registry, env, providers) && id in providers
    ensures FindEntry(registry, id).Some?
    ensures var auth := FindEntry(registry, id).value.auth;
            AllFilled(registry, env, providers)[id].active <==> Credential(env, auth).Some? || EnvVar(auth).None?
  {
    var e :| e in registry && e.id == id && Credential(env, e.auth).Some?;
    FoundIsThere(registry, id);
  }

  /** The environment does not matter to what filling it again would do: there are
      accounts or a key of the user's own, both environments hold the same
      credential, or the first held none for a provider that is off anyway. */
  predicate Refills(e: ProviderEntry, before: Env, after: Env, p: ProviderConfig) {
    || p.accounts != [] || p.apiKey != ""
    || Credential(before, e.auth) == Credential(after, e.auth)
    || (Credential(before, e.auth).None? && !p.active)
  }

  /** Filling under one environment and again under another is filling under the
      second, exactly then. */
  lemma {:induction false} RefillIff(e: ProviderEntry, before: Env, after: Env, p: ProviderConfig)
    ensures Filled(e, after, Filled(e, before, p)) == Filled(e, after, p) <==> Refills(e, before, after, p)
  {
    var q := Filled(e, before, p);
    if p.accounts == [] && p.apiKey == "" && Credential(before, e.auth).Some? {
      assert q.apiKey == Credential(before, e.auth).value;
    }
  }

  /** The same for a whole configuration. */
  lemma {:induction false} ApplyAgainIff(registry: seq<ProviderEntry>, before: Env, after: Env, providers: Providers)
    ensures AllFilled(registry, after, AllFilled(registry, before, providers)) == AllFilled(registry, after, providers)
            <==> forall id :: id in providers && FindEntry(registry, id).Some? ==>
                                Refills(FindEntry(registry, id).value, before, after, providers[id])
  {
    var twice, once := AllFilled(registry, after, AllFilled(registry, before, providers)),
                       AllFilled(registry, after, providers);
    forall id | id in providers && FindEntry(registry, id).Some?
      ensures twice[id] == once[id] <==> Refills(FindEntry(registry, id).value, before, after, providers[id])
    {
      RefillIff(FindEntry(registry, id).value, before, after, providers[id]);
    }
    if forall id :: id in providers && FindEntry(registry, id).Some? ==>
                      Refills(FindEntry(registry, id).value, before, after, providers[id]) {
      forall id | id in providers ensures twice[id] == once[id] {
        if FindEntry(registry, id).Some? {
          assert Refills(FindEntry(registry, id).value, before, after, providers[id]);
        }
      }
      assert twice == once;
    }
  }

  /** One way to fail: a provider switched off for want of a key gets the key
      later, and stays off. */
  lemma {:induction false} LateKeyStaysOff(e: ProviderEntry, before: Env, after: Env, p: ProviderConfig)
    requires p.apiKey == "" && p.accounts == [] && EnvVar(e.auth).Some?
    requires Credential(before, e.auth).None? && Credential(after, e.auth).Some?
    ensures var q := Filled(e, after, Filled(e, before, p));
            q.apiKey == Credential(after, e.auth).value && !q.active
    ensures p.active ==> Filled(e, after, p).active
    ensures Filled(e, after, Filled(e, before, p)) == Filled(e, after, p) <==> !p.active
  {
    RefillIff(e, before, after, p);
  }

  /** The other: a key taken from the environment stays when it is changed or withdrawn there. */
  lemma {:induction false} OldKeyStays(e: ProviderEntry, before: Env, after: Env, p: ProviderConfig)
    requires p.apiKey == "" && p.accounts == [] && Credential(before, e.auth).Some?
    ensures Filled(e, after, Filled(e, before, p)).apiKey == Credential(before, e.auth).value
    ensures Filled(e, after, Filled(e, before, p)) == Filled(e, after, p) <==>
            Credential(after, e.auth) == Credential(before, e.auth)
  {
    RefillIff(e, before, after, p);
  }
}
