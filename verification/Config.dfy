// The gateway configuration and its validation.
module Config {
  import opened Wrappers
  import opened Decimal
  import opened Mounts
  import Policy

  datatype Frontend = Frontend(certificateFile: string, privateKeyFile: string, minimumVersion: string)

  datatype Server = Server(
    name: string,
    protocol: string,
    listen: string,
    clientIPHeader: string,
    trustedProxies: seq<string>,
    tls: Option<Frontend>)

  datatype Config = Config(servers: seq<Server>, mounts: seq<Mount>, policies: seq<Policy.Rule>)

  // Library functions validation calls, and the checks it delegates.
  datatype Library = Library(
    policy: Policy.Library,
    frontendValid: Frontend -> bool,
    targetScheme: string -> Option<string>,  // the scheme, when url.Parse accepts
    mountSyntaxValid: Mount -> bool)         // what else Mount.Validate checks

  // ---- What a valid configuration is ----

  predicate TokenCharacter(c: char) {
    'a' <= c <= 'z' || 'A' <= c <= 'Z' || '0' <= c <= '9' || c in "!#$%&'*+-.^_`|~"
  }

  predicate ServerValid(lib: Library, s: Server) {
    && TrimSpace(s.name) != "" && TrimSpace(s.protocol) != "" && TrimSpace(s.listen) != ""
    && (s.clientIPHeader != "" <==> s.trustedProxies != [])
    && (forall c :: c in s.clientIPHeader ==> TokenCharacter(c))
    && (forall p :: p in s.trustedProxies ==> lib.policy.parsesPrefix(p))
    && (s.tls.Some? ==> lib.frontendValid(s.tls.value))
  }

  predicate MountValid(lib: Library, m: Mount) {
    && lib.mountSyntaxValid(m)
    && lib.targetScheme(m.target).Some?
    && (m.tls.Some? ==> lib.policy.equalFold(lib.targetScheme(m.target).value, "https"))
  }

  // The scopes of a mount name servers that exist.
  ghost predicate ScopeValid(lib: Library, servers: seq<Server>, m: Mount) {
    if Policy.Any(m.server) then
      Policy.Any(m.protocol) || exists s :: s in servers && lib.policy.equalFold(s.protocol, m.protocol)
    else
      exists s :: s in servers && s.name == m.server
        && (Policy.Any(m.protocol) || lib.policy.equalFold(s.protocol, m.protocol))
  }

  ghost predicate NamesUnique(servers: seq<Server>) {
    forall i, j :: 0 <= i < j < |servers| ==> servers[i].name != servers[j].name
  }

  ghost predicate ListensUnique(servers: seq<Server>) {
    forall i, j :: 0 <= i < j < |servers| ==> servers[i].listen != servers[j].listen
  }

  ghost predicate Valid(lib: Library, c: Config) {
    && c.servers != []
    && (forall s :: s in c.servers ==> ServerValid(lib, s))
    && NamesUnique(c.servers) && ListensUnique(c.servers)
    && (forall m :: m in c.mounts ==> MountValid(lib, m) && ScopeValid(lib, c.servers, m))
    && (forall r :: r in c.policies ==> Policy.RuleValid(lib.policy, r))
  }

  // ---- Validate ----

  method ValidHeaderName(name: string) returns (ok: bool)
    ensures ok <==> name != "" && forall c :: c in name ==> TokenCharacter(c)
  {
    for i := 0 to |name|
      invariant forall j :: 0 <= j < i ==> TokenCharacter(name[j])
    {
      if !TokenCharacter(name[i]) {
        return false;
      }
    }
    return name != "";
  }

  method CheckServer(lib: Library, server: Server) returns (ok: bool)
    ensures ok <==> ServerValid(lib, server)
  {
    if TrimSpace(server.name) == "" || TrimSpace(server.protocol) == "" || TrimSpace(server.listen) == "" {
      return false;
    }
    if server.clientIPHeader != "" && server.trustedProxies == [] {
      return false;
    }
    if server.trustedProxies != [] && server.clientIPHeader == "" {
      return false;
    }
    if server.clientIPHeader != "" {
      var header := ValidHeaderName(server.clientIPHeader);
      if !header {
        return false;
      }
    }
    for i := 0 to |server.trustedProxies|
      invariant forall j :: 0 <= j < i ==> lib.policy.parsesPrefix(server.trustedProxies[j])
    {
      if !lib.policy.parsesPrefix(server.trustedProxies[i]) {
        return false;
      }
    }
    return server.tls.None? || lib.frontendValid(server.tls.value);
  }

  method CheckServers(lib: Library, servers: seq<Server>) returns (ok: bool)
    ensures ok <==> (forall s :: s in servers ==> ServerValid(lib, s)) && NamesUnique(servers) && ListensUnique(servers)
  {
    hide ServerValid;
    var seen: map<string, ()>, seenListen: map<string, ()> := map[], map[];
    for i := 0 to |servers|
      invariant forall j :: 0 <= j < i ==> ServerValid(lib, servers[j])
      invariant NamesUnique(servers[..i]) && ListensUnique(servers[..i])
      invariant forall n :: n in seen <==> exists j :: 0 <= j < i && servers[j].name == n
      invariant forall n :: n in seenListen <==> exists j :: 0 <= j < i && servers[j].listen == n
    {
      var server := servers[i];
      assert server in servers;
      var serverOk := CheckServer(lib, server);
      if !serverOk || server.name in seen || server.listen in seenListen {
        return false;
      }
      seen := seen[server.name := ()];
      seenListen := seenListen[server.listen := ()];
      assert forall j :: 0 <= j < i ==> servers[..i + 1][j] == servers[..i][j];
    }
    assert servers[..|servers|] == servers;
    return true;
  }

  method CheckScope(lib: Library, servers: seq<Server>, mapping: Mount) returns (ok: bool)
    requires NamesUnique(servers)
    ensures ok <==> ScopeValid(lib, servers, mapping)
  {
    if !Policy.Any(mapping.server) {
      for i := 0 to |servers|
        invariant forall j :: 0 <= j < i ==> servers[j].name != mapping.server
      {
        if servers[i].name == mapping.server {
          assert servers[i] in servers;
          return Policy.Any(mapping.protocol) || lib.policy.equalFold(servers[i].protocol, mapping.protocol);
        }
      }
      return false;
    }
    if Policy.Any(mapping.protocol) {
      return true;
    }
    var foundProtocol := false;
    for i := 0 to |servers|
      invariant foundProtocol <==> exists j :: 0 <= j < i && lib.policy.equalFold(servers[j].protocol, mapping.protocol)
    {
      foundProtocol := foundProtocol || lib.policy.equalFold(servers[i].protocol, mapping.protocol);
    }
    return foundProtocol;
  }

  // The target and TLS checks of a mount; its syntax is checked elsewhere.
  method CheckMount(lib: Library, m: Mount) returns (ok: bool)
    ensures ok <==> MountValid(lib, m)
  {
    if !lib.mountSyntaxValid(m) {
      return false;
    }
    var scheme := lib.targetScheme(m.target);
    if scheme.None? {
      return false;
    }
    if m.tls.Some? && !lib.policy.equalFold(scheme.value, "https") {
      return false;
    }
    return true;
  }

  // A token of section 5.6.2 of RFC 9110: visible ASCII without the delimiters.
  lemma TokenIsVisible(c: char)
    ensures TokenCharacter(c) <==> '!' <= c <= '~' && c !in "\"(),/:;<=>?@[\\]{}"
  {
    if '!' <= c <= '~' {
      assert c in "!#$%&'*+-.^_`|~" || '0' <= c <= '9' || 'A' <= c <= 'Z' || 'a' <= c <= 'z'
        || c in "\"(),/:;<=>?@[\\]{}";
    }
  }

  method Validate(lib: Library, c: Config) returns (ok: bool)
    ensures ok <==> Valid(lib, c)
  {
    hide ServerValid, MountValid, ScopeValid, Policy.RuleValid;
    if c.servers == [] {
      return false;
    }
    var servers := CheckServers(lib, c.servers);
    if !servers {
      return false;
    }
    for i := 0 to |c.mounts|
      invariant forall j :: 0 <= j < i ==> MountValid(lib, c.mounts[j]) && ScopeValid(lib, c.servers, c.mounts[j])
    {
      var scope := CheckScope(lib, c.servers, c.mounts[i]);
      assert c.mounts[i] in c.mounts;
      var mapping := CheckMount(lib, c.mounts[i]);
      if !mapping || !scope {
        return false;
      }
    }
    for i := 0 to |c.policies|
      invariant forall j :: 0 <= j < i ==> Policy.RuleValid(lib.policy, c.policies[j])
    {
      assert c.policies[i] in c.policies;
      var rule := Policy.CheckRule(lib.policy, c.policies[i]);
      if !rule {
        return false;
      }
    }
    return true;
  }
}
