// Backend transports: preloaded once at start, looked up for every request.
module Routes {
  import opened Wrappers
  import opened Mounts
  import opened C = Config
  import opened Reload

  // `T` is a loaded TLS policy.
  datatype HTTPRoutes<T> = HTTPRoutes(secureConnectors: map<Backend, T>, transports: seq<T>)

  datatype Connector<T> = Ftp | Default | Secure(loaded: T)

  datatype LookupError = BadTarget | NoTransport

  // ---- Preloading ----

  // Loads each distinct policy of the starting configuration once; the first
  // policy that fails to load stops the start.
  method LoadPolicies<T>(load: Backend -> Option<T>, c: C.Config) returns (r: Option<map<Backend, Option<T>>>)
    ensures r.Some? <==> forall p :: p in BackendPolicies(c.mounts) ==> load(p).Some?
    ensures r.Some? ==> r.value.Keys == BackendPolicies(c.mounts) && forall p :: p in r.value ==> r.value[p] == load(p)
  {
    var policies: map<Backend, Option<T>> := map[];
    for i := 0 to |c.mounts|
      invariant policies.Keys == BackendPolicies(c.mounts[..i])
      invariant forall p :: p in policies ==> policies[p] == load(p) && load(p).Some?
    {
      assert c.mounts[..i + 1] == c.mounts[..i] + [c.mounts[i]];
      if c.mounts[i].tls.Some? {
        var policy := c.mounts[i].tls.value;
        if policy !in policies {
          var loaded := load(policy);
          if loaded.None? {
            assert c.mounts[i] in c.mounts;
            return None;
          }
          policies := policies[policy := loaded];
        }
      }
    }
    assert c.mounts[..|c.mounts|] == c.mounts;
    return Some(policies);
  }

  // One transport for each policy that is present; absent ones are skipped.
  method NewHTTPRoutes<T>(policies: map<Backend, Option<T>>) returns (r: HTTPRoutes<T>)
    ensures forall p :: p in r.secureConnectors <==> p in policies && policies[p].Some?
    ensures forall p :: p in r.secureConnectors ==> policies[p] == Some(r.secureConnectors[p])
    ensures |r.transports| == |r.secureConnectors|
    ensures forall p :: p in r.secureConnectors ==> r.secureConnectors[p] in r.transports
  {
    r := HTTPRoutes(map[], []);
    var pending := policies.Keys;
    while pending != {}
      invariant pending <= policies.Keys
      invariant forall p :: p in r.secureConnectors <==> p in policies && p !in pending && policies[p].Some?
      invariant forall p :: p in r.secureConnectors ==> policies[p] == Some(r.secureConnectors[p])
      invariant |r.transports| == |r.secureConnectors|
      invariant forall p :: p in r.secureConnectors ==> r.secureConnectors[p] in r.transports
    {
      var policy :| policy in pending;
      pending := pending - {policy};
      if policies[policy].Some? {
        var loaded := policies[policy].value;
        r := HTTPRoutes(r.secureConnectors[policy := loaded], r.transports + [loaded]);
      }
    }
  }

  method Prepare<T>(load: Backend -> Option<T>, c: C.Config) returns (r: Option<HTTPRoutes<T>>)
    ensures r.Some? <==> forall p :: p in BackendPolicies(c.mounts) ==> load(p).Some?
    ensures r.Some? ==> PreparedFor(load, c, r.value)
  {
    var policies := LoadPolicies(load, c);
    if policies.None? {
      return None;
    }
    var routes := NewHTTPRoutes(policies.value);
    return Some(routes);
  }

  // The routes hold the loaded form of exactly the policies of `c`.
  ghost predicate PreparedFor<T>(load: Backend -> Option<T>, c: C.Config, routes: HTTPRoutes<T>) {
    && routes.secureConnectors.Keys == BackendPolicies(c.mounts)
    && forall p :: p in routes.secureConnectors ==> load(p) == Some(routes.secureConnectors[p])
  }

  // ---- Lookup ----

  function ConnectorForMount<T>(lib: C.Library, routes: HTTPRoutes<T>, m: Mount): Result<Connector<T>, LookupError> {
    var scheme := lib.targetScheme(m.target);
    if scheme.None? then Err(BadTarget)
    else if lib.policy.equalFold(scheme.value, "ftp") then Ok(Ftp)
    else if m.tls.None? then Ok(Default)
    else if m.tls.value !in routes.secureConnectors then Err(NoTransport)
    else Ok(Secure(routes.secureConnectors[m.tls.value]))
  }

  // The scheme of the target comes first, then the mount's TLS policy.
  lemma LookupExactly<T>(lib: C.Library, routes: HTTPRoutes<T>, m: Mount)
    ensures var found, scheme := ConnectorForMount(lib, routes, m), lib.targetScheme(m.target);
      var ftp := scheme.Some? && lib.policy.equalFold(scheme.value, "ftp");
      && (found == Err(BadTarget) <==> scheme == None)
      && (found == Ok(Ftp) <==> ftp)
      && (found == Ok(Default) <==> scheme.Some? && !ftp && m.tls == None)
      && (found == Err(NoTransport) <==>
            scheme.Some? && !ftp && m.tls.Some? && m.tls.value !in routes.secureConnectors)
      && (found.Ok? && found.value.Secure? <==>
            scheme.Some? && !ftp && m.tls.Some? && m.tls.value in routes.secureConnectors)
      && (found.Ok? && found.value.Secure? ==> found.value.loaded == routes.secureConnectors[m.tls.value])
  {
  }

  // Case folding never identifies these two scheme names.
  ghost predicate FoldingSeparates(lib: C.Library) {
    forall s :: !(lib.policy.equalFold(s, "ftp") && lib.policy.equalFold(s, "https"))
  }

  // Routes prepared from the first configuration serve every mount of every
  // snapshot the process ever publishes, and a mount with a TLS policy gets
  // the transport loaded for exactly that policy.
  lemma LookupNeverFails<T>(
    lib: C.Library, supported: C.Config -> bool, load: Backend -> Option<T>, routes: HTTPRoutes<T>,
    history: seq<C.Config>, i: nat, m: Mount)
    requires FoldingSeparates(lib)
    requires PublishedHistory(lib, supported, history) && i < |history| && m in history[i].mounts
    requires PreparedFor(load, history[0], routes)
    ensures ConnectorForMount(lib, routes, m).Ok?
    ensures m.tls.Some? ==>
      load(m.tls.value).Some? && ConnectorForMount(lib, routes, m).value == Secure(load(m.tls.value).value)
    ensures m.tls.None? ==> !ConnectorForMount(lib, routes, m).value.Secure?
  {
    NothingFixedEverChanges(lib, supported, history, i);
    assert MountValid(lib, m);
    assert m.tls.Some? ==> m.tls.value in BackendPolicies(history[i].mounts);
  }

  // No transport is idle weight: each serves some mount of every snapshot.
  lemma EveryTransportIsUsed<T>(
    lib: C.Library, supported: C.Config -> bool, load: Backend -> Option<T>, routes: HTTPRoutes<T>,
    history: seq<C.Config>, i: nat, p: Backend)
    requires FoldingSeparates(lib)
    requires PublishedHistory(lib, supported, history) && i < |history|
    requires PreparedFor(load, history[0], routes) && p in routes.secureConnectors
    ensures exists m ::
      m in history[i].mounts && ConnectorForMount(lib, routes, m) == Ok(Secure(routes.secureConnectors[p]))
  {
    NothingFixedEverChanges(lib, supported, history, i);
    var m :| m in history[i].mounts && m.tls == Some(p);
    LookupNeverFails(lib, supported, load, routes, history, i, m);
  }
}
