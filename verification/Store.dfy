// The configuration store: a pointer to a private deep copy, replaced whole.
//
// Configurations live on the heap as they do in the program: slices are
// arrays and TLS policies are pointers, so that copying one record shares
// what it points to. `Value` reads such a configuration as plain data.
module Store {
  import opened Wrappers
  import opened Mounts
  import opened C = Config
  import Policy

  class FrontendRef {
    var value: Frontend
    constructor (value: Frontend)
      ensures this.value == value
    {
      this.value := value;
    }
  }

  class BackendRef {
    var value: Backend
    constructor (value: Backend)
      ensures this.value == value
    {
      this.value := value;
    }
  }

  datatype ServerRec = ServerRec(
    name: string,
    protocol: string,
    listen: string,
    clientIPHeader: string,
    trustedProxies: array<string>,
    tls: FrontendRef?)
  {
    function Value(): Server
      reads trustedProxies, tls
    {
      Server(name, protocol, listen, clientIPHeader, trustedProxies[..], if tls == null then None else Some(tls.value))
    }
  }

  datatype MountRec = MountRec(
    path: string,
    source: string,
    target: string,
    priority: int,
    server: string,
    protocol: string,
    tls: BackendRef?)
  {
    function Value(): Mount
      reads tls
    {
      Mount(path, source, target, priority, server, protocol, if tls == null then None else Some(tls.value))
    }
  }

  ghost function ServersFootprint(ss: seq<ServerRec>): set<object> {
    (set i | 0 <= i < |ss| :: ss[i].trustedProxies as object) + (set i | 0 <= i < |ss| &&
        ss[i].tls != null :: ss[i].tls as object)
  }

  ghost function MountsFootprint(ms: seq<MountRec>): set<object> {
    set i | 0 <= i < |ms| && ms[i].tls != null :: ms[i].tls as object
  }

  // No two servers share a proxy list or a TLS policy object.
  ghost predicate ServersSeparate(ss: seq<ServerRec>) {
    forall i, j :: 0 <= i < j < |ss| ==>
      ss[i].trustedProxies != ss[j].trustedProxies && (ss[i].tls != null ==> ss[i].tls != ss[j].tls)
  }

  // No two mounts share a TLS policy object.
  ghost predicate MountsSeparate(ms: seq<MountRec>) {
    forall i, j :: 0 <= i < j < |ms| ==> ms[i].tls != null ==> ms[i].tls != ms[j].tls
  }

  function ServersValue(ss: seq<ServerRec>): seq<Server>
    reads ServersFootprint(ss)
  {
    seq(|ss|, i requires 0 <= i < |ss| reads ServersFootprint(ss) => ss[i].Value())
  }

  function MountsValue(ms: seq<MountRec>): seq<Mount>
    reads MountsFootprint(ms)
  {
    seq(|ms|, i requires 0 <= i < |ms| reads MountsFootprint(ms) => ms[i].Value())
  }

  datatype ConfigRec = ConfigRec(servers: array<ServerRec>, mounts: array<MountRec>, policies: array<Policy.Rule>) {
    // Every object a write through this configuration can reach.
    ghost function Footprint(): set<object>
      reads servers, mounts
    {
      {servers as object, mounts as object,
          policies as object} + ServersFootprint(servers[..]) + MountsFootprint(mounts[..])
    }

    ghost predicate Separate()
      reads servers, mounts
    {
      ServersSeparate(servers[..]) && MountsSeparate(mounts[..])
    }

    function Value(): C.Config
      reads servers, mounts, policies, ServersFootprint(servers[..]), MountsFootprint(mounts[..])
    {
      C.Config(ServersValue(servers[..]), MountsValue(mounts[..]), policies[..])
    }
  }

  // ---- Frames ----

  // A configuration none of whose objects changed reads as before.
  twostate lemma Framed(c: ConfigRec)
    requires forall o :: o in old(c.Footprint()) ==> unchanged(o)
    ensures c.Footprint() == old(c.Footprint()) && c.Value() == old(c.Value()) && c.Separate() == old(c.Separate())
  {}

  // Only what exists can be reached.
  lemma FootprintsAllocated(held: seq<ConfigRec>)
    ensures forall k, o :: 0 <= k < |held| && o in held[k].Footprint() ==> allocated(o)
  {}

  // ---- clone ----

  method CopyStrings(source: array<string>) returns (r: array<string>)
    ensures fresh(r) && r[..] == source[..]
  {
    r := new string[source.Length](i requires 0 <= i < source.Length reads source => source[i]);
  }

  method CloneServer(source: ServerRec) returns (r: ServerRec)
    ensures fresh(r.trustedProxies) && (r.tls != null ==> fresh(r.tls))
    ensures r.Value() == source.Value()
  {
    var proxies := CopyStrings(source.trustedProxies);
    r := source.(trustedProxies := proxies);
    if source.tls != null {
      var copied := new FrontendRef(source.tls.value);
      r := r.(tls := copied);
    }
  }

  method CloneServers(source: array<ServerRec>) returns (r: array<ServerRec>)
    ensures fresh(r) && fresh(ServersFootprint(r[..])) && ServersSeparate(r[..])
    ensures ServersValue(r[..]) == old(ServersValue(source[..]))
  {
    hide ServerRec.Value;
    r := new ServerRec[source.Length](i requires 0 <= i < source.Length reads source => source[i]);
    for i := 0 to r.Length
      modifies r
      invariant forall j :: i <= j < r.Length ==> r[j] == source[j]
      invariant forall j :: 0 <= j < i ==> fresh(r[j].trustedProxies) && (r[j].tls != null ==> fresh(r[j].tls))
      invariant ServersSeparate(r[..i])
      invariant forall j :: 0 <= j < i ==> r[j].Value() == old(source[j].Value())
    {
      var copied := CloneServer(source[i]);
      r[i] := copied;
    }
  }

  method CloneMounts(source: array<MountRec>) returns (r: array<MountRec>)
    ensures fresh(r) && fresh(MountsFootprint(r[..])) && MountsSeparate(r[..])
    ensures MountsValue(r[..]) == old(MountsValue(source[..]))
  {
    r := new MountRec[source.Length](i requires 0 <= i < source.Length reads source => source[i]);
    for i := 0 to r.Length
      modifies r
      invariant forall j :: i <= j < r.Length ==> r[j] == source[j]
      invariant forall j :: 0 <= j < i ==> r[j].tls != null ==> fresh(r[j].tls)
      invariant MountsSeparate(r[..i])
      invariant forall j :: 0 <= j < i ==> r[j].Value() == old(source[j].Value())
    {
      if source[i].tls != null {
        var copied := new BackendRef(source[i].tls.value);
        r[i] := r[i].(tls := copied);
      }
    }
  }

  // A copy that shares nothing with its source, nor with anything else.
  method Clone(source: ConfigRec) returns (r: ConfigRec)
    ensures fresh(r.Footprint()) && r.Separate() && r.Value() == old(source.Value())
  {
    var servers := CloneServers(source.servers);
    var mounts := CloneMounts(source.mounts);
    var rules := source.policies;
    var policies := new Policy.Rule[rules.Length](i requires 0 <= i < rules.Length reads rules => rules[i]);
    r := ConfigRec(servers, mounts, policies);
  }

  // ---- The store ----

  class Store {
    var current: Option<ConfigRec>
    ghost var Repr: set<object>

    ghost predicate Valid()
      reads this, Repr
    {
      && this in Repr
      && (current.Some? ==>
            && current.value.servers in Repr && current.value.mounts in Repr
            && this !in current.value.Footprint()
            && current.value.Footprint() <= Repr)
    }

    // What readers see.
    ghost function Published(): Option<C.Config>
      requires Valid()
      reads this, Repr
    {
      if current.None? then None else Some(current.value.Value())
    }

    constructor Empty()
      ensures Valid() && fresh(Repr) && Published() == None
    {
      current := None;
      Repr := {this};
    }

    // Publishes a private copy of a valid candidate; otherwise changes nothing.
    method Replace(lib: C.Library, candidate: ConfigRec) returns (ok: bool)
      requires Valid()
      modifies this
      ensures Valid()
      ensures ok <==> C.Valid(lib, old(candidate.Value()))
      ensures Published() == if ok then Some(old(candidate.Value())) else old(Published())
      ensures if ok then fresh(Repr - {this}) else Repr == old(Repr)
    {
      hide C.Valid, ConfigRec.Value, ConfigRec.Separate;
      var private := Clone(candidate);
      ok := C.Validate(lib, private.Value());
      if ok {
        current := Some(private);
        Repr := {this} + private.Footprint();
      }
    }

    // A copy of the published configuration that belongs to the caller.
    method Snapshot() returns (r: ConfigRec)
      requires Valid()
      ensures fresh(r.Footprint()) && r.Separate()
      ensures Published() == old(Published()) && (Published().Some? ==> r.Value() == Published().value)
      ensures Published().None? ==> r.Value() == C.Config([], [], [])
    {
      if current.None? {
        var servers := new ServerRec[0];
        var mounts := new MountRec[0];
        var policies := new Policy.Rule[0];
        r := ConfigRec(servers, mounts, policies);
        return;
      }
      r := Clone(current.value);
    }
  }

  method NewStore(lib: C.Library, initial: ConfigRec) returns (r: Option<Store>)
    ensures r.Some? <==> C.Valid(lib, old(initial.Value()))
    ensures r.Some? ==> fresh(r.value) && r.value.Valid() && fresh(r.value.Repr)
    ensures r.Some? ==> r.value.Published() == Some(old(initial.Value()))
  {
    ghost var wanted := initial.Value();
    assert forall i :: 0 <= i < initial.servers.Length ==> allocated(initial.servers[i]);
    assert forall i :: 0 <= i < initial.mounts.Length ==> allocated(initial.mounts[i]);
    var store := new Store.Empty();
    assert forall i :: 0 <= i < initial.servers.Length ==>
        initial.servers[i].Value() == old(initial.servers[i].Value());
    assert forall i :: 0 <= i < initial.mounts.Length ==> initial.mounts[i].Value() == old(initial.mounts[i].Value());
    assert initial.Value() == wanted;
    var ok := store.Replace(lib, initial);
    return if ok then Some(store) else None;
  }
}
