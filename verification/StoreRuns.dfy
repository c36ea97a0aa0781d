// Isolation of the configuration store over whole runs.
//
// Callers hold configurations: candidates they built and snapshots they took.
// They write through them in place, publish them and take more snapshots, in
// any order. A run on the heap, with its arrays and pointers, is proved to
// behave as if every configuration were a value of its own.
module StoreRuns {
  import opened Wrappers
  import opened Mounts
  import opened C = Config
  import opened Store
  import Policy

  // ---- The reference: configurations as values ----

  // A write through a held configuration. An index out of range writes nothing.
  datatype Edit =
    | PutServer(at: nat, server: Server)                // c.Servers[at] = server
    | PutProxy(at: nat, slot: nat, prefix: string)      // c.Servers[at].TrustedProxies[slot] = prefix
    | PutFrontend(at: nat, frontend: Frontend)          // *c.Servers[at].TLS = frontend
    | PutMount(at: nat, mapping: Mount)                 // c.Mounts[at] = mapping
    | PutBackend(at: nat, backend: Backend)             // *c.Mounts[at].TLS = backend
    | PutRule(at: nat, rule: Policy.Rule)               // c.Policies[at] = rule

  datatype Op = Publish(k: nat) | Take | Write(k: nat, edit: Edit)

  // The published value, and the value of every configuration callers hold.
  datatype World = World(published: Option<C.Config>, held: seq<C.Config>)

  function Edited(c: C.Config, e: Edit): C.Config {
    match e
    case PutServer(at, server) =>
      if at < |c.servers| then c.(servers := c.servers[at := server]) else c
    case PutProxy(at, slot, prefix) =>
      if at < |c.servers| && slot < |c.servers[at].trustedProxies| then
        c.(servers := c.servers[at := c.servers[at].(trustedProxies := c.servers[at].trustedProxies[slot := prefix])])
      else c
    case PutFrontend(at, frontend) =>
      if at < |c.servers| && c.servers[at].tls.Some? then
        c.(servers := c.servers[at := c.servers[at].(tls := Some(frontend))])
      else c
    case PutMount(at, mapping) =>
      if at < |c.mounts| then c.(mounts := c.mounts[at := mapping]) else c
    case PutBackend(at, backend) =>
      if at < |c.mounts| && c.mounts[at].tls.Some? then
        c.(mounts := c.mounts[at := c.mounts[at].(tls := Some(backend))])
      else c
    case PutRule(at, rule) =>
      if at < |c.policies| then c.(policies := c.policies[at := rule]) else c
  }

  ghost function Step(lib: C.Library, w: World, op: Op): World {
    match op
    case Publish(k) =>
      if k < |w.held| && C.Valid(lib, w.held[k]) then w.(published := Some(w.held[k])) else w
    case Take =>
      w.(held := w.held + [if w.published.None? then C.Config([], [], []) else w.published.value])
    case Write(k, e) =>
      if k < |w.held| then w.(held := w.held[k := Edited(w.held[k], e)]) else w
  }

  ghost function Run(lib: C.Library, w: World, ops: seq<Op>): World {
    if ops == [] then w else Step(lib, Run(lib, w, ops[..|ops| - 1]), ops[|ops| - 1])
  }

  // ---- Writes through a held configuration ----

  // What these configurations reach now they reached before, or it is new.
  twostate predicate GrowFresh(watched: seq<ConfigRec>)
    reads *
  {
    forall j :: 0 <= j < |watched| ==> fresh(watched[j].Footprint() - old(watched[j].Footprint()))
  }

  method NewServer(server: Server) returns (r: ServerRec)
    ensures fresh(r.trustedProxies) && (r.tls != null ==> fresh(r.tls))
    ensures r.Value() == server
  {
    var listed := server.trustedProxies;
    var proxies := new string[|listed|](i requires 0 <= i < |listed| => listed[i]);
    var tls: FrontendRef? := null;
    if server.tls.Some? {
      tls := new FrontendRef(server.tls.value);
    }
    r := ServerRec(server.name, server.protocol, server.listen, server.clientIPHeader, proxies, tls);
  }

  method WriteServer(c: ConfigRec, at: nat, server: Server, ghost watched: seq<ConfigRec>)
    requires at < c.servers.Length
    modifies c.servers
    ensures GrowFresh(watched)
    ensures old(c.Separate()) ==> c.Separate() && c.Value() == Edited(old(c.Value()), PutServer(at, server))
  {
    hide ServerRec.Value;
    assert forall j :: 0 <= j < c.servers.Length ==>
        allocated(c.servers[j].trustedProxies) && allocated(c.servers[j].tls);
    assert forall j :: 0 <= j < c.mounts.Length ==> allocated(c.mounts[j].tls);
    var put := NewServer(server);
    c.servers[at] := put;
    assert c.servers[..] == old(c.servers[..])[at := put];
    assert ServersValue(c.servers[..]) == old(ServersValue(c.servers[..]))[at := server];
    assert MountsValue(c.mounts[..]) == old(MountsValue(c.mounts[..]));
  }

  method WriteProxy(c: ConfigRec, at: nat, slot: nat, prefix: string, ghost watched: seq<ConfigRec>)
    requires at < c.servers.Length && slot < c.servers[at].trustedProxies.Length
    modifies c.servers[at].trustedProxies
    ensures GrowFresh(watched)
    ensures old(c.Separate()) ==> c.Separate() && c.Value() == Edited(old(c.Value()), PutProxy(at, slot, prefix))
  {
    c.servers[at].trustedProxies[slot] := prefix;
  }

  method WriteFrontend(c: ConfigRec, at: nat, frontend: Frontend, ghost watched: seq<ConfigRec>)
    requires at < c.servers.Length && c.servers[at].tls != null
    modifies c.servers[at].tls
    ensures GrowFresh(watched)
    ensures old(c.Separate()) ==> c.Separate() && c.Value() == Edited(old(c.Value()), PutFrontend(at, frontend))
  {
    c.servers[at].tls.value := frontend;
  }

  method NewMount(mapping: Mount) returns (r: MountRec)
    ensures r.tls != null ==> fresh(r.tls)
    ensures r.Value() == mapping
  {
    var tls: BackendRef? := null;
    if mapping.tls.Some? {
      tls := new BackendRef(mapping.tls.value);
    }
    r := MountRec(mapping.path, mapping.source, mapping.target, mapping.priority, mapping.server, mapping.protocol,
        tls);
  }

  method WriteMount(c: ConfigRec, at: nat, mapping: Mount, ghost watched: seq<ConfigRec>)
    requires at < c.mounts.Length
    modifies c.mounts
    ensures GrowFresh(watched)
    ensures old(c.Separate()) ==> c.Separate() && c.Value() == Edited(old(c.Value()), PutMount(at, mapping))
  {
    assert forall j :: 0 <= j < c.servers.Length ==>
        allocated(c.servers[j].trustedProxies) && allocated(c.servers[j].tls);
    assert forall j :: 0 <= j < c.mounts.Length ==> allocated(c.mounts[j].tls);
    var put := NewMount(mapping);
    c.mounts[at] := put;
    assert c.mounts[..] == old(c.mounts[..])[at := put];
    assert MountsValue(c.mounts[..]) == old(MountsValue(c.mounts[..]))[at := mapping];
    assert ServersValue(c.servers[..]) == old(ServersValue(c.servers[..]));
  }

  method WriteBackend(c: ConfigRec, at: nat, backend: Backend, ghost watched: seq<ConfigRec>)
    requires at < c.mounts.Length && c.mounts[at].tls != null
    modifies c.mounts[at].tls
    ensures GrowFresh(watched)
    ensures old(c.Separate()) ==> c.Separate() && c.Value() == Edited(old(c.Value()), PutBackend(at, backend))
  {
    c.mounts[at].tls.value := backend;
  }

  method WriteRule(c: ConfigRec, at: nat, rule: Policy.Rule, ghost watched: seq<ConfigRec>)
    requires at < c.policies.Length
    modifies c.policies
    ensures GrowFresh(watched)
    ensures old(c.Separate()) ==> c.Separate() && c.Value() == Edited(old(c.Value()), PutRule(at, rule))
  {
    c.policies[at] := rule;
  }

  // Any write, also through a configuration that shares objects within itself or
  // with others: then one write can show in several places, but to what any of
  // them reaches it adds only new objects.
  method Apply(c: ConfigRec, e: Edit, ghost watched: seq<ConfigRec>)
    modifies c.Footprint()
    ensures GrowFresh(watched)
    ensures old(c.Separate()) ==> c.Separate() && c.Value() == Edited(old(c.Value()), e)
  {
    match e
    case PutServer(at, server) =>
      if at < c.servers.Length { WriteServer(c, at, server, watched); }
    case PutProxy(at, slot, prefix) =>
      if at < c.servers.Length && slot < c.servers[at].trustedProxies.Length { WriteProxy(c, at, slot, prefix,
          watched); }
    case PutFrontend(at, frontend) =>
      if at < c.servers.Length && c.servers[at].tls != null { WriteFrontend(c, at, frontend, watched); }
    case PutMount(at, mapping) =>
      if at < c.mounts.Length { WriteMount(c, at, mapping, watched); }
    case PutBackend(at, backend) =>
      if at < c.mounts.Length && c.mounts[at].tls != null { WriteBackend(c, at, backend, watched); }
    case PutRule(at, rule) =>
      if at < c.policies.Length { WriteRule(c, at, rule, watched); }
  }

  // ---- Runs on the heap ----

  ghost function Reach(held: seq<ConfigRec>): set<object>
    reads *
  {
    set k, o | 0 <= k < |held| && o in held[k].Footprint() :: o
  }

  // The store shares nothing with any caller.
  ghost predicate Isolated(store: Store, held: seq<ConfigRec>)
    reads *
  {
    store.Valid() && forall k :: 0 <= k < |held| ==> held[k].Footprint() !! store.Repr
  }

  // Callers share nothing among themselves, nor within a configuration.
  ghost predicate Unshared(held: seq<ConfigRec>)
    reads *
  {
    && (forall k :: 0 <= k < |held| ==> held[k].Separate())
    && (forall j, k :: 0 <= j < k < |held| ==> held[j].Footprint() !! held[k].Footprint())
  }

  // The heap stands for these values.
  ghost predicate Shows(store: Store, held: seq<ConfigRec>, w: World)
    reads *
  {
    && store.Valid() && store.Published() == w.published
    && |held| == |w.held| && forall k :: 0 <= k < |held| ==> held[k].Value() == w.held[k]
  }

  twostate lemma StoreFramed(store: Store)
    requires old(store.Valid())
    requires forall o :: o in old(store.Repr) ==> unchanged(o)
    ensures store.Valid() && store.Published() == old(store.Published())
  {}

  // What is offered for publication by an operation.
  ghost function Offered(held: seq<ConfigRec>, op: Op): Option<C.Config>
    reads *
  {
    if op.Publish? && op.k < |held| then Some(held[op.k].Value()) else None
  }

  ghost function PublishedAfter(lib: C.Library, before: Option<C.Config>, offered: Option<C.Config>): Option<C.Config> {
    if offered.Some? && C.Valid(lib, offered.value) then offered else before
  }

  method DoPublish(lib: C.Library, store: Store, held: seq<ConfigRec>, k: nat, ghost w: World)
    requires Isolated(store, held) && k < |held|
    modifies store
    ensures Isolated(store, held) && Reach(held) == old(Reach(held))
    ensures store.Published() == PublishedAfter(lib, old(store.Published()), Some(old(held[k].Value())))
    ensures old(Unshared(held) && Shows(store, held, w)) ==>
        Unshared(held) && Shows(store, held, Step(lib, w, Publish(k)))
  {
    hide C.Valid, ConfigRec.Footprint, ConfigRec.Value, ConfigRec.Separate, Store.Published;
    FootprintsAllocated(held);
    var ok := store.Replace(lib, held[k]);
    forall j | 0 <= j < |held|
      ensures held[j].Footprint() == old(held[j].Footprint()) && held[j].Value() == old(held[j].Value())
      ensures held[j].Separate() == old(held[j].Separate())
    {
      Framed(held[j]);
    }
  }

  method DoTake(lib: C.Library, store: Store, held: seq<ConfigRec>, ghost w: World) returns (r: seq<ConfigRec>)
    requires Isolated(store, held)
    ensures Isolated(store, r) && fresh(Reach(r) - old(Reach(held)))
    ensures store.Published() == old(store.Published())
    ensures old(Unshared(held) && Shows(store, held, w)) ==> Unshared(r) && Shows(store, r, Step(lib, w, Take))
  {
    hide C.Valid, ConfigRec.Footprint, ConfigRec.Value, ConfigRec.Separate, Store.Published;
    FootprintsAllocated(held);
    var taken := store.Snapshot();
    r := held + [taken];
    forall j | 0 <= j < |held|
      ensures held[j].Footprint() == old(held[j].Footprint()) && held[j].Value() == old(held[j].Value())
      ensures held[j].Separate() == old(held[j].Separate())
    {
      Framed(held[j]);
    }
    StoreFramed(store);
  }

  method DoWrite(lib: C.Library, store: Store, held: seq<ConfigRec>, k: nat, e: Edit, ghost w: World)
    requires Isolated(store, held) && k < |held|
    modifies held[k].Footprint()
    ensures Isolated(store, held) && fresh(Reach(held) - old(Reach(held)))
    ensures store.Published() == old(store.Published())
    ensures old(Unshared(held) && Shows(store, held, w)) ==>
        Unshared(held) && Shows(store, held, Step(lib, w, Write(k, e)))
  {
    hide C.Valid, Edited, ConfigRec.Footprint, ConfigRec.Value, ConfigRec.Separate, Store.Published;
    FootprintsAllocated(held);
    ghost var unshared := Unshared(held) && Shows(store, held, w);
    Apply(held[k], e, held);
    if unshared {
      forall j | 0 <= j < |held| && j != k
        ensures held[j].Footprint() == old(held[j].Footprint()) && held[j].Value() == old(held[j].Value()) &&
            held[j].Separate()
      {
        Framed(held[j]);
      }
    }
    StoreFramed(store);
  }

  method Perform(lib: C.Library, store: Store, held: seq<ConfigRec>, op: Op, ghost w: World) returns (r: seq<ConfigRec>)
    requires Isolated(store, held)
    modifies store, Reach(held)
    ensures Isolated(store, r) && fresh(Reach(r) - old(Reach(held)))
    ensures store.Published() == PublishedAfter(lib, old(store.Published()), old(Offered(held, op)))
    ensures old(Unshared(held) && Shows(store, held, w)) ==> Unshared(r) && Shows(store, r, Step(lib, w, op))
  {
    r := held;
    match op
    case Publish(k) =>
      if k < |held| {
        DoPublish(lib, store, held, k, w);
      }
    case Take =>
      r := DoTake(lib, store, held, w);
    case Write(k, e) =>
      if k < |held| {
        DoWrite(lib, store, held, k, e, w);
      }
  }

  // The last valid configuration offered, or what was published before.
  ghost function LastValid(lib: C.Library, before: Option<C.Config>, offers: seq<Option<C.Config>>): Option<C.Config> {
    if offers == [] then before
    else PublishedAfter(lib, LastValid(lib, before, offers[..|offers| - 1]), offers[|offers| - 1])
  }

  // A run on the heap. Whatever callers share among themselves, what is
  // published at the end is the last valid value offered, as it was when it was
  // offered: no write shows in the store. When they share nothing, the whole
  // heap shows exactly the values of the reference run.
  method RunOnHeap(lib: C.Library, store: Store, held: seq<ConfigRec>, ops: seq<Op>, ghost w: World)
    returns (r: seq<ConfigRec>, ghost offers: seq<Option<C.Config>>)
    requires Isolated(store, held)
    modifies store, Reach(held)
    ensures Isolated(store, r) && |offers| == |ops|
    ensures forall i :: 0 <= i < |ops| && !ops[i].Publish? ==> offers[i].None?
    ensures store.Published() == LastValid(lib, old(store.Published()), offers)
    ensures old(Unshared(held) && Shows(store, held, w)) ==> Unshared(r) && Shows(store, r, Run(lib, w, ops))
  {
    hide Unshared, Shows, Step, PublishedAfter, C.Valid, Store.Valid, Store.Published, ConfigRec.Footprint,
        ConfigRec.Value, Reach;
    r, offers := held, [];
    for i := 0 to |ops|
      invariant Isolated(store, r) && |offers| == i && store.Valid()
      invariant forall j :: 0 <= j < i && !ops[j].Publish? ==> offers[j].None?
      invariant store.Published() == LastValid(lib, old(store.Published()), offers)
      invariant old(Unshared(held) && Shows(store, held, w)) ==> Unshared(r) && Shows(store, r, Run(lib, w, ops[..i]))
      invariant fresh(Reach(r) - old(Reach(held)))
    {
      assert ops[..i + 1][..i] == ops[..i];
      ghost var offer := Offered(r, ops[i]);
      r := Perform(lib, store, r, ops[i], Run(lib, w, ops[..i]));
      assert (offers + [offer])[..i] == offers;
      offers := offers + [offer];
    }
    assert ops[..|ops|] == ops;
  }

  // Nothing but a publication changes what is published, and a valid store
  // stays valid.
  lemma {:induction false} LastValidMeans(lib: C.Library, before: Option<C.Config>, offers: seq<Option<C.Config>>)
    ensures (forall i :: 0 <= i < |offers| ==> offers[i].None?) ==> LastValid(lib, before, offers) == before
    ensures before.Some? && C.Valid(lib, before.value) ==>
      LastValid(lib, before, offers).Some? && C.Valid(lib, LastValid(lib, before, offers).value)
    ensures LastValid(lib, before, offers) == before || LastValid(lib, before, offers) in offers
  {
    if offers != [] {
      LastValidMeans(lib, before, offers[..|offers| - 1]);
    }
  }

  // ---- What the reference says of every run ----

  ghost predicate PublishedValid(lib: C.Library, w: World) {
    w.published.Some? && C.Valid(lib, w.published.value)
  }

  // A store that starts valid publishes only valid configurations, so every
  // snapshot taken in the run passes validation as well.
  lemma {:induction false} SnapshotsAlwaysValid(lib: C.Library, w: World, ops: seq<Op>)
    requires PublishedValid(lib, w)
    ensures PublishedValid(lib, Run(lib, w, ops))
    ensures var before := Run(lib, w, ops);
      |Step(lib, before, Take).held| == |before.held| + 1 && C.Valid(lib, Step(lib, before, Take).held[|before.held|])
  {
    if ops != [] {
      SnapshotsAlwaysValid(lib, w, ops[..|ops| - 1]);
    }
  }

  // The i-th operation published the configuration it names.
  ghost predicate PublishesAt(lib: C.Library, w: World, ops: seq<Op>, i: nat)
    requires i < |ops|
  {
    var before := Run(lib, w, ops[..i]);
    ops[i].Publish? && ops[i].k < |before.held| && C.Valid(lib, before.held[ops[i].k])
  }

  ghost predicate LastPublication(lib: C.Library, w: World, ops: seq<Op>, i: nat)
    requires i < |ops|
  {
    && PublishesAt(lib, w, ops, i) && (forall j :: i < j < |ops| ==> !PublishesAt(lib, w, ops, j))
    && Run(lib, w, ops).published == Some(Run(lib, w, ops[..i]).held[ops[i].k])
  }

  lemma PublishesAtPrefix(lib: C.Library, w: World, ops: seq<Op>, n: nat)
    requires n <= |ops|
    ensures forall i :: 0 <= i < n ==> PublishesAt(lib, w, ops, i) == PublishesAt(lib, w, ops[..n], i)
    ensures forall i :: 0 <= i < n ==> ops[..n][..i] == ops[..i]
  {
    hide Run;
    assert forall i :: 0 <= i < n ==> ops[..n][..i] == ops[..i];
  }

  // What is published is the value the last successful publication had when it
  // was made, or the initial one: no write, before or after, shows through.
  lemma {:induction false} PublishedIsLastPublication(lib: C.Library, w: World, ops: seq<Op>)
    ensures
      || (Run(lib, w, ops).published == w.published && forall i :: 0 <= i < |ops| ==> !PublishesAt(lib, w, ops, i))
      || exists i :: 0 <= i < |ops| && LastPublication(lib, w, ops, i)
  {
    hide C.Valid, Edited, PublishesAt;
    if ops != [] {
      var n := |ops| - 1;
      var init := ops[..n];
      PublishedIsLastPublication(lib, w, init);
      PublishesAtPrefix(lib, w, ops, n);
      LastStepPublishes(lib, w, ops);
      if i :| 0 <= i < n && LastPublication(lib, w, init, i) && !PublishesAt(lib, w, ops, n) {
        assert LastPublication(lib, w, ops, i);
      }
      assert PublishesAt(lib, w, ops, n) ==> LastPublication(lib, w, ops, n);
    }
  }

  lemma LastStepPublishes(lib: C.Library, w: World, ops: seq<Op>)
    requires ops != []
    ensures var n := |ops| - 1;
      var before := Run(lib, w, ops[..n]);
      if PublishesAt(lib, w, ops, n) then
        ops[n].k < |before.held| && Run(lib, w, ops).published == Some(before.held[ops[n].k])
      else Run(lib, w, ops).published == before.published
  {
    hide C.Valid, Edited;
  }

  // A held configuration changes only by writes made through it.
  lemma {:induction false} HeldChangesOnlyByItsWrites(lib: C.Library, w: World, ops: seq<Op>, k: nat)
    requires k < |w.held|
    requires forall i :: 0 <= i < |ops| ==> !(ops[i].Write? && ops[i].k == k)
    ensures k < |Run(lib, w, ops).held| && Run(lib, w, ops).held[k] == w.held[k]
  {
    if ops != [] {
      HeldChangesOnlyByItsWrites(lib, w, ops[..|ops| - 1], k);
    }
  }

  // From the first configuration on: whatever callers do with it and with
  // their snapshots, and whatever it shares within itself, the store made from
  // it publishes only valid configurations.
  method RunFromStart(
    lib: C.Library, initial: ConfigRec, ops: seq<Op>) returns (store: Option<Store>, held: seq<ConfigRec>)
    modifies initial.Footprint()
    ensures store.Some? <==> C.Valid(lib, old(initial.Value()))
    ensures store.Some? ==>
      && Isolated(store.value, held)
      && store.value.Published().Some? && C.Valid(lib, store.value.Published().value)
    ensures store.Some? && old(initial.Separate()) ==>
      Unshared(held) && Shows(store.value, held, Run(lib, old(World(Some(initial.Value()), [initial.Value()])), ops))
  {
    hide C.Valid, ConfigRec.Footprint, ConfigRec.Value, ConfigRec.Separate, Store.Valid, Store.Published, Run,
        LastValid;
    FootprintsAllocated([initial]);
    assert [initial][0] == initial;
    ghost var w := World(Some(initial.Value()), [initial.Value()]);
    held := [initial];
    store := NewStore(lib, initial);
    if store.Some? {
      Framed(initial);
      ghost var offers;
      held, offers := RunOnHeap(lib, store.value, held, ops, w);
      LastValidMeans(lib, w.published, offers);
    }
  }
}
