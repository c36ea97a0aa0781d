// Reloading a configuration into a running process.
//
// The checks before publication look in one direction only. Together with the
// uniqueness that validation enforces they amount to equality, so the listener
// topology and the backend TLS policies of a process never change.
module Reload {
  import opened Wrappers
  import opened Mounts
  import opened C = Config
  import opened Store
  import Runs

  // ---- What must not change ----

  datatype Identity = Identity(protocol: string, listen: string, tls: Option<Frontend>)

  function IdentityOf(s: Server): Identity {
    Identity(s.protocol, s.listen, s.tls)
  }

  // Server name to listener identity; a later server replaces an earlier namesake.
  function Topology(servers: seq<Server>): map<string, Identity> {
    if servers == [] then map[]
    else
      var n := |servers| - 1;
      Topology(servers[..n])[servers[n].name := IdentityOf(servers[n])]
  }

  function BackendPolicies(mounts: seq<Mount>): set<Backend> {
    set m | m in mounts && m.tls.Some? :: m.tls.value
  }

  // What the program compares: lengths, and each candidate server in turn.
  predicate CandidateFits(current: seq<Server>, candidate: seq<Server>) {
    && |current| == |candidate|
    && forall s :: s in candidate ==> s.name in Topology(current) && Topology(current)[s.name] == IdentityOf(s)
  }

  // ---- The checks ----

  predicate SameFrontendTLS(current: Option<Frontend>, candidate: Option<Frontend>)
    ensures SameFrontendTLS(current, candidate) <==> current == candidate
  {
    if current.None? || candidate.None? then current.None? && candidate.None? else current.value == candidate.value
  }

  method SameListenerTopology(current: seq<Server>, candidate: seq<Server>) returns (same: bool)
    ensures same <==> CandidateFits(current, candidate)
  {
    if |current| != |candidate| {
      return false;
    }
    var listeners: map<string, Server> := map[];
    for i := 0 to |current|
      invariant listeners.Keys == Topology(current[..i]).Keys
      invariant forall n :: n in listeners ==> IdentityOf(listeners[n]) == Topology(current[..i])[n]
    {
      assert current[..i + 1][..i] == current[..i];
      listeners := listeners[current[i].name := current[i]];
    }
    assert current[..|current|] == current;
    for i := 0 to |candidate|
      invariant forall j :: 0 <= j < i ==>
        candidate[j].name in Topology(current) && Topology(current)[candidate[j].name] == IdentityOf(candidate[j])
    {
      var server := candidate[i];
      assert server in candidate;
      if server.name !in listeners {
        return false;
      }
      var existing := listeners[server.name];
      if existing.protocol != server.protocol || existing.listen != server.listen ||
          !SameFrontendTLS(existing.tls, server.tls) {
        return false;
      }
    }
    return true;
  }

  method CollectPolicies(mounts: seq<Mount>) returns (policies: map<Backend, ()>)
    ensures policies.Keys == BackendPolicies(mounts)
  {
    policies := map[];
    for i := 0 to |mounts|
      invariant policies.Keys == BackendPolicies(mounts[..i])
    {
      assert mounts[..i + 1] == mounts[..i] + [mounts[i]];
      if mounts[i].tls.Some? {
        policies := policies[mounts[i].tls.value := ()];
      }
    }
    assert mounts[..|mounts|] == mounts;
  }

  method SameBackendTLSPolicies(current: C.Config, candidate: C.Config) returns (same: bool)
    ensures same <==> BackendPolicies(current.mounts) == BackendPolicies(candidate.mounts)
  {
    var currentPolicies := CollectPolicies(current.mounts);
    var candidatePolicies := CollectPolicies(candidate.mounts);
    if |currentPolicies| != |candidatePolicies| {
      return false;
    }
    var pending := currentPolicies.Keys;
    while pending != {}
      invariant pending <= currentPolicies.Keys
      invariant currentPolicies.Keys - pending <= candidatePolicies.Keys
    {
      var policy :| policy in pending;
      if policy !in candidatePolicies {
        return false;
      }
      pending := pending - {policy};
    }
    SubsetOfEqualSize(currentPolicies.Keys, candidatePolicies.Keys);
    return true;
  }

  // ---- One direction is enough ----

  lemma {:induction false} SubsetOfEqualSize<T>(small: set<T>, big: set<T>)
    requires small <= big && |small| >= |big|
    ensures small == big
  {
    if x :| x in big && x !in small {
      SubsetSize(small, big - {x});
    }
  }

  lemma {:induction false} SubsetSize<T>(small: set<T>, big: set<T>)
    requires small <= big
    ensures |small| <= |big|
  {
    if x :| x in small {
      SubsetSize(small - {x}, big - {x});
    }
  }

  lemma {:induction false} TopologySource(servers: seq<Server>, name: string)
    requires name in Topology(servers)
    ensures exists i :: 0 <= i < |servers| && servers[i].name == name
  {
    var n := |servers| - 1;
    if servers[n].name != name {
      TopologySource(servers[..n], name);
    }
  }

  lemma {:induction false} TopologyHas(servers: seq<Server>, i: nat)
    requires NamesUnique(servers) && i < |servers|
    ensures servers[i].name in Topology(servers) && Topology(servers)[servers[i].name] == IdentityOf(servers[i])
  {
    var n := |servers| - 1;
    if i < n {
      TopologyHas(servers[..n], i);
    }
  }

  lemma {:induction false} TopologySize(servers: seq<Server>)
    requires NamesUnique(servers)
    ensures |Topology(servers).Keys| == |servers|
  {
    if servers != [] {
      var n := |servers| - 1;
      var init, name := servers[..n], servers[n].name;
      TopologySize(init);
      if name in Topology(init) {
        TopologySource(init, name);
        assert false;
      }
      assert Topology(servers).Keys == Topology(init).Keys + {name};
    }
  }

  // With unique names the topology holds every server under its own name.
  lemma TopologyOfUnique(servers: seq<Server>)
    requires NamesUnique(servers)
    ensures |Topology(servers).Keys| == |servers|
    ensures forall s :: s in servers ==> s.name in Topology(servers) && Topology(servers)[s.name] == IdentityOf(s)
  {
    hide Topology;
    TopologySize(servers);
    forall i | 0 <= i < |servers|
      ensures servers[i].name in Topology(servers) && Topology(servers)[servers[i].name] == IdentityOf(servers[i])
    {
      TopologyHas(servers, i);
    }
  }

  // For validated server lists, the one-directional check is equality of
  // topologies: same names, same protocol, address and TLS policy under each.
  lemma {:induction false} FitsIsEquality(current: seq<Server>, candidate: seq<Server>)
    requires NamesUnique(current) && NamesUnique(candidate)
    ensures CandidateFits(current, candidate) <==> Topology(current) == Topology(candidate)
  {
    TopologyOfUnique(current);
    TopologyOfUnique(candidate);
    if CandidateFits(current, candidate) {
      forall name | name in Topology(candidate)
        ensures name in Topology(current) && Topology(current)[name] == Topology(candidate)[name]
      {
        TopologySource(candidate, name);
      }
      SubsetOfEqualSize(Topology(candidate).Keys, Topology(current).Keys);
    }
  }

  // Without unique names the check passes lists that name different servers.
  lemma FitsNeedsUniqueNames()
    ensures exists current: seq<Server>, candidate: seq<Server> ::
      CandidateFits(current, candidate) && Topology(current) != Topology(candidate)
  {
    var a := Server("a", "http", ":1", "", [], None);
    var b := Server("b", "http", ":2", "", [], None);
    var current, candidate := [a, b], [a, a];
    assert current[..1] == [a] && candidate[..1] == [a] && [a][..0] == [];
    assert Topology([a]) == map["a" := IdentityOf(a)];
    assert "b" in Topology(current) && "b" !in Topology(candidate);
    assert CandidateFits(current, candidate);
  }

  // ---- Reload ----

  datatype Refusal =
    | Unreadable
    | Invalid
    | CloseFailed
    | Unsupported
    | TopologyChanged
    | BackendTLSChanged
    | PublishFailed

  // What a reload of a decoded file does, given what is published.
  ghost function Verdict(
    lib: C.Library, supported: C.Config -> bool, current: C.Config, decoded: Option<C.Config>, closed: bool)
    : Option<Refusal>
  {
    if decoded.None? then Some(Unreadable)
    else if !C.Valid(lib, decoded.value) then Some(Invalid)
    else if !closed then Some(CloseFailed)
    else if !supported(decoded.value) then Some(Unsupported)
    else if Topology(current.servers) != Topology(decoded.value.servers) then Some(TopologyChanged)
    else if BackendPolicies(current.mounts) != BackendPolicies(decoded.value.mounts) then Some(BackendTLSChanged)
    else None
  }

  ghost function DecodedValue(decoded: Option<ConfigRec>): Option<C.Config>
    reads *
  {
    if decoded.None? then None else Some(decoded.value.Value())
  }

  // `decoded` is what reading and decoding the file gave, `closed` whether
  // closing it succeeded, `supported` the runtime capability check. A candidate
  // that passes is never refused at publication.
  method ReloadFile(lib: C.Library, supported: C.Config -> bool, store: Store, decoded: Option<ConfigRec>, closed: bool)
    returns (refusal: Option<Refusal>)
    requires store.Valid()
    requires store.Published().Some? && C.Valid(lib, store.Published().value)
    modifies store
    ensures store.Valid()
    ensures refusal == old(Verdict(lib, supported, store.Published().value, DecodedValue(decoded), closed))
    ensures store.Published() == if refusal.None? then old(DecodedValue(decoded)) else old(store.Published())
  {
    hide ConfigRec.Footprint, ConfigRec.Value, ConfigRec.Separate, Store.Valid, Store.Published, Topology,
        BackendPolicies;
    if decoded.None? {
      return Some(Unreadable);
    }
    var candidate := decoded.value;
    FootprintsAllocated([candidate]);
    var wanted := candidate.Value();
    var valid := C.Validate(lib, wanted);
    if !valid {
      return Some(Invalid);
    }
    if !closed {
      return Some(CloseFailed);
    }
    if !supported(wanted) {
      return Some(Unsupported);
    }
    var snapshot := store.Snapshot();
    var current := snapshot.Value();
    var topology := SameListenerTopology(current.servers, wanted.servers);
    FitsIsEquality(current.servers, wanted.servers);
    if !topology {
      return Some(TopologyChanged);
    }
    var policies := SameBackendTLSPolicies(current, wanted);
    if !policies {
      return Some(BackendTLSChanged);
    }
    assert candidate == [candidate][0];
    Framed(candidate);
    var ok := store.Replace(lib, candidate);
    return if ok then None else Some(PublishFailed);
  }

  // ---- Every run ----

  // The configurations a process has published, in order. Each was accepted
  // against some earlier one: the latest when reloads do not overlap, possibly
  // an older one when they do.
  ghost predicate Accepted(lib: C.Library, supported: C.Config -> bool, history: seq<C.Config>, j: nat, i: nat)
    requires j < i < |history|
  {
    Verdict(lib, supported, history[j], Some(history[i]), true).None?
  }

  ghost predicate AcceptedEarlier(lib: C.Library, supported: C.Config -> bool, history: seq<C.Config>, i: nat)
    requires i < |history|
  {
    exists j :: 0 <= j < i && Accepted(lib, supported, history, j, i)
  }

  ghost predicate PublishedHistory(lib: C.Library, supported: C.Config -> bool, history: seq<C.Config>) {
    && history != [] && C.Valid(lib, history[0])
    && forall i :: 0 < i < |history| ==> AcceptedEarlier(lib, supported, history, i)
  }

  predicate SameListener(s: Server, t: Server) {
    s.name == t.name && s.protocol == t.protocol && s.listen == t.listen && s.tls == t.tls
  }

  // Every snapshot of a process is valid, serves the same names on the same
  // addresses with the same protocol and TLS policy as the first, and uses
  // exactly the backend TLS policies of the first.
  lemma {:induction false} NothingFixedEverChanges(
    lib: C.Library, supported: C.Config -> bool, history: seq<C.Config>, i: nat)
    requires PublishedHistory(lib, supported, history) && i < |history|
    ensures C.Valid(lib, history[i])
    ensures Topology(history[i].servers) == Topology(history[0].servers)
    ensures BackendPolicies(history[i].mounts) == BackendPolicies(history[0].mounts)
    ensures |history[i].servers| == |history[0].servers|
    ensures forall s :: s in history[i].servers ==> exists t :: t in history[0].servers && SameListener(s, t)
    ensures forall t :: t in history[0].servers ==> exists s :: s in history[i].servers && SameListener(s, t)
    decreases i
  {
    hide C.ServerValid, C.MountValid, C.ScopeValid, Topology, SameListener;
    if i > 0 {
      assert AcceptedEarlier(lib, supported, history, i);
      var j :| 0 <= j < i && Accepted(lib, supported, history, j, i);
      NothingFixedEverChanges(lib, supported, history, j);
    }
    TopologyOfUnique(history[i].servers);
    TopologyOfUnique(history[0].servers);
    SameIdentities(history[i].servers, history[0].servers);
    SameIdentities(history[0].servers, history[i].servers);
  }

  // Equal topologies have the same server under every name.
  lemma SameIdentities(servers: seq<Server>, others: seq<Server>)
    requires NamesUnique(servers) && NamesUnique(others) && Topology(servers) == Topology(others)
    ensures forall s :: s in servers ==> exists t :: t in others && SameListener(s, t)
    ensures forall s :: s in servers ==> exists t :: t in others && SameListener(t, s)
  {
    TopologyOfUnique(servers);
    TopologyOfUnique(others);
    forall s | s in servers
      ensures exists t :: t in others && SameListener(s, t)
      ensures exists t :: t in others && SameListener(t, s)
    {
      TopologySource(others, s.name);
      var k :| 0 <= k < |others| && others[k].name == s.name;
      assert others[k] in others && SameListener(s, others[k]) && SameListener(others[k], s);
    }
  }

  // A sequence of reload attempts, some refused: what was published on the way
  // is such a history, ending in what the store publishes now.
  method ReloadAll(lib: C.Library, supported: C.Config -> bool, store: Store, files: seq<(Option<ConfigRec>, bool)>)
    returns (refusals: seq<Option<Refusal>>, ghost history: seq<C.Config>)
    requires store.Valid()
    requires store.Published().Some? && C.Valid(lib, store.Published().value)
    modifies store
    ensures store.Valid() && PublishedHistory(lib, supported, history) && |history| > 0
    ensures history[0] == old(store.Published()).value && store.Published() == Some(history[|history| - 1])
    ensures |refusals| == |files| && |history| == 1 + |Successes(refusals)|
  {
    hide C.Valid, Store.Valid, Store.Published, Topology, BackendPolicies, PublishedHistory;
    FirstHistory(lib, supported, store.Published().value);
    refusals, history := [], [store.Published().value];
    for i := 0 to |files|
      invariant store.Valid() && |refusals| == i && |history| == 1 + |Successes(refusals)|
      invariant PublishedHistory(lib, supported, history) && |history| > 0
      invariant history[0] == old(store.Published()).value && store.Published() == Some(history[|history| - 1])
      invariant C.Valid(lib, history[|history| - 1])
    {
      var refusal := ReloadFile(lib, supported, store, files[i].0, files[i].1);
      assert (refusals + [refusal])[..i] == refusals;
      refusals := refusals + [refusal];
      if refusal.None? {
        HistoryGrows(lib, supported, history, |history| - 1, store.Published().value, files[i].1);
        history := history + [store.Published().value];
      }
    }
  }

  ghost function Successes(refusals: seq<Option<Refusal>>): seq<nat> {
    if refusals == [] then []
    else
      var n := |refusals| - 1;
      Successes(refusals[..n]) + if refusals[n].None? then [n] else []
  }

  lemma FirstHistory(lib: C.Library, supported: C.Config -> bool, first: C.Config)
    requires C.Valid(lib, first)
    ensures PublishedHistory(lib, supported, [first])
  {}

  lemma HistoryGrows(
    lib: C.Library, supported: C.Config -> bool, history: seq<C.Config>, k: nat, next: C.Config, closed: bool)
    requires PublishedHistory(lib, supported, history) && k < |history|
    requires Verdict(lib, supported, history[k], Some(next), closed).None?
    ensures PublishedHistory(lib, supported, history + [next]) && C.Valid(lib, next)
  {
    hide C.Valid, Topology, BackendPolicies;
    var grown := history + [next];
    forall i | 0 < i < |grown|
      ensures AcceptedEarlier(lib, supported, grown, i)
    {
      if i < |history| {
        assert AcceptedEarlier(lib, supported, history, i);
        var j :| 0 <= j < i && Accepted(lib, supported, history, j, i);
        assert Accepted(lib, supported, grown, j, i);
      } else {
        assert Accepted(lib, supported, grown, k, i);
      }
    }
  }

  // ---- Reloads that overlap ----

  // A reload between its snapshot and its publication.
  datatype Attempt = Attempt(current: C.Config, candidate: C.Config)

  datatype Process = Process(history: seq<C.Config>, attempts: map<nat, Attempt>)

  datatype ReloadMove =
    | Look(candidate: C.Config)  // decode, validate and take a snapshot
    | Refuse                     // a comparison with the snapshot fails
    | Publish                    // all comparisons pass: replace what is published

  // What reload `id` does.
  datatype Step = Step(id: nat, move: ReloadMove)

  ghost predicate StepEnabled(lib: C.Library, supported: C.Config -> bool, s: Process, a: Step) {
    match a.move
    case Look(candidate) => a.id !in s.attempts && C.Valid(lib, candidate) && supported(candidate) && s.history != []
    case _ =>
      a.id in s.attempts &&
      var attempt := s.attempts[a.id];
      (a.move.Publish? <==> Verdict(lib, supported, attempt.current, Some(attempt.candidate), true).None?)
  }

  // A step of a reload that is not under way, or of an empty process, is none.
  ghost function AfterStep(s: Process, a: Step): Process {
    match a.move
    case Look(candidate) =>
      if s.history == [] then s
      else s.(attempts := s.attempts[a.id := Attempt(s.history[|s.history| - 1], candidate)])
    case Refuse => s.(attempts := s.attempts - {a.id})
    case Publish =>
      if a.id !in s.attempts then s
      else Process(s.history + [s.attempts[a.id].candidate], s.attempts - {a.id})
  }

  ghost function Steps(lib: C.Library, supported: C.Config -> bool): (Process, Step) -> bool {
    (s, a) => StepEnabled(lib, supported, s, a)
  }

  ghost predicate IsProcess(lib: C.Library, supported: C.Config -> bool, first: C.Config, run: seq<Process>) {
    Runs.IsRun(run, Process([first], map[]), Steps(lib, supported), AfterStep)
  }

  // Every reload under way compares with a configuration that was published.
  ghost predicate ProcessInv(lib: C.Library, supported: C.Config -> bool, first: C.Config, s: Process) {
    && PublishedHistory(lib, supported, s.history) && s.history != [] && s.history[0] == first
    && forall id :: id in s.attempts ==> s.attempts[id].current in s.history
  }

  lemma ProcessStepInv(lib: C.Library, supported: C.Config -> bool, first: C.Config, s: Process, a: Step)
    requires ProcessInv(lib, supported, first, s) && StepEnabled(lib, supported, s, a)
    ensures ProcessInv(lib, supported, first, AfterStep(s, a))
  {
    hide C.Valid, Verdict, PublishedHistory;
    if a.move.Publish? {
      var attempt := s.attempts[a.id];
      var k: nat :| k < |s.history| && s.history[k] == attempt.current;
      HistoryGrows(lib, supported, s.history, k, attempt.candidate, true);
    }
  }

  // In every interleaving of any number of reloads, whatever is published has
  // the topology and the backend TLS policies the process started with.
  lemma OverlappingReloadsChangeNothingFixed(
    lib: C.Library, supported: C.Config -> bool, first: C.Config, run: seq<Process>, n: nat, i: nat)
    requires C.Valid(lib, first) && IsProcess(lib, supported, first, run) && n < |run| && i < |run[n].history|
    ensures PublishedHistory(lib, supported, run[n].history) && run[n].history[0] == first
    ensures C.Valid(lib, run[n].history[i])
    ensures Topology(run[n].history[i].servers) == Topology(first.servers)
    ensures BackendPolicies(run[n].history[i].mounts) == BackendPolicies(first.mounts)
  {
    hide C.Valid, Topology, BackendPolicies, StepEnabled, AfterStep;
    var inv := (s: Process) => ProcessInv(lib, supported, first, s);
    FirstHistory(lib, supported, first);
    assert inv(run[0]);
    forall s, a | inv(s) && Steps(lib, supported)(s, a) ensures inv(AfterStep(s, a)) {
      ProcessStepInv(lib, supported, first, s, a);
    }
    Runs.Stable(run, Process([first], map[]), Steps(lib, supported), AfterStep, inv, 0, n);
    assert inv(run[n]);
    NothingFixedEverChanges(lib, supported, run[n].history, i);
  }

  // A reload of a candidate that changes nothing fixed is published.
  lemma AReloadPublishes(lib: C.Library, supported: C.Config -> bool, first: C.Config, candidate: C.Config)
    returns (run: seq<Process>)
    requires C.Valid(lib, candidate) && supported(candidate)
    requires Topology(first.servers) == Topology(candidate.servers)
    requires BackendPolicies(first.mounts) == BackendPolicies(candidate.mounts)
    ensures IsProcess(lib, supported, first, run) && run[|run| - 1].history == [first, candidate]
  {
    hide C.Valid, Topology, BackendPolicies;
    var init := Process([first], map[]);
    run := [init];
    Runs.Extended(run, init, Steps(lib, supported), AfterStep, Step(0, Look(candidate)));
    run := run + [AfterStep(run[0], Step(0, Look(candidate)))];
    assert run[1].attempts[0] == Attempt(first, candidate);
    Runs.Extended(run, init, Steps(lib, supported), AfterStep, Step(0, Publish));
    run := run + [AfterStep(run[1], Step(0, Publish))];
  }
}
