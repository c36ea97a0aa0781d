// Serve draining a server while any number of CONNECT handlers run.
//
// One transition system: the shared sessions, the goroutine running Serve and
// one goroutine per CONNECT request. Each action is one lock section, one
// connection operation or one program point of the code it models.
module Lifecycle {
  import opened Conns
  import Runs
  import opened Wrappers
  import opened Sessions

  // ---- One CONNECT handler ----

  datatype Pc =
    | Dialing          // Connect is dialling the backend
    | Dialed           // holds a backend, not yet offered to the sessions
    | Refused          // add refused the backend and is about to close it
    | Tracked          // backend registered, client not hijacked
    | HijackFailed     // about to close the backend
    | Hijacked         // holds the client, not yet offered to the sessions
    | Late             // add refused the client and is about to close it
    | Ready            // both registered, handshake in progress
    | Relaying
    | ClosingBackend   // deferred calls, in the order they run
    | ClosingClient
    | RemovingClient
    | RemovingBackend
    | Returned

  datatype Handler = Handler(pc: Pc, backend: Option<Conn>, client: Option<Conn>, late: bool)

  predicate TracksBackend(pc: Pc) {
    match pc
    case Dialing | Dialed | Refused | Returned => false
    case _ => true
  }

  predicate TracksClient(pc: Pc) {
    match pc
    case Ready | Relaying | ClosingBackend | ClosingClient | RemovingClient => true
    case _ => false
  }

  // ---- Serve ----

  datatype ServePc =
    | Accepting                                    // waiting for exit or cancellation
    | Shutting                                     // drain begun, Shutdown running
    | AwaitDrained(failed: bool)                   // select on drained and the timeout
    | ForcingSelect(left: set<Conn>, failed: bool) // forceClose after the timeout
    | Selected(failed: bool)
    | ForcingFailed(left: set<Conn>)               // forceClose after a failed Shutdown
    | AwaitServe                                   // waiting for the serve goroutine
    | ServeReturned

  datatype State = State(
    sessions: Sessions<Conn>,
    serve: ServePc,
    handlers: map<nat, Handler>,
    owner: map<Conn, nat>,  // which handler obtained each connection
    closed: set<Conn>,
    taken: set<Conn>)       // what forceClose found tracked in its lock section

  datatype HandlerMove =
    | Start
    | DialFail
    | Dial(c: Conn)
    | AddBackend
    | CloseRefused
    | HijackFail
    | Hijack(c: Conn)
    | CloseUnhijacked
    | AddClient
    | CloseLate
    | HandshakeFail
    | RelayStart
    | RelayEnd
    | RunDeferred

  datatype ServeMove =
    | Stop                     // Serve begins the drain
    | ShutdownDone(err: bool)
    | SeeDrained
    | Timeout
    | ForceOne(c: Conn)        // forceClose closes one connection it took
    | ForceDone
    | CheckShutdown
    | SeeServeDone

  datatype Action = OfHandler(h: nat, move: HandlerMove) | OfServe(serve: ServeMove)

  const INIT := State(Fresh<Conn>(), Accepting, map[], map[], {}, {})

  ghost predicate HandlerEnabled(s: State, h: nat, m: HandlerMove) {
    if m.Start? then h !in s.handlers
    else
      h in s.handlers &&
      var pc := s.handlers[h].pc;
      match m
      case DialFail => pc.Dialing?
      case Dial(c) => pc.Dialing? && c !in s.owner
      case AddBackend => pc.Dialed?
      case CloseRefused => pc.Refused?
      case HijackFail => pc.Tracked?
      case Hijack(c) => pc.Tracked? && c !in s.owner
      case CloseUnhijacked => pc.HijackFailed?
      case AddClient => pc.Hijacked?
      case CloseLate => pc.Late?
      case HandshakeFail => pc.Ready?
      case RelayStart => pc.Ready?
      case RelayEnd => pc.Relaying?
      case RunDeferred => pc.ClosingBackend? || pc.ClosingClient? || pc.RemovingClient? || pc.RemovingBackend?
      case Start => false
  }

  function Put(s: State, h: nat, handler: Handler): State {
    s.(handlers := s.handlers[h := handler])
  }

  // The handler's own steps. The connections a pc relies on are present in
  // every reachable state; where one is missing the step changes nothing.
  function AfterHandler(s: State, h: nat, m: HandlerMove): State {
    if m.Start? then Put(s, h, Handler(Dialing, None, None, false))
    else if h !in s.handlers then s
    else
      var p := s.handlers[h];
      match m
      case DialFail => Put(s, h, p.(pc := Returned))
      case Dial(c) => Put(s.(owner := s.owner[c := h]), h, p.(pc := Dialed, backend := Some(c)))
      case Hijack(c) => Put(s.(owner := s.owner[c := h]), h, p.(pc := Hijacked, client := Some(c)))
      case HijackFail => Put(s, h, p.(pc := HijackFailed))
      case HandshakeFail => Put(s, h, p.(pc := ClosingBackend))
      case RelayStart => Put(s, h, p.(pc := Relaying))
      case RelayEnd => Put(s, h, p.(pc := ClosingBackend))
      case AddBackend =>
        if p.backend.None? then s
        else Put(s.(sessions := Added(s.sessions, p.backend.value)), h,
                 p.(pc := if s.sessions.draining then Refused else Tracked))
      case CloseRefused => Put(CloseConn(s, p.backend), h, p.(pc := Returned))
      case CloseUnhijacked => Put(CloseConn(s, p.backend), h, p.(pc := RemovingBackend))
      case AddClient =>
        if p.client.None? then s
        else Put(s.(sessions := Added(s.sessions, p.client.value)), h,
                 p.(pc := if s.sessions.draining then Late else Ready, late := s.sessions.draining))
      case CloseLate => Put(CloseConn(s, p.client), h, p.(pc := RemovingBackend))
      case RunDeferred =>
        (match p.pc
         case ClosingBackend => Put(CloseConn(s, p.backend), h, p.(pc := ClosingClient))
         case ClosingClient => Put(CloseConn(s, p.client), h, p.(pc := RemovingClient))
         case RemovingClient => Put(Untrack(s, p.client), h, p.(pc := RemovingBackend))
         case _ => Put(Untrack(s, p.backend), h, p.(pc := Returned)))
      case Start => s
  }

  function CloseConn(s: State, c: Option<Conn>): State {
    if c.Some? then s.(closed := s.closed + {c.value}) else s
  }

  function Untrack(s: State, c: Option<Conn>): State {
    if c.Some? then s.(sessions := Removed(s.sessions, c.value)) else s
  }

  ghost predicate ServeEnabled(s: State, m: ServeMove) {
    match m
    case Stop => s.serve.Accepting?
    case ShutdownDone(_) => s.serve.Shutting?
    case SeeDrained => s.serve.AwaitDrained? && s.sessions.drainedCloses > 0
    case Timeout => s.serve.AwaitDrained?
    case ForceOne(c) => (s.serve.ForcingSelect? || s.serve.ForcingFailed?) && c in s.serve.left
    case ForceDone => (s.serve.ForcingSelect? || s.serve.ForcingFailed?) && s.serve.left == {}
    case CheckShutdown => s.serve.Selected?
    case SeeServeDone => s.serve.AwaitServe?
  }

  function AfterServe(s: State, m: ServeMove): State {
    match m
    case Stop => s.(serve := Shutting, sessions := DrainBegun(s.sessions))
    case ShutdownDone(err) => s.(serve := AwaitDrained(err))
    case SeeDrained => if s.serve.AwaitDrained? then s.(serve := Selected(s.serve.failed)) else s
    case Timeout =>
      if s.serve.AwaitDrained? then
        s.(serve := ForcingSelect(s.sessions.items, s.serve.failed), taken := s.taken + s.sessions.items,
           sessions := Forced(s.sessions))
      else s
    case ForceOne(c) =>
      var s := s.(closed := s.closed + {c});
      if s.serve.ForcingSelect? then s.(serve := ForcingSelect(s.serve.left - {c}, s.serve.failed))
      else if s.serve.ForcingFailed? then s.(serve := ForcingFailed(s.serve.left - {c}))
      else s
    case ForceDone => if s.serve.ForcingSelect? then s.(serve := Selected(s.serve.failed)) else s.(serve := AwaitServe)
    case CheckShutdown =>
      if s.serve.Selected? && s.serve.failed then
        s.(serve := ForcingFailed(s.sessions.items), taken := s.taken + s.sessions.items,
            sessions := Forced(s.sessions))
      else s.(serve := AwaitServe)
    case SeeServeDone => s.(serve := ServeReturned)
  }

  ghost predicate Enabled(s: State, a: Action) {
    match a
    case OfHandler(h, m) => HandlerEnabled(s, h, m)
    case OfServe(m) => ServeEnabled(s, m)
  }

  function Apply(s: State, a: Action): State {
    match a
    case OfHandler(h, m) => AfterHandler(s, h, m)
    case OfServe(m) => AfterServe(s, m)
  }

  // ---- Invariant ----

  predicate Forcing(serve: ServePc) { serve.ForcingSelect? || serve.ForcingFailed? }

  // What forceClose took and has yet to close.
  function Left(s: State): set<Conn> {
    if Forcing(s.serve) then s.serve.left else {}
  }

  // forceClose took the connection and has closed it.
  predicate ForceClosed(s: State, c: Conn) { c in s.taken && c !in Left(s) }

  // No registered connection is forgotten: it is tracked, closed, or about to
  // be closed by forceClose.
  predicate Covered(s: State, c: Conn) { c in s.sessions.items || c in s.closed || c in Left(s) }

  // What a handler's pc says about the connections it holds.
  ghost predicate HandlerOk(s: State, h: nat, p: Handler) {
    && (p.backend.Some? ==> p.backend.value in s.owner && s.owner[p.backend.value] == h)
    && (p.client.Some? ==> p.client.value in s.owner && s.owner[p.client.value] == h)
    && (p.backend.Some? && p.client.Some? ==> p.backend != p.client)
    && (p.backend.None? ==> p.pc.Dialing? || p.pc.Returned?)
    && (p.pc.Dialing? ==> p.backend.None?)
    && (TracksClient(p.pc) || p.pc.Hijacked? || p.pc.Late? ==> p.client.Some?)
    && (p.pc.Dialing? || p.pc.Dialed? || p.pc.Refused? || p.pc.Tracked? || p.pc.HijackFailed? ==> p.client.None?)
    && (p.late ==> p.client.Some? && (p.pc.Late? || p.pc.RemovingBackend? || p.pc.Returned?))
    && (p.pc.Late? ==> p.late)
    && (p.client.Some? && (p.pc.RemovingClient? || p.pc.RemovingBackend? || p.pc.Returned?) ==>
        p.client.value in s.closed)
    && (p.backend.Some? ==>
          var byHandler := !p.late && (p.pc.ClosingClient? || p.pc.RemovingClient? || p.pc.RemovingBackend? ||
              p.pc.Returned?);
          p.backend.value in s.closed <==> byHandler || ForceClosed(s, p.backend.value))
  }

  ghost predicate HandlerCovered(s: State, p: Handler) {
    && (TracksBackend(p.pc) && p.backend.Some? ==> Covered(s, p.backend.value))
    && (TracksClient(p.pc) && p.client.Some? ==> Covered(s, p.client.value))
  }

  // A tracked connection belongs to a handler that has yet to remove it.
  ghost predicate ItemOk(s: State, c: Conn) {
    c in s.owner && s.owner[c] in s.handlers &&
    var p := s.handlers[s.owner[c]];
    (p.backend == Some(c) && TracksBackend(p.pc)) || (p.client == Some(c) && TracksClient(p.pc))
  }

  // A handler remembers every connection it obtained.
  ghost predicate OwnerOk(s: State, c: Conn) {
    c in s.owner && s.owner[c] in s.handlers &&
    var p := s.handlers[s.owner[c]];
    p.backend == Some(c) || p.client == Some(c)
  }

  ghost predicate ServeOk(s: State) {
    && (!s.serve.Accepting? ==> s.sessions.draining)
    && (s.serve.Selected? || s.serve.ForcingSelect? || s.serve.ForcingFailed? || s.serve.AwaitServe? ||
        s.serve.ServeReturned?
        ==> s.sessions.items == {})
    && (s.serve.Accepting? || s.serve.Shutting? || s.serve.AwaitDrained? ==> s.taken == {})
    && Left(s) <= s.taken <= s.owner.Keys && s.closed <= s.owner.Keys
  }

  ghost predicate Inv(s: State) {
    && s.sessions.Valid()
    && ServeOk(s)
    && (forall h :: h in s.handlers ==> HandlerOk(s, h, s.handlers[h]))
    && (forall h :: h in s.handlers ==> HandlerCovered(s, s.handlers[h]))
    && (forall c :: c in s.sessions.items ==> ItemOk(s, c))
    && (forall c :: c in s.owner ==> OwnerOk(s, c))
  }

  lemma ServeStepInv(s: State, m: ServeMove)
    requires Inv(s) && ServeEnabled(s, m)
    ensures Inv(AfterServe(s, m))
  {
    SectionsKeepValid(s.sessions, Conn(0));
    var t := AfterServe(s, m);
    forall h | h in t.handlers ensures HandlerOk(t, h, t.handlers[h]) && HandlerCovered(t, t.handlers[h]) {
      ServeKeepsHandler(s, m, h);
    }
    forall c | c in t.sessions.items ensures ItemOk(t, c) { assert ItemOk(s, c); }
    forall c | c in t.owner ensures OwnerOk(t, c) { assert OwnerOk(s, c); }
  }

  lemma ServeKeepsHandler(s: State, m: ServeMove, h: nat)
    requires Inv(s) && ServeEnabled(s, m) && h in s.handlers
    ensures var t := AfterServe(s, m); HandlerOk(t, h, s.handlers[h]) && HandlerCovered(t, s.handlers[h])
  {
    assert HandlerOk(s, h, s.handlers[h]) && HandlerCovered(s, s.handlers[h]);
  }

  predicate Closes(m: HandlerMove) { m.CloseRefused? || m.CloseUnhijacked? || m.CloseLate? || m.RunDeferred? }

  lemma OwnCloses(s: State, h: nat, m: HandlerMove)
    requires HandlerEnabled(s, h, m) && Closes(m) && (m.Start? || HandlerOk(s, h, s.handlers[h]))
    ensures HandlerOk(AfterHandler(s, h, m), h, AfterHandler(s, h, m).handlers[h])
  {
  }

  predicate Obtains(m: HandlerMove) { m.Dial? || m.Hijack? }

  lemma OwnObtains(s: State, h: nat, m: HandlerMove)
    requires Inv(s) && HandlerEnabled(s, h, m) && Obtains(m)
    ensures HandlerOk(AfterHandler(s, h, m), h, AfterHandler(s, h, m).handlers[h])
  {
    assert HandlerOk(s, h, s.handlers[h]);
  }

  lemma OwnProceeds(s: State, h: nat, m: HandlerMove)
    requires HandlerEnabled(s, h, m) && !Closes(m) && !Obtains(m) && (m.Start? || HandlerOk(s, h, s.handlers[h]))
    ensures HandlerOk(AfterHandler(s, h, m), h, AfterHandler(s, h, m).handlers[h])
  {
  }

  lemma OwnCovered(s: State, h: nat, m: HandlerMove)
    requires HandlerEnabled(s, h, m)
    requires m.Start? || (HandlerOk(s, h, s.handlers[h]) && HandlerCovered(s, s.handlers[h]))
    ensures HandlerCovered(AfterHandler(s, h, m), AfterHandler(s, h, m).handlers[h])
  {
  }

  // A handler touches no connection but its own.
  lemma StepFrame(s: State, h: nat, m: HandlerMove, c: Conn)
    requires Inv(s) && HandlerEnabled(s, h, m) && c in s.owner && s.owner[c] != h
    ensures var t := AfterHandler(s, h, m);
            && c in t.owner && t.owner[c] == s.owner[c]
            && (c in t.closed <==> c in s.closed) && (c in t.sessions.items <==> c in s.sessions.items)
            && t.taken == s.taken && t.serve == s.serve
  {
    assert m.Start? || HandlerOk(s, h, s.handlers[h]);
  }

  lemma OtherStep(s: State, h: nat, m: HandlerMove, g: nat)
    requires Inv(s) && HandlerEnabled(s, h, m) && g in s.handlers && g != h
    ensures var t := AfterHandler(s, h, m);
            g in t.handlers && HandlerOk(t, g, t.handlers[g]) && HandlerCovered(t, t.handlers[g])
  {
    var p := s.handlers[g];
    assert HandlerOk(s, g, p) && HandlerCovered(s, p);
    OnlyOwnHandler(s, h, m, g);
    hide AfterHandler;
    if p.backend.Some? { StepFrame(s, h, m, p.backend.value); }
    if p.client.Some? { StepFrame(s, h, m, p.client.value); }
  }

  lemma OthersItemStep(s: State, h: nat, m: HandlerMove, c: Conn)
    requires Inv(s) && HandlerEnabled(s, h, m) && c in s.sessions.items && s.owner[c] != h
    ensures ItemOk(AfterHandler(s, h, m), c)
  {
    assert ItemOk(s, c);
    StepFrame(s, h, m, c);
  }

  lemma OwnItemCloses(s: State, h: nat, m: HandlerMove, c: Conn)
    requires Inv(s) && HandlerEnabled(s, h, m) && Closes(m) && c in AfterHandler(s, h, m).sessions.items
    requires ItemOk(s, c) && s.owner[c] == h
    ensures ItemOk(AfterHandler(s, h, m), c)
  {
    assert HandlerOk(s, h, s.handlers[h]);
  }

  lemma OwnItemProceeds(s: State, h: nat, m: HandlerMove, c: Conn)
    requires Inv(s) && HandlerEnabled(s, h, m) && !Closes(m) && c in AfterHandler(s, h, m).sessions.items
    requires c in s.sessions.items ==> ItemOk(s, c) && s.owner[c] == h
    ensures ItemOk(AfterHandler(s, h, m), c)
  {
    if m.AddBackend? || m.AddClient? {
      OwnItemAdds(s, h, m, c);
    } else {
      assert m.Start? || HandlerOk(s, h, s.handlers[h]);
    }
  }

  lemma OwnItemAdds(s: State, h: nat, m: HandlerMove, c: Conn)
    requires Inv(s) && HandlerEnabled(s, h, m) && (m.AddBackend? || m.AddClient?)
    requires c in AfterHandler(s, h, m).sessions.items
    requires c in s.sessions.items ==> ItemOk(s, c) && s.owner[c] == h
    ensures ItemOk(AfterHandler(s, h, m), c)
  {
    assert HandlerOk(s, h, s.handlers[h]);
  }

  lemma ItemStep(s: State, h: nat, m: HandlerMove, c: Conn)
    requires Inv(s) && HandlerEnabled(s, h, m) && c in AfterHandler(s, h, m).sessions.items
    ensures ItemOk(AfterHandler(s, h, m), c)
  {
    if c in s.sessions.items && s.owner[c] != h {
      OthersItemStep(s, h, m, c);
    } else if Closes(m) {
      ClosesTracksNothing(s, h, m, c);
      OwnItemCloses(s, h, m, c);
    } else {
      OwnItemProceeds(s, h, m, c);
    }
  }

  lemma ClosesTracksNothing(s: State, h: nat, m: HandlerMove, c: Conn)
    requires h in s.handlers && Closes(m) && c in AfterHandler(s, h, m).sessions.items
    ensures c in s.sessions.items
  {
  }

  lemma OwnerStep(s: State, h: nat, m: HandlerMove, c: Conn)
    requires HandlerEnabled(s, h, m) && (m.Start? || HandlerOk(s, h, s.handlers[h]))
    requires c in AfterHandler(s, h, m).owner && (c in s.owner ==> OwnerOk(s, c))
    ensures OwnerOk(AfterHandler(s, h, m), c)
  {
  }

  lemma HandlerStepInv(s: State, h: nat, m: HandlerMove)
    requires Inv(s) && HandlerEnabled(s, h, m)
    ensures Inv(AfterHandler(s, h, m))
  {
    hide HandlerOk, HandlerCovered, ItemOk, OwnerOk, ServeOk, AfterHandler;
    var t := AfterHandler(s, h, m);
    forall g | g in t.handlers ensures HandlerOk(t, g, t.handlers[g]) && HandlerCovered(t, t.handlers[g]) {
      if g != h {
        OnlyOwnHandler(s, h, m, g);
        OtherStep(s, h, m, g);
      } else {
        assert m.Start? || (HandlerOk(s, h, s.handlers[h]) && HandlerCovered(s, s.handlers[h]));
        OwnCovered(s, h, m);
        if Closes(m) { OwnCloses(s, h, m); } else if Obtains(m) { OwnObtains(s, h, m); } else { OwnProceeds(s, h, m); }
      }
    }
    forall c | c in t.sessions.items ensures ItemOk(t, c) { ItemStep(s, h, m, c); }
    forall c | c in t.owner ensures OwnerOk(t, c) {
      assert c in s.owner ==> OwnerOk(s, c);
      assert m.Start? || HandlerOk(s, h, s.handlers[h]);
      OwnerStep(s, h, m, c);
    }
    HandlerServeOk(s, h, m);
    SectionsValid(s, h, m);
  }

  lemma HandlerServeOk(s: State, h: nat, m: HandlerMove)
    requires Inv(s) && HandlerEnabled(s, h, m)
    ensures ServeOk(AfterHandler(s, h, m))
  {
    assert m.Start? || HandlerOk(s, h, s.handlers[h]);
  }

  lemma SectionsValid(s: State, h: nat, m: HandlerMove)
    requires s.sessions.Valid()
    ensures AfterHandler(s, h, m).sessions.Valid()
  {
    if h in s.handlers {
      var p := s.handlers[h];
      if p.backend.Some? { SectionsKeepValid(s.sessions, p.backend.value); }
      if p.client.Some? { SectionsKeepValid(s.sessions, p.client.value); }
    }
  }

  lemma InvStep(s: State, a: Action)
    requires Inv(s) && Enabled(s, a)
    ensures Inv(Apply(s, a))
  {
    match a
    case OfHandler(h, m) => HandlerStepInv(s, h, m);
    case OfServe(m) => ServeStepInv(s, m);
  }

  // ---- Whole runs ----

  ghost predicate IsRun(run: seq<State>) {
    Runs.IsRun(run, INIT, Enabled, Apply)
  }

  lemma EveryRunKeepsInv(run: seq<State>, n: nat)
    requires IsRun(run) && n < |run|
    ensures Inv(run[n])
  {
    forall s, a | Inv(s) && Enabled(s, a) ensures Inv(Apply(s, a)) { InvStep(s, a); }
    Runs.Stable(run, INIT, Enabled, Apply, Inv, 0, n);
  }

  // In every interleaving, the drained channel is closed (once) exactly when
  // draining with nothing tracked, and dials are cancelled exactly when
  // draining.
  lemma DrainedExactlyWhenEmpty(run: seq<State>, n: nat)
    requires IsRun(run) && n < |run|
    ensures var s := run[n].sessions;
            && s.drainedCloses <= 1
            && (s.drainedCloses == 1 <==> s.draining && s.items == {})
            && (s.cancelled <==> s.draining)
  {
    EveryRunKeepsInv(run, n);
  }

  lemma StepDrains(s: State, a: Action)
    requires Enabled(s, a) && s.sessions.draining
    ensures Apply(s, a).sessions.draining && Apply(s, a).sessions.items <= s.sessions.items
    ensures s.serve.ServeReturned? ==> Apply(s, a).serve.ServeReturned?
  {
    if a.OfHandler? { HandlerDrains(s, a.h, a.move); }
  }

  lemma HandlerDrains(s: State, h: nat, m: HandlerMove)
    requires s.sessions.draining
    ensures var t := AfterHandler(s, h, m);
            t.sessions.draining && t.sessions.items <= s.sessions.items && t.serve == s.serve
  {
  }

  // Draining never reverts, and from then on nothing new is ever tracked.
  lemma {:induction false} DrainingNeverReverts(run: seq<State>, i: nat, j: nat)
    requires IsRun(run) && i <= j < |run| && run[i].sessions.draining
    ensures run[j].sessions.draining && run[j].sessions.items <= run[i].sessions.items
    ensures run[i].serve.ServeReturned? ==> run[j].serve.ServeReturned?
    decreases j
  {
    if i < j {
      DrainingNeverReverts(run, i, j - 1);
      var a := Runs.LastAction(run, INIT, Enabled, Apply, j);
      StepDrains(run[j - 1], a);
    }
  }

  // Once Serve has returned, then and in every later state no connection is
  // tracked, and every connection a handler has registered and not yet
  // released is closed.
  lemma SettledAfterServe(run: seq<State>, i: nat, j: nat)
    requires IsRun(run) && i <= j < |run| && run[i].serve.ServeReturned?
    ensures run[j].sessions.items == {}
    ensures forall h :: h in run[j].handlers ==>
      var p := run[j].handlers[h];
      && (TracksBackend(p.pc) ==> p.backend.Some? && p.backend.value in run[j].closed)
      && (TracksClient(p.pc) ==> p.client.Some? && p.client.value in run[j].closed)
  {
    EveryRunKeepsInv(run, i);
    EveryRunKeepsInv(run, j);
    DrainingNeverReverts(run, i, j);
    forall h | h in run[j].handlers
      ensures HandlerOk(run[j], h, run[j].handlers[h]) && HandlerCovered(run[j], run[j].handlers[h])
    {
    }
  }

  // What may still be open then: a backend or client whose handler is between
  // obtaining it and closing it after a refusal, and the backend of a handler
  // that returned because its client came too late.
  lemma OpenAfterServe(run: seq<State>, i: nat, j: nat, c: Conn)
    requires IsRun(run) && i <= j < |run| && run[i].serve.ServeReturned?
    requires c in run[j].owner && c !in run[j].closed
    ensures run[j].owner[c] in run[j].handlers
    ensures var p := run[j].handlers[run[j].owner[c]];
            || (p.backend == Some(c) && (p.pc.Dialed? || p.pc.Refused?))
            || (p.client == Some(c) && (p.pc.Hijacked? || p.pc.Late?))
            || (p.backend == Some(c) && p.pc.Returned? && p.late)
  {
    EveryRunKeepsInv(run, j);
    SettledAfterServe(run, i, j);
    var s := run[j];
    assert OwnerOk(s, c);
    assert HandlerOk(s, s.owner[c], s.handlers[s.owner[c]]);
  }

  // ---- What a handler leaves behind ----

  // In the step from run[k], forceClose's lock section took what was tracked.
  ghost predicate TookAt(run: seq<State>, k: nat, c: Conn)
    requires k + 1 < |run|
  {
    !Forcing(run[k].serve) && Forcing(run[k + 1].serve) && c in run[k].sessions.items
  }

  lemma {:induction false} TakenWhenTracked(run: seq<State>, n: nat, c: Conn)
    requires IsRun(run) && n < |run|
    ensures c in run[n].taken <==> exists k: nat :: k < n && TookAt(run, k, c)
  {
    if n > 0 {
      TakenWhenTracked(run, n - 1, c);
      var a := Runs.LastAction(run, INIT, Enabled, Apply, n);
      assert c in run[n].taken <==> c in run[n - 1].taken || TookAt(run, n - 1, c);
    }
  }

  // In the step from run[k], handler h offered its client to the sessions.
  ghost predicate OffersClientAt(run: seq<State>, k: nat, h: nat)
    requires k + 1 < |run|
  {
    && h in run[k].handlers && run[k].handlers[h].pc.Hijacked?
    && h in run[k + 1].handlers && !run[k + 1].handlers[h].pc.Hijacked?
  }

  lemma OwnLateStep(s: State, h: nat, m: HandlerMove)
    requires HandlerEnabled(s, h, m) && (h in s.handlers ==> HandlerOk(s, h, s.handlers[h]))
    ensures var t := AfterHandler(s, h, m);
      h in t.handlers &&
      (t.handlers[h].late <==>
        h in s.handlers && (s.handlers[h].late ||
            (s.handlers[h].pc.Hijacked? && !t.handlers[h].pc.Hijacked? && s.sessions.draining)))
  {
  }

  lemma LateStep(s: State, a: Action, h: nat)
    requires Inv(s) && Enabled(s, a) && h in Apply(s, a).handlers
    ensures var t := Apply(s, a);
      t.handlers[h].late <==>
        h in s.handlers && (s.handlers[h].late ||
            (s.handlers[h].pc.Hijacked? && !t.handlers[h].pc.Hijacked? && s.sessions.draining))
  {
    if a.OfHandler? {
      hide AfterHandler, HandlerOk;
      if a.h == h { OwnLateStep(s, h, a.move); } else { OnlyOwnHandler(s, a.h, a.move, h); }
    }
  }

  lemma HandlersStay(s: State, a: Action, h: nat)
    requires Enabled(s, a) && h in s.handlers
    ensures h in Apply(s, a).handlers
  {}

  lemma {:induction false} LateWhenOfferedInDrain(run: seq<State>, n: nat, h: nat)
    requires IsRun(run) && n < |run|
    ensures (h in run[n].handlers && run[n].handlers[h].late) <==>
      exists k: nat :: k < n && OffersClientAt(run, k, h) && run[k].sessions.draining
  {
    if n > 0 {
      LateWhenOfferedInDrain(run, n - 1, h);
      EveryRunKeepsInv(run, n - 1);
      var a := Runs.LastAction(run, INIT, Enabled, Apply, n);
      if h in run[n].handlers { LateStep(run[n - 1], a, h); }
      if h in run[n - 1].handlers { HandlersStay(run[n - 1], a, h); }
      assert (h in run[n].handlers && run[n].handlers[h].late) <==>
        (h in run[n - 1].handlers && run[n - 1].handlers[h].late) ||
            (OffersClientAt(run, n - 1, h) && run[n - 1].sessions.draining);
    }
  }

  // What a CONNECT handler leaves behind when it returns: its hijacked client
  // is closed and neither connection is tracked. Its backend is closed unless
  // the client was offered after draining began; then it is closed exactly
  // when forceClose found the backend tracked and has got round to it.
  lemma HandlerReturnsClean(run: seq<State>, n: nat, h: nat)
    requires IsRun(run) && n < |run| && h in run[n].handlers && run[n].handlers[h].pc.Returned?
    ensures var s, p := run[n], run[n].handlers[h];
            && (p.client.Some? ==> p.client.value in s.closed && p.client.value !in s.sessions.items)
            && (p.backend.Some? ==>
                  && p.backend.value !in s.sessions.items
                  && var b := p.backend.value;
                     (b in s.closed <==>
                        || (forall k: nat :: k < n && OffersClientAt(run, k, h) ==> !run[k].sessions.draining)
                        || ((exists k: nat :: k < n && TookAt(run, k, b)) && b !in Left(s))))
  {
    EveryRunKeepsInv(run, n);
    var s, p := run[n], run[n].handlers[h];
    assert HandlerOk(s, h, p);
    LateWhenOfferedInDrain(run, n, h);
    if p.backend.Some? { TakenWhenTracked(run, n, p.backend.value); }
    assert p.client.Some? && p.client.value in s.sessions.items ==> ItemOk(s, p.client.value);
    assert p.backend.Some? && p.backend.value in s.sessions.items ==> ItemOk(s, p.backend.value);
  }

  ghost predicate PastRegistration(s: State, h: nat) {
    h in s.handlers && s.handlers[h].client.Some? && !s.handlers[h].pc.Hijacked? && !s.handlers[h].late
  }

  lemma OnlyOwnHandler(s: State, h: nat, m: HandlerMove, g: nat)
    requires g != h
    ensures var t := AfterHandler(s, h, m);
            (g in t.handlers <==> g in s.handlers) && (g in s.handlers ==> t.handlers[g] == s.handlers[g])
  {
  }

  lemma OwnStaysUnregistered(s: State, h: nat, m: HandlerMove)
    requires h in s.handlers ==> HandlerOk(s, h, s.handlers[h])
    requires HandlerEnabled(s, h, m) && s.sessions.draining && !PastRegistration(s, h)
    ensures !PastRegistration(AfterHandler(s, h, m), h)
  {
  }

  lemma StepKeepsUnregistered(s: State, a: Action, h: nat)
    requires Inv(s) && Enabled(s, a) && s.sessions.draining && !PastRegistration(s, h)
    ensures !PastRegistration(Apply(s, a), h)
  {
    if a.OfHandler? && a.h == h {
      OwnStaysUnregistered(s, h, a.move);
    } else if a.OfHandler? {
      OnlyOwnHandler(s, a.h, a.move, h);
    }
  }

  lemma {:induction false} StaysUnregistered(run: seq<State>, i: nat, j: nat, h: nat)
    requires IsRun(run) && i <= j < |run| && run[i].sessions.draining && !PastRegistration(run[i], h)
    ensures !PastRegistration(run[j], h)
    decreases j
  {
    if i < j {
      StaysUnregistered(run, i, j - 1, h);
      EveryRunKeepsInv(run, j - 1);
      DrainingNeverReverts(run, i, j - 1);
      var a := Runs.LastAction(run, INIT, Enabled, Apply, j);
      StepKeepsUnregistered(run[j - 1], a, h);
    }
  }

  // A handler whose connections were not both registered when draining began
  // never relays.
  lemma NoRelayAfterDraining(run: seq<State>, i: nat, j: nat, h: nat)
    requires IsRun(run) && i <= j < |run| && run[i].sessions.draining && !PastRegistration(run[i], h)
    ensures h in run[j].handlers ==> !run[j].handlers[h].pc.Relaying?
  {
    StaysUnregistered(run, i, j, h);
    EveryRunKeepsInv(run, j);
    assert h in run[j].handlers ==> HandlerOk(run[j], h, run[j].handlers[h]);
  }

  lemma Extend(run: seq<State>, a: Action) returns (longer: seq<State>)
    requires IsRun(run) && Enabled(run[|run| - 1], a)
    ensures IsRun(longer) && longer[|longer| - 1] == Apply(run[|run| - 1], a)
  {
    longer := run + [Apply(run[|run| - 1], a)];
    Runs.Extended(run, INIT, Enabled, Apply, a);
  }

  // In the step from run[k], handler h offered its backend to the sessions.
  ghost predicate OffersBackendAt(run: seq<State>, k: nat, h: nat)
    requires k + 1 < |run|
  {
    && h in run[k].handlers && run[k].handlers[h].pc.Dialed?
    && h in run[k + 1].handlers && !run[k + 1].handlers[h].pc.Dialed?
  }

  // A backend is refused exactly when draining was set at that step, and then
  // nothing more is done with it than closing it.
  lemma BackendRefusedInDrain(run: seq<State>, k: nat, h: nat)
    requires IsRun(run) && k + 1 < |run| && OffersBackendAt(run, k, h)
    ensures run[k + 1].handlers[h].pc == if run[k].sessions.draining then Refused else Tracked
  {
    EveryRunKeepsInv(run, k);
    var a := Runs.LastAction(run, INIT, Enabled, Apply, k + 1);
    if a.OfHandler? && a.h != h { OnlyOwnHandler(run[k], a.h, a.move, h); }
    assert HandlerOk(run[k], h, run[k].handlers[h]);
  }

  // A handler relays between two registered, open connections.
  lemma AHandlerRelays() returns (run: seq<State>)
    ensures IsRun(run)
    ensures var s := run[|run| - 1];
            && s.handlers == map[0 := Handler(Relaying, Some(Conn(1)), Some(Conn(2)), false)]
            && s.sessions.items == {Conn(1), Conn(2)} && s.closed == {} && !s.sessions.draining
  {
    run := Extend([INIT], OfHandler(0, Start));
    run := Extend(run, OfHandler(0, Dial(Conn(1))));
    run := Extend(run, OfHandler(0, AddBackend));
    run := Extend(run, OfHandler(0, Hijack(Conn(2))));
    run := Extend(run, OfHandler(0, AddClient));
    run := Extend(run, OfHandler(0, RelayStart));
  }

  // A drain that takes too long closes what is still tracked before Serve returns.
  lemma AForcedDrain() returns (run: seq<State>)
    ensures IsRun(run)
    ensures var s := run[|run| - 1];
            && s.serve.ServeReturned? && s.taken == {Conn(1)} && s.closed == {Conn(1)} && s.sessions.items == {}
            && s.handlers == map[0 := Handler(Tracked, Some(Conn(1)), None, false)]
  {
    run := Extend([INIT], OfHandler(0, Start));
    run := Extend(run, OfHandler(0, Dial(Conn(1))));
    run := Extend(run, OfHandler(0, AddBackend));
    run := Extend(run, OfServe(Stop));
    run := Extend(run, OfServe(ShutdownDone(false)));
    run := Extend(run, OfServe(Timeout));
    run := Extend(run, OfServe(ForceOne(Conn(1))));
    run := Extend(run, OfServe(ForceDone));
    run := Extend(run, OfServe(CheckShutdown));
    run := Extend(run, OfServe(SeeServeDone));
  }

  // A drain with nothing tracked ends without force.
  lemma AQuietDrain() returns (run: seq<State>)
    ensures IsRun(run) && run[|run| - 1].serve.ServeReturned? && run[|run| - 1].taken == {}
  {
    run := Extend([INIT], OfServe(Stop));
    run := Extend(run, OfServe(ShutdownDone(false)));
    run := Extend(run, OfServe(SeeDrained));
    run := Extend(run, OfServe(CheckShutdown));
    run := Extend(run, OfServe(SeeServeDone));
  }

  // The exception is real: draining that begins between the two registrations
  // makes a handler return with its backend open.
  lemma LateClientLeavesBackendOpen() returns (run: seq<State>)
    ensures IsRun(run)
    ensures var s := run[|run| - 1];
            && 0 in s.handlers && s.handlers[0] == Handler(Returned, Some(Conn(1)), Some(Conn(2)), true)
            && Conn(1) !in s.closed
  {
    run := Extend([INIT], OfHandler(0, Start));
    run := Extend(run, OfHandler(0, Dial(Conn(1))));
    run := Extend(run, OfHandler(0, AddBackend));
    run := Extend(run, OfHandler(0, Hijack(Conn(2))));
    run := Extend(run, OfServe(Stop));
    run := Extend(run, OfHandler(0, AddClient));
    run := Extend(run, OfHandler(0, CloseLate));
    run := Extend(run, OfHandler(0, RunDeferred));
  }
}
