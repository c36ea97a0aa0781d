// The local side of a link: one accept loop, one goroutine per client, and a
// tracker of the connections that an overdue drain must close.
//
// One transition system for Serve, its stream goroutines and the context they
// share. Each action is one lock section, one connection operation or one
// program point.
module Bridge {
  import opened Conns
  import Runs
  import opened Wrappers

  // ---- The tracker ----

  datatype Tracker<C> = Tracker(closing: bool, items: set<C>)

  function Added<C>(t: Tracker<C>, c: C): Tracker<C> {
    if t.closing then t else t.(items := t.items + {c})
  }

  function Removed<C>(t: Tracker<C>, c: C): Tracker<C> { t.(items := t.items - {c}) }

  class Connections {
    var closing: bool
    var items: set<Connection>

    ghost function View(): Tracker<Connection>
      reads this
    {
      Tracker(closing, items)
    }

    constructor ()
      ensures View() == Tracker(false, {})
    {
      closing, items := false, {};
    }

    method Add(connection: Connection) returns (ok: bool)
      modifies this, connection
      ensures View() == Added(old(View()), connection) && ok == !old(closing)
      ensures connection.closes == old(connection.closes) + (if ok then 0 else 1)
    {
      if closing {
        connection.Close();
        return false;
      }
      items := items + {connection};
      return true;
    }

    method Remove(connection: Connection)
      modifies this
      ensures View() == Removed(old(View()), connection)
    {
      items := items - {connection};
    }

    // Closes what is tracked but leaves it tracked: each stream removes its own.
    method Close()
      modifies this, items
      ensures View() == Tracker(true, old(items))
      ensures forall c :: c in items ==> c.closes == old(c.closes) + 1
    {
      closing := true;
      var left := items;
      while left != {}
        invariant left <= items && View() == Tracker(true, old(items))
        invariant forall c :: c in items - left ==> c.closes == old(c.closes) + 1
        invariant forall c :: c in left ==> c.closes == old(c.closes)
        decreases left
      {
        var connection :| connection in left;
        connection.Close();
        left := left - {connection};
      }
    }
  }

  // ---- The system ----

  datatype StreamPc =
    | Dialing
    | Dialed          // holds a remote, context not checked again
    | AddingRemote
    | RefusedRemote   // Add refused the remote and is about to close it
    | Relaying
    | RemovingRemote  // deferred calls, in the order they run
    | ClosingRemote
    | RemovingClient
    | ClosingClient
    | Leaving         // about to call streams.Done

  datatype Stream = Stream(pc: StreamPc, remote: Option<Conn>)

  datatype MainPc =
    | Accepting
    | Got(c: Conn)       // accepted, context not checked
    | Adding(c: Conn)
    | Refusing(c: Conn)  // Add refused the client and is about to close it
    | Spawning(c: Conn)
    | Draining           // waits for the streams or the drain timeout
    | Closing(left: set<Conn>, failed: bool)  // active.Close closes what it took
    | Closed(failed: bool)                    // waits for the streams again
    | Finished(failed: bool)

  datatype State = State(
    cancelled: bool,
    main: MainPc,
    tracker: Tracker<Conn>,
    streams: map<Conn, Stream>,  // live stream goroutines by client
    group: int,                  // the wait group's counter
    accepted: set<Conn>,
    dialed: map<Conn, Conn>,     // remotes the dialer returned, to their client
    closed: set<Conn>)

  datatype MainMove =
    | AcceptConn(c: Conn)
    | AcceptError(netClosed: bool)
    | CheckContext
    | AddClient
    | CloseRefused
    | Spawn
    | DrainTimeout
    | CloseOne(c: Conn)
    | CloseAllDone
    | Return

  datatype StreamMove =
    | DialFail
    | Dial(c: Conn)
    | CheckAgain
    | AddRemote
    | CloseRefusedRemote
    | RelayEnd
    | RunDeferred

  datatype Action = OfMain(main: MainMove) | OfStream(client: Conn, stream: StreamMove) | Cancel

  const INIT := State(false, Accepting, Tracker(false, {}), map[], 0, {}, map[], {})

  ghost predicate MainEnabled(s: State, m: MainMove) {
    match m
    case AcceptConn(c) => s.main.Accepting? && c !in s.accepted && c !in s.dialed
    case AcceptError(_) => s.main.Accepting?
    case CheckContext => s.main.Got?
    case AddClient => s.main.Adding?
    case CloseRefused => s.main.Refusing?
    case Spawn => s.main.Spawning?
    case DrainTimeout => s.main.Draining?
    case CloseOne(c) => s.main.Closing? && c in s.main.left
    case CloseAllDone => s.main.Closing? && s.main.left == {}
    case Return => (s.main.Draining? || s.main.Closed?) && s.group == 0
  }

  function AfterMain(s: State, m: MainMove): State {
    match m
    case AcceptConn(c) => s.(main := Got(c), accepted := s.accepted + {c})
    case AcceptError(netClosed) =>
      if s.cancelled || netClosed then s.(main := Draining)
      else s.(main := Closing(s.tracker.items, true), tracker := s.tracker.(closing := true))
    case CheckContext =>
      if !s.main.Got? then s
      else if s.cancelled then s.(main := Draining, closed := s.closed + {s.main.c})
      else s.(main := Adding(s.main.c))
    case AddClient =>
      if !s.main.Adding? then s
      else s.(tracker := Added(s.tracker, s.main.c),
              main := if s.tracker.closing then Refusing(s.main.c) else Spawning(s.main.c))
    case CloseRefused =>
      if !s.main.Refusing? then s else s.(main := Draining, closed := s.closed + {s.main.c})
    case Spawn =>
      if !s.main.Spawning? then s
      else s.(main := Accepting, group := s.group + 1, streams := s.streams[s.main.c := Stream(Dialing, None)])
    case DrainTimeout => s.(main := Closing(s.tracker.items, false), tracker := s.tracker.(closing := true))
    case CloseOne(c) =>
      if !s.main.Closing? then s
      else s.(main := s.main.(left := s.main.left - {c}), closed := s.closed + {c})
    case CloseAllDone => if s.main.Closing? then s.(main := Closed(s.main.failed)) else s
    case Return => s.(main := Finished(s.main.Closed? && s.main.failed))
  }

  ghost predicate StreamEnabled(s: State, k: Conn, m: StreamMove) {
    k in s.streams &&
    var pc := s.streams[k].pc;
    match m
    case DialFail => pc.Dialing?
    case Dial(c) => pc.Dialing? && c !in s.accepted && c !in s.dialed
    case CheckAgain => pc.Dialed?
    case AddRemote => pc.AddingRemote?
    case CloseRefusedRemote => pc.RefusedRemote?
    case RelayEnd => pc.Relaying?
    case RunDeferred =>
      pc.RemovingRemote? || pc.ClosingRemote? || pc.RemovingClient? || pc.ClosingClient? || pc.Leaving?
  }

  function Put(s: State, k: Conn, p: Stream): State {
    s.(streams := s.streams[k := p])
  }

  function CloseConn(s: State, c: Option<Conn>): State {
    if c.Some? then s.(closed := s.closed + {c.value}) else s
  }

  function AfterStream(s: State, k: Conn, m: StreamMove): State {
    if k !in s.streams then s
    else
      var p := s.streams[k];
      match m
      case DialFail => Put(s, k, p.(pc := RemovingClient))
      case Dial(c) => Put(s.(dialed := s.dialed[c := k]), k, Stream(Dialed, Some(c)))
      case CheckAgain => Put(s, k, p.(pc := if s.cancelled then ClosingRemote else AddingRemote))
      case AddRemote =>
        if p.remote.None? then s
        else Put(s.(tracker := Added(s.tracker, p.remote.value)), k,
                 p.(pc := if s.tracker.closing then RefusedRemote else Relaying))
      case CloseRefusedRemote => Put(CloseConn(s, p.remote), k, p.(pc := ClosingRemote))
      case RelayEnd => Put(s, k, p.(pc := RemovingRemote))
      case RunDeferred =>
        match p.pc
        case RemovingRemote =>
          if p.remote.None? then s
          else Put(s.(tracker := Removed(s.tracker, p.remote.value)), k, p.(pc := ClosingRemote))
        case ClosingRemote => Put(CloseConn(s, p.remote), k, p.(pc := RemovingClient))
        case RemovingClient => Put(s.(tracker := Removed(s.tracker, k)), k, p.(pc := ClosingClient))
        case ClosingClient => Put(CloseConn(s, Some(k)), k, p.(pc := Leaving))
        case _ => s.(streams := s.streams - {k}, group := s.group - 1)
  }

  ghost predicate Enabled(s: State, a: Action) {
    match a
    case OfMain(m) => MainEnabled(s, m)
    case OfStream(k, m) => StreamEnabled(s, k, m)
    case Cancel => true
  }

  function Apply(s: State, a: Action): State {
    match a
    case OfMain(m) => AfterMain(s, m)
    case OfStream(k, m) => AfterStream(s, k, m)
    case Cancel => s.(cancelled := true)
  }

  // ---- Invariant ----

  ghost predicate MainHolds(s: State, c: Conn) {
    (s.main.Got? || s.main.Adding? || s.main.Spawning?) && s.main.c == c
  }

  // An accepted client is closed, or someone will still close it.
  ghost predicate ClientOk(s: State, c: Conn) {
    || MainHolds(s, c)
    || (c in s.streams && (s.streams[c].pc.Leaving? ==> c in s.closed))
    || (c !in s.streams && c in s.closed)
  }

  ghost predicate OwnsRemote(p: Stream, r: Conn) {
    p.remote == Some(r) && !p.pc.RemovingClient? && !p.pc.ClosingClient? && !p.pc.Leaving?
  }

  // A remote the dialer returned is closed, or its stream will still close it.
  ghost predicate RemoteOk(s: State, r: Conn) {
    r in s.dialed && r !in s.accepted && s.dialed[r] in s.accepted &&
    (r in s.closed || (s.dialed[r] in s.streams && OwnsRemote(s.streams[s.dialed[r]], r)))
  }

  // A tracked connection has an owner that will still remove it.
  ghost predicate ItemOk(s: State, c: Conn) {
    || (s.main.Spawning? && s.main.c == c)
    || (c in s.streams && !s.streams[c].pc.ClosingClient? && !s.streams[c].pc.Leaving?)
    || (c in s.dialed && s.dialed[c] in s.streams &&
        var p := s.streams[s.dialed[c]];
        p.remote == Some(c) && (p.pc.Relaying? || p.pc.RemovingRemote?))
  }

  ghost predicate StreamOk(s: State, k: Conn) {
    k in s.streams && k in s.accepted && !MainHolds(s, k) &&
    var p := s.streams[k];
    && (p.remote.Some? ==> p.remote.value in s.dialed && s.dialed[p.remote.value] == k)
    && (p.pc.Dialing? ==> p.remote.None?)
    && (p.remote.None? ==>
          && !p.pc.Dialed? && !p.pc.AddingRemote? && !p.pc.RefusedRemote?
          && !p.pc.Relaying? && !p.pc.RemovingRemote? && !p.pc.ClosingRemote?)
  }

  ghost predicate MainOk(s: State) {
    && !s.main.Refusing?
    && (s.tracker.closing ==> s.main.Closing? || s.main.Closed? || s.main.Finished?)
    && (s.main.Got? || s.main.Adding? || s.main.Spawning? ==> s.main.c in s.accepted && s.main.c !in s.streams)
    && (s.main.Finished? ==> s.group == 0)
    && s.group == |s.streams|
  }

  ghost predicate Inv(s: State) {
    && MainOk(s)
    && (forall c :: c in s.accepted ==> ClientOk(s, c))
    && (forall r :: r in s.dialed ==> RemoteOk(s, r))
    && (forall c :: c in s.tracker.items ==> ItemOk(s, c))
    && (forall k :: k in s.streams ==> StreamOk(s, k))
  }

  // What one step does to one connection. Splitting the invariant by
  // connection keeps each proof about a single owner.
  lemma MainClient(s: State, m: MainMove, c: Conn)
    requires Inv(s) && MainEnabled(s, m) && c in AfterMain(s, m).accepted
    ensures ClientOk(AfterMain(s, m), c)
  {
    assert c in s.accepted ==> ClientOk(s, c);
  }

  lemma MainItem(s: State, m: MainMove, c: Conn)
    requires Inv(s) && MainEnabled(s, m) && c in AfterMain(s, m).tracker.items
    ensures ItemOk(AfterMain(s, m), c)
  {
    assert c in s.tracker.items ==> ItemOk(s, c);
  }

  lemma MainStepInv(s: State, m: MainMove)
    requires Inv(s) && MainEnabled(s, m)
    ensures Inv(AfterMain(s, m))
  {
    var t := AfterMain(s, m);
    forall c | c in t.accepted ensures ClientOk(t, c) { MainClient(s, m, c); }
    forall c | c in t.tracker.items ensures ItemOk(t, c) { MainItem(s, m, c); }
    forall r | r in t.dialed ensures RemoteOk(t, r) { assert RemoteOk(s, r); }
    forall k | k in t.streams ensures StreamOk(t, k) { assert k in s.streams ==> StreamOk(s, k); }
  }

  lemma OnlyOwnStream(s: State, k: Conn, m: StreamMove, g: Conn)
    requires StreamEnabled(s, k, m) && g != k
    ensures var t := AfterStream(s, k, m);
            (g in t.streams <==> g in s.streams) && (g in s.streams ==> t.streams[g] == s.streams[g])
  {
  }

  lemma StreamClient(s: State, k: Conn, m: StreamMove, c: Conn)
    requires StreamOk(s, k) && ClientOk(s, c) && StreamEnabled(s, k, m)
    ensures ClientOk(AfterStream(s, k, m), c)
  {
  }

  lemma OthersRemote(s: State, k: Conn, m: StreamMove, r: Conn)
    requires StreamOk(s, k) && RemoteOk(s, r) && StreamEnabled(s, k, m) && s.dialed[r] != k
    ensures RemoteOk(AfterStream(s, k, m), r)
  {
    OnlyOwnStream(s, k, m, s.dialed[r]);
  }

  lemma OwnRemote(s: State, k: Conn, m: StreamMove, r: Conn)
    requires StreamOk(s, k) && StreamEnabled(s, k, m) && r in AfterStream(s, k, m).dialed
    requires r in s.dialed ==> RemoteOk(s, r) && s.dialed[r] == k
    ensures RemoteOk(AfterStream(s, k, m), r)
  {
  }

  lemma OthersItem(s: State, k: Conn, m: StreamMove, c: Conn)
    requires StreamOk(s, k) && ItemOk(s, c) && StreamEnabled(s, k, m)
    requires c in s.dialed ==> c !in s.accepted
    requires c != k && (c in s.dialed ==> s.dialed[c] != k)
    ensures ItemOk(AfterStream(s, k, m), c)
  {
    OnlyOwnStream(s, k, m, c);
    if c in s.dialed { OnlyOwnStream(s, k, m, s.dialed[c]); }
  }

  lemma OwnItem(s: State, k: Conn, m: StreamMove, c: Conn)
    requires StreamOk(s, k) && ItemOk(s, c) && StreamEnabled(s, k, m) && c in AfterStream(s, k, m).tracker.items
    requires c in s.dialed ==> c !in s.accepted
    requires c == k || (c in s.dialed && s.dialed[c] == k && c !in s.streams)
    ensures ItemOk(AfterStream(s, k, m), c)
  {
  }

  lemma StreamItem(s: State, k: Conn, m: StreamMove, c: Conn)
    requires Inv(s) && StreamEnabled(s, k, m) && c in AfterStream(s, k, m).tracker.items
    ensures ItemOk(AfterStream(s, k, m), c)
  {
    assert StreamOk(s, k);
    assert c in s.dialed ==> RemoteOk(s, c);
    assert c in s.streams ==> StreamOk(s, c);
    if c !in s.tracker.items {
      assert m.AddRemote?;
    } else if c != k && (c in s.dialed ==> s.dialed[c] != k) {
      assert ItemOk(s, c);
      OthersItem(s, k, m, c);
    } else {
      assert ItemOk(s, c);
      OwnItem(s, k, m, c);
    }
  }

  lemma StreamStream(s: State, k: Conn, m: StreamMove, g: Conn)
    requires StreamOk(s, k) && StreamOk(s, g) && StreamEnabled(s, k, m) && g in AfterStream(s, k, m).streams
    ensures StreamOk(AfterStream(s, k, m), g)
  {
    if g != k { OnlyOwnStream(s, k, m, g); }
  }

  lemma StreamLeaves(s: State, k: Conn, m: StreamMove)
    requires StreamEnabled(s, k, m)
    ensures var t := AfterStream(s, k, m);
            || (t.streams.Keys == s.streams.Keys && t.group == s.group)
            || (t.streams.Keys == s.streams.Keys - {k} && t.group == s.group - 1)
  {
  }

  lemma StreamFrame(s: State, k: Conn, m: StreamMove)
    requires StreamEnabled(s, k, m)
    ensures var t := AfterStream(s, k, m);
            t.main == s.main && t.accepted == s.accepted && t.tracker.closing == s.tracker.closing
  {
  }

  lemma StreamMain(s: State, k: Conn, m: StreamMove)
    requires StreamOk(s, k) && MainOk(s) && StreamEnabled(s, k, m)
    ensures MainOk(AfterStream(s, k, m))
  {
    var t := AfterStream(s, k, m);
    StreamLeaves(s, k, m);
    StreamFrame(s, k, m);
    assert |s.streams| == |s.streams.Keys| && |t.streams| == |t.streams.Keys|;
    assert s.group > 0;
  }

  lemma StreamStepInv(s: State, k: Conn, m: StreamMove)
    requires Inv(s) && StreamEnabled(s, k, m)
    ensures Inv(AfterStream(s, k, m))
  {
    var t := AfterStream(s, k, m);
    assert StreamOk(s, k);
    StreamMain(s, k, m);
    StreamFrame(s, k, m);
    StreamLeaves(s, k, m);
    forall c | c in t.accepted ensures ClientOk(t, c) { StreamClient(s, k, m, c); }
    forall r | r in t.dialed ensures RemoteOk(t, r) {
      assert r in s.dialed ==> RemoteOk(s, r);
      if r in s.dialed && s.dialed[r] != k { OthersRemote(s, k, m, r); } else { OwnRemote(s, k, m, r); }
    }
    forall c | c in t.tracker.items ensures ItemOk(t, c) { StreamItem(s, k, m, c); }
    forall g | g in t.streams ensures StreamOk(t, g) { StreamStream(s, k, m, g); }
  }

  lemma InvStep(s: State, a: Action)
    requires Inv(s) && Enabled(s, a)
    ensures Inv(Apply(s, a))
  {
    match a
    case OfMain(m) => MainStepInv(s, m);
    case OfStream(k, m) => StreamStepInv(s, k, m);
    case Cancel =>
  }

  // ---- Whole runs ----

  ghost predicate IsRun(run: seq<State>) {
    Runs.IsRun(run, INIT, Enabled, Apply)
  }

  lemma EveryRunKeepsInv(run: seq<State>, n: nat)
    requires IsRun(run) && n < |run|
    ensures Inv(run[n])
  {
    forall s, a | Inv(s) && Enabled(s, a) ensures Inv(Apply(s, a)) { InvStep(s, a); }
    Runs.Stable(run, INIT, Enabled, Apply, Inv, 0, n);
  }

  // The accept loop never has a client refused: only a drain sets closing.
  lemma RefusalUnreachable(run: seq<State>, n: nat)
    requires IsRun(run) && n < |run|
    ensures !run[n].main.Refusing?
    ensures run[n].main.Adding? ==> !run[n].tracker.closing
  {
    EveryRunKeepsInv(run, n);
  }

  // Everything is over: no stream is live, nothing is tracked, and every
  // client accepted and every remote dialled is closed.
  ghost predicate Settled(s: State) {
    && s.streams == map[] && s.tracker.items == {}
    && s.accepted <= s.closed && s.dialed.Keys <= s.closed
  }

  lemma FinishedIsSettled(s: State)
    requires Inv(s) && s.main.Finished?
    ensures Settled(s)
  {
    assert |s.streams.Keys| == 0;
    forall c | c in s.accepted ensures c in s.closed { assert ClientOk(s, c); }
    forall r | r in s.dialed ensures r in s.closed { assert RemoteOk(s, r); }
    assert forall c :: c in s.tracker.items ==> ItemOk(s, c);
  }

  lemma FinishedStays(s: State, a: Action)
    requires Enabled(s, a) && s.main.Finished? && s.streams == map[]
    ensures Apply(s, a) == s.(cancelled := true)
  {
  }

  // On every path - cancellation, closed listener, accept error, drain timeout -
  // when Serve returns everything it owned is closed, and stays so.
  lemma {:induction false} ServeReturnsSettled(run: seq<State>, i: nat, j: nat)
    requires IsRun(run) && i <= j < |run| && run[i].main.Finished?
    ensures run[j].main == run[i].main && Settled(run[j])
    decreases j
  {
    if i == j {
      EveryRunKeepsInv(run, i);
      FinishedIsSettled(run[i]);
    } else {
      ServeReturnsSettled(run, i, j - 1);
      var a := Runs.LastAction(run, INIT, Enabled, Apply, j);
      FinishedStays(run[j - 1], a);
    }
  }
}
