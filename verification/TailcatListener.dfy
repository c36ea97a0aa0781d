// The in-memory listener that hands Tailcat streams to an accept loop.
//
// The listener shares a mutex, a closing flag, a bounded queue and a channel
// that is closed once. `State` and `Apply` describe it as a transition system:
// one action per lock section, channel operation or program point, so that a
// run of the system is one interleaving of any number of Handle, Accept and
// Close calls. The class `Listener` is the object itself; each of its methods
// is proved to perform a sequence of those same actions.
module TailcatListener {
  import opened Conns
  import Runs

  const BACKLOG: nat := 64

  // Where the one call that runs Close's body is.
  datatype ClosePhase =
    | NotClosed  // closeOnce has not run
    | Locked     // holds the mutex, closing is set
    | Draining   // holds the mutex, the closed channel is closed
    | Finished   // has drained the queue and released the mutex

  // Where one accepting goroutine is.
  datatype AcceptPc =
    | Idle                // not inside Accept
    | Waiting             // past the first select
    | Holding(c: Conn)    // received a connection, has not locked yet
    | Cleared(c: Conn)    // its lock section saw closing unset
    | Condemned(c: Conn)  // its lock section saw closing set

  datatype State = State(
    phase: ClosePhase,
    closing: bool,
    done: bool,              // the closed channel has been closed
    queue: seq<Conn>,        // the buffered channel of incoming connections
    accepts: seq<AcceptPc>,  // one per accepting goroutine
    delivered: seq<Conn>,    // returned by Accept, oldest first
    shut: multiset<Conn>,    // one element per Close call the listener made
    arrivals: seq<Conn>)     // offered to Handle, oldest first
  {
    ghost predicate MutexFree() { phase.NotClosed? || phase.Finished? }
  }

  datatype AcceptMove =
    | Enter    // first select: the closed channel is still open
    | Abort    // second select takes the closed channel
    | Receive  // second select takes the queue
    | Inspect  // lock, read closing, unlock
    | Reject   // close the connection, return net.ErrClosed
    | Return   // return the connection

  datatype CloseMove = Lock | Signal | Drain | Unlock

  datatype Action = Handle(c: Conn) | Accept(who: nat, accept: AcceptMove) | Close(close: CloseMove)

  ghost function Init(acceptors: nat): State {
    State(NotClosed, false, false, [], seq(acceptors, _ => Idle), [], multiset{}, [])
  }

  ghost predicate AcceptEnabled(s: State, who: nat, m: AcceptMove) {
    who < |s.accepts| &&
    match m
    case Enter => s.accepts[who].Idle? && !s.done
    case Abort => s.accepts[who].Waiting? && s.done
    case Receive => s.accepts[who].Waiting? && s.queue != []
    case Inspect => s.accepts[who].Holding? && s.MutexFree()
    case Reject => s.accepts[who].Condemned?
    case Return => s.accepts[who].Cleared?
  }

  ghost predicate Enabled(s: State, a: Action) {
    match a
    case Handle(_) => s.MutexFree()
    case Accept(who, m) => AcceptEnabled(s, who, m)
    case Close(Lock) => s.phase.NotClosed?
    case Close(Signal) => s.phase.Locked?
    case Close(Drain) => s.phase.Draining? && s.queue != []
    case Close(Unlock) => s.phase.Draining? && s.queue == []
  }

  ghost function AfterHandle(s: State, c: Conn): State {
    if s.closing || |s.queue| >= BACKLOG then
      s.(arrivals := s.arrivals + [c], shut := s.shut + multiset{c})
    else
      s.(arrivals := s.arrivals + [c], queue := s.queue + [c])
  }

  ghost function AfterAccept(s: State, who: nat, m: AcceptMove): State
    requires AcceptEnabled(s, who, m)
  {
    match m
    case Enter => s.(accepts := s.accepts[who := Waiting])
    case Abort => s.(accepts := s.accepts[who := Idle])
    case Receive => s.(accepts := s.accepts[who := Holding(s.queue[0])], queue := s.queue[1..])
    case Inspect =>
      var c := s.accepts[who].c;
      s.(accepts := s.accepts[who := if s.closing then Condemned(c) else Cleared(c)])
    case Reject => s.(accepts := s.accepts[who := Idle], shut := s.shut + multiset{s.accepts[who].c})
    case Return => s.(accepts := s.accepts[who := Idle], delivered := s.delivered + [s.accepts[who].c])
  }

  ghost function AfterClose(s: State, m: CloseMove): State
    requires m.Drain? ==> s.queue != []
  {
    match m
    case Lock => s.(phase := Locked, closing := true)
    case Signal => s.(phase := Draining, done := true)
    case Drain => s.(queue := s.queue[1..], shut := s.shut + multiset{s.queue[0]})
    case Unlock => s.(phase := Finished)
  }

  ghost function Apply(s: State, a: Action): State {
    if !Enabled(s, a) then s
    else
      match a
      case Handle(c) => AfterHandle(s, c)
      case Accept(who, m) => AfterAccept(s, who, m)
      case Close(m) => AfterClose(s, m)
  }

  // ---- Invariant ----

  ghost function HeldBy(pc: AcceptPc): seq<Conn> {
    if pc.Idle? || pc.Waiting? then [] else [pc.c]
  }

  // How many accepting goroutines hold connection c.
  ghost function Holders(accepts: seq<AcceptPc>, c: Conn): nat {
    if accepts == [] then 0
    else (if HeldBy(accepts[0]) == [c] then 1 else 0) + Holders(accepts[1..], c)
  }

  lemma {:induction false} HoldersUpdate(accepts: seq<AcceptPc>, who: nat, pc: AcceptPc, c: Conn)
    requires who < |accepts|
    ensures Holders(accepts[who := pc], c) + (if HeldBy(accepts[who]) == [c] then 1 else 0)
         == Holders(accepts, c) + (if HeldBy(pc) == [c] then 1 else 0)
  {
    if who == 0 {
      assert accepts[0 := pc][1..] == accepts[1..];
    } else {
      HoldersUpdate(accepts[1..], who - 1, pc, c);
      assert accepts[who := pc][1..] == accepts[1..][who - 1 := pc];
    }
  }

  lemma {:induction false} NoHolders(n: nat, c: Conn)
    ensures Holders(seq(n, _ => Idle), c) == 0
  {
    if n > 0 {
      assert seq(n, _ => Idle)[1..] == seq(n - 1, _ => Idle);
      NoHolders(n - 1, c);
    }
  }

  // In how many places connection c is.
  ghost function Places(s: State, c: Conn): nat {
    multiset(s.queue)[c] + Holders(s.accepts, c) + multiset(s.delivered)[c] + s.shut[c]
  }

  // Every connection is in exactly as many places as it was offered.
  ghost predicate Conserved(s: State) {
    forall c :: multiset(s.arrivals)[c] == Places(s, c)
  }

  ghost predicate Inv(s: State) {
    && |s.queue| <= BACKLOG
    && (s.closing <==> !s.phase.NotClosed?)
    && (s.done <==> s.phase.Draining? || s.phase.Finished?)
    && (s.phase.Finished? ==> s.queue == [])
    && Conserved(s)
  }

  lemma InitInv(acceptors: nat)
    ensures Inv(Init(acceptors))
  {
    forall c ensures Places(Init(acceptors), c) == 0 { NoHolders(acceptors, c); }
  }

  lemma HeadOut(q: seq<Conn>)
    requires q != []
    ensures multiset(q) == multiset{q[0]} + multiset(q[1..])
  {
    assert q == [q[0]] + q[1..];
  }

  lemma PlacesAccept(s: State, who: nat, m: AcceptMove, c: Conn)
    requires AcceptEnabled(s, who, m)
    ensures Places(AfterAccept(s, who, m), c) == Places(s, c)
  {
    HoldersUpdate(s.accepts, who, AfterAccept(s, who, m).accepts[who], c);
    if m.Receive? { HeadOut(s.queue); }
  }

  lemma InvClose(s: State, m: CloseMove)
    requires Inv(s) && Enabled(s, Close(m))
    ensures Inv(AfterClose(s, m))
  {
    if m.Drain? { HeadOut(s.queue); }
    forall c ensures Places(AfterClose(s, m), c) == Places(s, c) { }
  }

  lemma InvStep(s: State, a: Action)
    requires Inv(s) && Enabled(s, a)
    ensures Inv(Apply(s, a))
  {
    match a
    case Handle(c) =>
    case Accept(who, m) =>
      forall c ensures Places(AfterAccept(s, who, m), c) == Places(s, c) { PlacesAccept(s, who, m, c); }
    case Close(m) => InvClose(s, m);
  }

  // ---- Whole runs ----

  // A run is one interleaving of Handle, Close and the given number of
  // accepting goroutines.
  ghost predicate IsRun(run: seq<State>, acceptors: nat) {
    Runs.IsRun(run, Init(acceptors), Enabled, Apply)
  }

  // The queue is bounded, the flags agree with Close's progress and no
  // connection is lost or duplicated, in every state of every interleaving.
  lemma EveryRunKeepsInv(run: seq<State>, acceptors: nat, n: nat)
    requires IsRun(run, acceptors) && n < |run|
    ensures Inv(run[n])
  {
    InitInv(acceptors);
    forall s, a | Inv(s) && Enabled(s, a) ensures Inv(Apply(s, a)) { InvStep(s, a); }
    Runs.Stable(run, Init(acceptors), Enabled, Apply, Inv, 0, n);
  }

  ghost predicate Distinct(s: seq<Conn>) {
    forall i, j :: 0 <= i < j < |s| ==> s[i] != s[j]
  }

  lemma {:induction false} DistinctMultiplicity(s: seq<Conn>, c: Conn)
    requires Distinct(s) && c in s
    ensures multiset(s)[c] == 1
  {
    var last := |s| - 1;
    assert s == s[..last] + [s[last]];
    if c in s[..last] {
      DistinctMultiplicity(s[..last], c);
    }
  }

  // A connection whose Handle has finished is queued, held by an Accept in
  // progress, delivered, or closed by the listener: exactly one of these, and
  // exactly once.
  lemma ExactlyOnePlace(run: seq<State>, acceptors: nat, n: nat, c: Conn)
    requires IsRun(run, acceptors) && n < |run|
    requires Distinct(run[n].arrivals) && c in run[n].arrivals
    ensures multiset(run[n].queue)[c] + Holders(run[n].accepts, c) + multiset(run[n].delivered)[c] + run[n].shut[c] == 1
  {
    EveryRunKeepsInv(run, acceptors, n);
    DistinctMultiplicity(run[n].arrivals, c);
    assert Places(run[n], c) == 1;
  }

  lemma FinishedStays(s: State, a: Action)
    requires Inv(s) && s.phase.Finished? && Enabled(s, a)
    ensures Apply(s, a).phase.Finished? && Apply(s, a).queue == []
  {
  }

  // Once some state has the mutex free with closing set, the queue is empty
  // then and in every later state.
  lemma {:induction false} ClosedQueueStaysEmpty(run: seq<State>, acceptors: nat, i: nat, j: nat)
    requires IsRun(run, acceptors) && i <= j < |run|
    requires run[i].MutexFree() && run[i].closing
    ensures run[j].phase.Finished? && run[j].queue == []
    decreases j
  {
    EveryRunKeepsInv(run, acceptors, i);
    if i < j {
      ClosedQueueStaysEmpty(run, acceptors, i, j - 1);
      EveryRunKeepsInv(run, acceptors, j - 1);
      var a := Runs.LastAction(run, Init(acceptors), Enabled, Apply, j);
      FinishedStays(run[j - 1], a);
    }
  }

  // When Close has returned and no Accept is in progress, every connection
  // was either delivered or closed.
  lemma QuiescentSettled(run: seq<State>, acceptors: nat, n: nat)
    requires IsRun(run, acceptors) && n < |run|
    requires run[n].phase.Finished? && forall c :: Holders(run[n].accepts, c) == 0
    ensures multiset(run[n].arrivals) == multiset(run[n].delivered) + run[n].shut
  {
    EveryRunKeepsInv(run, acceptors, n);
    forall c ensures multiset(run[n].arrivals)[c] == (multiset(run[n].delivered) + run[n].shut)[c] {
      assert Places(run[n], c) == multiset(run[n].arrivals)[c];
    }
  }

  // ---- Order of delivery with one accept loop ----

  // a is b with some elements left out.
  ghost predicate Subsequence(a: seq<Conn>, b: seq<Conn>) {
    if a == [] then true
    else if b == [] then false
    else
      || (a[|a| - 1] == b[|b| - 1] && Subsequence(a[..|a| - 1], b[..|b| - 1]))
      || Subsequence(a, b[..|b| - 1])
  }

  lemma SubsequenceAppend(a: seq<Conn>, b: seq<Conn>, c: Conn)
    requires Subsequence(a, b)
    ensures Subsequence(a + [c], b + [c]) && Subsequence(a, b + [c])
  {
    assert (a + [c])[..|a|] == a && (b + [c])[..|b|] == b;
  }

  lemma {:induction false} SubsequenceDropLast(a: seq<Conn>, b: seq<Conn>)
    requires a != [] && Subsequence(a, b)
    ensures Subsequence(a[..|a| - 1], b)
  {
    var a', b' := a[..|a| - 1], b[..|b| - 1];
    if a' != [] {
      if Subsequence(a, b') {
        SubsequenceDropLast(a, b');
      } else {
        assert Subsequence(a', b');
      }
    }
  }

  // Leaving out one more element keeps a subsequence.
  lemma {:induction false} SubsequenceOmit(x: seq<Conn>, c: Conn, z: seq<Conn>, b: seq<Conn>)
    requires Subsequence(x + [c] + z, b)
    ensures Subsequence(x + z, b)
    decreases |z|, |b|
  {
    var a := x + [c] + z;
    if z == [] {
      assert a[..|a| - 1] == x && x + z == x;
      SubsequenceDropLast(a, b);
    } else {
      var b' := b[..|b| - 1];
      var z' := z[..|z| - 1];
      if Subsequence(a, b') {
        SubsequenceOmit(x, c, z, b');
      } else {
        assert a[..|a| - 1] == x + [c] + z';
        SubsequenceOmit(x, c, z', b');
        assert (x + z)[..|x + z| - 1] == x + z';
      }
    }
  }

  lemma {:induction false} SubsequencePrefix(a: seq<Conn>, z: seq<Conn>, b: seq<Conn>)
    requires Subsequence(a + z, b)
    ensures Subsequence(a, b)
    decreases |z|
  {
    if z == [] {
      assert a + z == a;
    } else {
      SubsequenceDropLast(a + z, b);
      assert (a + z)[..|a + z| - 1] == a + z[..|z| - 1];
      SubsequencePrefix(a, z[..|z| - 1], b);
    }
  }

  // With one accept loop, the way from the queue to delivery is a sequence.
  ghost function Pipeline(s: State): seq<Conn>
    requires |s.accepts| == 1
  {
    s.delivered + HeldBy(s.accepts[0]) + s.queue
  }

  lemma PipelineMoves(s: State, m: AcceptMove)
    requires |s.accepts| == 1 && AcceptEnabled(s, 0, m) && !m.Reject?
    ensures Pipeline(AfterAccept(s, 0, m)) == Pipeline(s)
  {
  }

  lemma PipelineRejects(s: State)
    requires |s.accepts| == 1 && s.accepts[0].Condemned? && Subsequence(Pipeline(s), s.arrivals)
    ensures Subsequence(Pipeline(AfterAccept(s, 0, Reject)), s.arrivals)
  {
    SubsequenceOmit(s.delivered, s.accepts[0].c, s.queue, s.arrivals);
    assert Pipeline(AfterAccept(s, 0, Reject)) == s.delivered + s.queue;
  }

  lemma PipelineArrives(s: State, c: Conn)
    requires |s.accepts| == 1 && Subsequence(Pipeline(s), s.arrivals)
    ensures Subsequence(Pipeline(AfterHandle(s, c)), AfterHandle(s, c).arrivals)
  {
    var front := s.delivered + HeldBy(s.accepts[0]);
    SubsequenceAppend(Pipeline(s), s.arrivals, c);
    assert Pipeline(s) + [c] == front + (s.queue + [c]);
  }

  lemma PipelineDrains(s: State)
    requires |s.accepts| == 1 && s.queue != [] && Subsequence(Pipeline(s), s.arrivals)
    ensures Subsequence(Pipeline(AfterClose(s, Drain)), s.arrivals)
  {
    var front := s.delivered + HeldBy(s.accepts[0]);
    assert Pipeline(s) == front + [s.queue[0]] + s.queue[1..];
    SubsequenceOmit(front, s.queue[0], s.queue[1..], s.arrivals);
  }

  lemma PipelineStep(s: State, a: Action)
    requires |s.accepts| == 1 && Enabled(s, a) && Subsequence(Pipeline(s), s.arrivals)
    ensures |Apply(s, a).accepts| == 1 && Subsequence(Pipeline(Apply(s, a)), Apply(s, a).arrivals)
  {
    match a
    case Handle(c) => PipelineArrives(s, c);
    case Accept(_, Reject) => PipelineRejects(s);
    case Accept(_, m) => PipelineMoves(s, m);
    case Close(Drain) => PipelineDrains(s);
    case Close(_) =>
  }

  lemma {:induction false} PipelineInOrder(run: seq<State>, n: nat)
    requires IsRun(run, 1) && n < |run|
    ensures |run[n].accepts| == 1 && Subsequence(Pipeline(run[n]), run[n].arrivals)
  {
    if n > 0 {
      PipelineInOrder(run, n - 1);
      var a := Runs.LastAction(run, Init(1), Enabled, Apply, n);
      PipelineStep(run[n - 1], a);
    }
  }

  // One accept loop delivers connections in the order Handle was offered them.
  lemma DeliveredInArrivalOrder(run: seq<State>, n: nat)
    requires IsRun(run, 1) && n < |run|
    ensures Subsequence(run[n].delivered, run[n].arrivals)
  {
    PipelineInOrder(run, n);
    var s := run[n];
    var rest := HeldBy(s.accepts[0]) + s.queue;
    assert Pipeline(s) == s.delivered + rest;
    SubsequencePrefix(s.delivered, rest, s.arrivals);
  }

  // ---- The listener object ----

  // t can be reached from s.
  ghost predicate Reaches(s: State, t: State) {
    exists path: seq<State> :: IsPath(path, s, t)
  }

  ghost predicate IsPath(path: seq<State>, s: State, t: State) {
    Runs.IsRun(path, s, Enabled, Apply) && path[|path| - 1] == t
  }

  lemma ReachesItself(s: State)
    ensures Reaches(s, s)
  {
    assert IsPath([s], s, s);
  }

  lemma ReachesStep(s: State, t: State, a: Action)
    requires Reaches(s, t) && Enabled(t, a)
    ensures Reaches(s, Apply(t, a))
  {
    var path :| IsPath(path, s, t);
    Runs.Extended(path, s, Enabled, Apply, a);
    assert IsPath(path + [Apply(t, a)], s, Apply(t, a));
  }

  function Ids(cs: seq<Connection>): (ids: seq<Conn>) {
    seq(|cs|, i requires 0 <= i < |cs| => cs[i].id)
  }

  class Listener {
    var closing: bool
    var done: bool
    var closeOnce: bool
    var incoming: seq<Connection>
    ghost var model: State  // this listener as a state of the transition system

    ghost predicate Valid()
      reads this
    {
      && Inv(model) && model.MutexFree()
      && closing == done == closeOnce == model.closing
      && model.queue == Ids(incoming)
    }

    constructor (ghost acceptors: nat)
      ensures Valid() && model == Init(acceptors) && incoming == []
    {
      closing, done, closeOnce, incoming := false, false, false, [];
      model := Init(acceptors);
      InitInv(acceptors);
    }

    // Queues the connection, or closes it when the listener is closing or the
    // queue is full.
    method Handle(connection: Connection?)
      requires Valid()
      modifies this, connection
      ensures Valid()
      ensures connection == null ==> model == old(model) && incoming == old(incoming)
      ensures connection != null ==>
        && model == Apply(old(model), Action.Handle(connection.id))
        && var accepted := !old(closing) && |old(incoming)| < BACKLOG;
        && incoming == old(incoming) + (if accepted then [connection] else [])
        && connection.closes == old(connection.closes) + (if accepted then 0 else 1)
    {
      if connection == null {
        return;
      }
      InvStep(model, Action.Handle(connection.id));
      model := AfterHandle(model, connection.id);
      if closing {
        connection.Close();
        return;
      }
      if |incoming| < BACKLOG {
        incoming := incoming + [connection];
      } else {
        connection.Close();
      }
    }

    // Accept up to its second select: false when the listener is closed.
    method AcceptEnter(ghost who: nat) returns (open: bool)
      requires Valid() && who < |model.accepts| && model.accepts[who].Idle?
      modifies this
      ensures Valid() && incoming == old(incoming)
      ensures open == !old(done)
      ensures model == if open then AfterAccept(old(model), who, Enter) else old(model)
    {
      if done {
        return false;
      }
      InvStep(model, Accept(who, Enter));
      model := AfterAccept(model, who, Enter);
      return true;
    }

    // The second select when it takes the queue.
    method AcceptReceive(ghost who: nat) returns (connection: Connection)
      requires Valid() && who < |model.accepts| && model.accepts[who].Waiting? && incoming != []
      modifies this
      ensures Valid() && incoming == old(incoming)[1..] && connection == old(incoming)[0]
      ensures model == AfterAccept(old(model), who, Receive)
      ensures model.accepts[who] == Holding(connection.id)
    {
      connection := incoming[0];
      InvStep(model, Accept(who, Receive));
      model := AfterAccept(model, who, Receive);
      incoming := incoming[1..];
    }

    // Accept from its lock section to its return.
    method AcceptSettle(ghost who: nat, connection: Connection) returns (err: bool)
      requires Valid() && who < |model.accepts| && model.accepts[who] == Holding(connection.id)
      modifies this, connection
      ensures Valid() && incoming == old(incoming)
      ensures err == old(closing)
      ensures Reaches(old(model), model) && model.accepts == old(model.accepts)[who := Idle]
      ensures connection.closes == old(connection.closes) + (if err then 1 else 0)
      ensures model.delivered == old(model.delivered) + (if err then [] else [connection.id])
    {
      ReachesItself(model);
      ReachesStep(model, model, Accept(who, Inspect));
      InvStep(model, Accept(who, Inspect));
      model := AfterAccept(model, who, Inspect);
      var settle := if closing then Reject else Return;
      err := closing;
      if closing {
        connection.Close();
      }
      ReachesStep(old(model), model, Accept(who, settle));
      InvStep(model, Accept(who, settle));
      model := AfterAccept(model, who, settle);
    }

    // The loop of Close, which holds the mutex.
    method CloseQueued(ghost start: State)
      requires Inv(model) && model.phase.Draining? && closing && done && closeOnce
      requires model.queue == Ids(incoming) && Reaches(start, model)
      modifies this`incoming, this`model, incoming
      ensures Inv(model) && model.phase.Draining? && model.queue == [] && incoming == [] && Reaches(start, model)
      ensures forall c :: c in old(incoming) ==> c.closes == old(c.closes) + multiset(old(incoming))[c]
    {
      hide Inv, Reaches;
      ghost var all := incoming;
      ghost var k := 0;
      while incoming != []
        invariant 0 <= k <= |all| && incoming == all[k..]
        invariant Inv(model) && model.phase.Draining?
        invariant model.queue == Ids(incoming)
        invariant Reaches(start, model)
        invariant forall c :: c in all ==> c.closes == old(c.closes) + multiset(all[..k])[c]
        decreases |incoming|
      {
        var connection := incoming[0];
        assert all[..k + 1] == all[..k] + [connection];
        ReachesStep(start, model, Action.Close(Drain));
        InvStep(model, Action.Close(Drain));
        model := AfterClose(model, Drain);
        incoming := incoming[1..];
        k := k + 1;
        connection.Close();
      }
      assert all[..k] == all;
    }

    // Closes every queued connection, as often as it is queued; a second call
    // does nothing.
    method Close()
      requires Valid()
      modifies this, incoming
      ensures Valid() && closing && incoming == []
      ensures Reaches(old(model), model) && model.phase.Finished?
      ensures old(closing) ==> model == old(model)
      ensures forall c :: c in old(incoming) ==> c.closes == old(c.closes) + multiset(old(incoming))[c]
    {
      ReachesItself(model);
      if closeOnce {
        return;
      }
      closeOnce := true;
      ReachesStep(model, model, Action.Close(Lock));
      InvStep(model, Action.Close(Lock));
      model := AfterClose(model, Lock);
      closing := true;
      ReachesStep(old(model), model, Action.Close(Signal));
      InvStep(model, Action.Close(Signal));
      model := AfterClose(model, Signal);
      done := true;
      CloseQueued(old(model));
      ReachesStep(old(model), model, Action.Close(Unlock));
      InvStep(model, Action.Close(Unlock));
      model := AfterClose(model, Unlock);
    }
  }
}
