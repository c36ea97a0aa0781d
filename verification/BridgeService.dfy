// What the bridge does for its clients: why its accept loop ends, who gets a
// stream, and which streams relay.
module BridgeService {
  import opened Conns
  import opened Wrappers
  import opened Bridge
  import Runs

  // ---- What happens in a run ----

  // In the step from run[k], the accept loop ended because Accept failed.
  ghost predicate AcceptFailsAt(run: seq<State>, k: nat)
    requires k + 1 < |run|
  {
    run[k].main.Accepting? && (run[k + 1].main.Draining? || run[k + 1].main.Closing?)
  }

  ghost predicate AcceptFailed(run: seq<State>, n: nat)
    requires n < |run|
  {
    exists k: nat :: k < n && AcceptFailsAt(run, k)
  }

  // In the step from run[k], Accept failed for another reason than its end.
  ghost predicate AcceptBreaksAt(run: seq<State>, k: nat)
    requires k + 1 < |run|
  {
    run[k].main.Accepting? && run[k + 1].main.Closing?
  }

  ghost predicate HadStream(run: seq<State>, n: nat, c: Conn)
    requires n < |run|
  {
    exists k: nat :: k <= n && c in run[k].streams
  }

  ghost predicate RelayingAt(s: State, c: Conn) {
    c in s.streams && s.streams[c].pc.Relaying?
  }

  ghost predicate Relayed(run: seq<State>, n: nat, c: Conn)
    requires n < |run|
  {
    exists k: nat :: k <= n && RelayingAt(run[k], c)
  }

  predicate Ending(main: MainPc) { main.Draining? || main.Closing? || main.Closed? || main.Finished? }

  predicate Fails(main: MainPc) {
    (main.Closing? && main.failed) || (main.Closed? && main.failed) || (main.Finished? && main.failed)
  }

  lemma FlagsStay(s: State, a: Action)
    requires Enabled(s, a)
    ensures s.cancelled ==> Apply(s, a).cancelled
    ensures s.tracker.closing ==> Apply(s, a).tracker.closing
  {
  }

  lemma {:induction false} StaysCancelled(run: seq<State>, i: nat, j: nat)
    requires IsRun(run) && i <= j < |run| && run[i].cancelled
    ensures run[j].cancelled
    decreases j
  {
    if i < j {
      StaysCancelled(run, i, j - 1);
      var a := Runs.LastAction(run, INIT, Enabled, Apply, j);
      FlagsStay(run[j - 1], a);
    }
  }

  // ---- Why the loop ends ----

  lemma EndingStep(s: State, a: Action)
    requires Enabled(s, a) && Ending(Apply(s, a).main) && !s.main.Refusing?
    ensures var next := Apply(s, a).main;
      Ending(s.main) || s.cancelled || (s.main.Accepting? && (next.Draining? || next.Closing?))
  {
  }

  // The loop stops accepting only when it was cancelled or Accept failed.
  lemma {:induction false} LoopEndsForCause(run: seq<State>, n: nat)
    requires IsRun(run) && n < |run| && Ending(run[n].main)
    ensures run[n].cancelled || AcceptFailed(run, n)
  {
    assert !Ending(INIT.main);
    var a := Runs.LastAction(run, INIT, Enabled, Apply, n);
    var s := run[n - 1];
    RefusalUnreachable(run, n - 1);
    EndingStep(s, a);
    if s.cancelled {
      FlagsStay(s, a);
    } else if Ending(s.main) {
      LoopEndsForCause(run, n - 1);
      var k: nat :| k < n - 1 && AcceptFailsAt(run, k);
      assert AcceptFailsAt(run, k);
    } else {
      assert AcceptFailsAt(run, n - 1);
    }
  }

  lemma FailsStep(s: State, a: Action)
    requires Enabled(s, a)
    ensures Fails(Apply(s, a).main) <==> Fails(s.main) || (s.main.Accepting? && Apply(s, a).main.Closing?)
    ensures s.main.Accepting? && Apply(s, a).main.Closing? ==> !s.cancelled
  {
  }

  // Serve fails exactly when Accept broke, which it does only before cancellation.
  lemma {:induction false} FailsWhenAcceptBreaks(run: seq<State>, n: nat)
    requires IsRun(run) && n < |run|
    ensures Fails(run[n].main) <==> exists k: nat :: k < n && AcceptBreaksAt(run, k)
    ensures forall k: nat :: k < n && AcceptBreaksAt(run, k) ==> !run[k].cancelled
  {
    if n > 0 {
      FailsWhenAcceptBreaks(run, n - 1);
      var a := Runs.LastAction(run, INIT, Enabled, Apply, n);
      FailsStep(run[n - 1], a);
      assert Fails(run[n].main) <==> Fails(run[n - 1].main) || AcceptBreaksAt(run, n - 1);
    }
  }

  // ---- Who gets a stream ----

  predicate InHand(main: MainPc, c: Conn) {
    main == Got(c) || main == Adding(c) || main == Spawning(c)
  }

  lemma ClientStep(s: State, a: Action, c: Conn)
    requires Enabled(s, a) && !s.main.Refusing? && (s.main.Adding? ==> !s.tracker.closing)
    requires c in Apply(s, a).accepted
    ensures c in s.accepted || Apply(s, a).main == Got(c)
    ensures InHand(s.main, c) ==> InHand(Apply(s, a).main, c) || c in Apply(s, a).streams || s.cancelled
  {
  }

  // Every accepted client is in the loop's hands, has had a stream, or was
  // turned away by a cancellation.
  lemma {:induction false} EveryClientIsServed(run: seq<State>, n: nat, c: Conn)
    requires IsRun(run) && n < |run| && c in run[n].accepted
    ensures InHand(run[n].main, c) || HadStream(run, n, c) || run[n].cancelled
  {
    assert c !in INIT.accepted;
    var a := Runs.LastAction(run, INIT, Enabled, Apply, n);
    RefusalUnreachable(run, n - 1);
    ClientStep(run[n - 1], a, c);
    FlagsStay(run[n - 1], a);
    if c in run[n - 1].accepted {
      EveryClientIsServed(run, n - 1, c);
    }
  }

  // So a Serve that was never cancelled has run a stream for every client.
  lemma FinishedServedAll(run: seq<State>, n: nat, c: Conn)
    requires IsRun(run) && n < |run| && run[n].main.Finished? && !run[n].cancelled && c in run[n].accepted
    ensures HadStream(run, n, c)
  {
    EveryClientIsServed(run, n, c);
  }

  // The client is on no way to a stream that has not looked at the context yet.
  ghost predicate Unserved(s: State, c: Conn) {
    s.cancelled && c !in s.streams && s.main != Adding(c) && s.main != Spawning(c)
  }

  lemma UnservedStep(s: State, a: Action, c: Conn)
    requires Enabled(s, a) && Unserved(s, c)
    ensures Unserved(Apply(s, a), c)
  {
  }

  // A client whose context check comes after cancellation never gets a stream.
  lemma NoStreamAfterCancel(run: seq<State>, i: nat, j: nat, c: Conn)
    requires IsRun(run) && i <= j < |run| && run[i].cancelled
    requires c !in run[i].streams && run[i].main != Adding(c) && run[i].main != Spawning(c)
    ensures c !in run[j].streams
  {
    var p := (s: State) => Unserved(s, c);
    forall s, a | p(s) && Enabled(s, a) ensures p(Apply(s, a)) { UnservedStep(s, a, c); }
    Runs.Stable(run, INIT, Enabled, Apply, p, i, j);
    assert p(run[j]);
  }

  // ---- Which streams relay ----

  // What a stream's position says of its past.
  ghost predicate Story(s: State, c: Conn, relayed: bool) {
    c in s.streams ==>
      var p := s.streams[c];
      && (p.pc.Relaying? || p.pc.RemovingRemote? ==> relayed)
      && (p.pc.RefusedRemote? ==> s.tracker.closing)
      && (p.pc.ClosingRemote? || (p.remote.Some? && (p.pc.RemovingClient? || p.pc.ClosingClient? || p.pc.Leaving?)) ==>
            relayed || s.cancelled || s.tracker.closing)
  }

  lemma StoryStep(s: State, a: Action, c: Conn, relayed: bool)
    requires Enabled(s, a) && Story(s, c, relayed) && (c in s.streams ==> StreamOk(s, c))
    ensures Story(Apply(s, a), c, relayed || RelayingAt(Apply(s, a), c))
  {
    FlagsStay(s, a);
  }

  lemma {:induction false} EveryStreamHasItsStory(run: seq<State>, n: nat, c: Conn)
    requires IsRun(run) && n < |run|
    ensures Story(run[n], c, Relayed(run, n, c))
  {
    if n > 0 {
      EveryStreamHasItsStory(run, n - 1, c);
      EveryRunKeepsInv(run, n - 1);
      var a := Runs.LastAction(run, INIT, Enabled, Apply, n);
      StoryStep(run[n - 1], a, c, Relayed(run, n - 1, c));
      assert Relayed(run, n - 1, c) || RelayingAt(run[n], c) ==> Relayed(run, n, c) by {
        if Relayed(run, n - 1, c) {
          var k: nat :| k <= n - 1 && RelayingAt(run[k], c);
          assert k <= n && RelayingAt(run[k], c);
        }
      }
    }
  }

  // A stream that gives up a remote it was given has relayed, unless the run
  // was cancelled or the drain had begun to close connections.
  lemma StreamRelays(run: seq<State>, n: nat, c: Conn)
    requires IsRun(run) && n < |run| && c in run[n].streams && run[n].streams[c].remote.Some?
    requires var pc := run[n].streams[c].pc; pc.ClosingRemote? || pc.RemovingClient? || pc.ClosingClient? || pc.Leaving?
    ensures Relayed(run, n, c) || run[n].cancelled || run[n].tracker.closing
  {
    EveryStreamHasItsStory(run, n, c);
  }

  // The stream has not passed its second look at the context.
  ghost predicate Unrelayed(s: State, c: Conn) {
    s.cancelled && (c in s.streams ==>
      var pc := s.streams[c].pc;
      !pc.AddingRemote? && !pc.RefusedRemote? && !pc.Relaying? && !pc.RemovingRemote?)
  }

  lemma UnrelayedStep(s: State, a: Action, c: Conn)
    requires Enabled(s, a) && Unrelayed(s, c)
    ensures Unrelayed(Apply(s, a), c)
  {
  }

  // A stream whose second look at the context comes after cancellation never relays.
  lemma NoRelayAfterCancel(run: seq<State>, i: nat, j: nat, c: Conn)
    requires IsRun(run) && i <= j < |run| && run[i].cancelled
    requires c in run[i].streams ==> run[i].streams[c].pc.Dialing? || run[i].streams[c].pc.Dialed?
    ensures !RelayingAt(run[j], c)
  {
    var p := (s: State) => Unrelayed(s, c);
    forall s, a | p(s) && Enabled(s, a) ensures p(Apply(s, a)) { UnrelayedStep(s, a, c); }
    Runs.Stable(run, INIT, Enabled, Apply, p, i, j);
    assert p(run[j]);
  }

  // ---- Runs that do it ----

  lemma Extend(run: seq<State>, a: Action) returns (longer: seq<State>)
    requires IsRun(run) && Enabled(run[|run| - 1], a)
    ensures IsRun(longer) && longer == run + [Apply(run[|run| - 1], a)]
  {
    longer := run + [Apply(run[|run| - 1], a)];
    Runs.Extended(run, INIT, Enabled, Apply, a);
  }

  const RELAYING := State(
    false, Accepting, Tracker(false, {Conn(1), Conn(2)}), map[Conn(1) := Stream(Relaying, Some(Conn(2)))], 1,
    {Conn(1)}, map[Conn(2) := Conn(1)], {})

  const RELAYED := State(
    false, Accepting, Tracker(false, {}), map[], 0, {Conn(1)}, map[Conn(2) := Conn(1)], {Conn(1), Conn(2)})

  // One client is accepted and relayed to the remote dialled for it.
  lemma AClientIsRelayed() returns (run: seq<State>)
    ensures IsRun(run) && run[|run| - 1] == RELAYING
  {
    run := Extend([INIT], OfMain(AcceptConn(Conn(1))));
    run := Extend(run, OfMain(CheckContext));
    run := Extend(run, OfMain(AddClient));
    run := Extend(run, OfMain(Spawn));
    run := Extend(run, OfStream(Conn(1), Dial(Conn(2))));
    run := Extend(run, OfStream(Conn(1), CheckAgain));
    run := Extend(run, OfStream(Conn(1), AddRemote));
  }

  const UNWINDING := State(
    false, Accepting, Tracker(false, {Conn(1)}), map[Conn(1) := Stream(RemovingClient, Some(Conn(2)))], 1,
    {Conn(1)}, map[Conn(2) := Conn(1)], {Conn(2)})

  lemma TheRemoteIsClosedFirst() returns (run: seq<State>)
    ensures IsRun(run) && run[|run| - 1] == UNWINDING
  {
    run := AClientIsRelayed();
    run := Extend(run, OfStream(Conn(1), RelayEnd));
    run := Extend(run, OfStream(Conn(1), RunDeferred));
    run := Extend(run, OfStream(Conn(1), RunDeferred));
  }

  // When the relay ends both connections are closed and the loop goes on.
  lemma ARelayEnds() returns (run: seq<State>)
    ensures IsRun(run) && run[|run| - 1] == RELAYED
  {
    run := TheRemoteIsClosedFirst();
    run := Extend(run, OfStream(Conn(1), RunDeferred));
    run := Extend(run, OfStream(Conn(1), RunDeferred));
    run := Extend(run, OfStream(Conn(1), RunDeferred));
  }

  // Then a closed listener ends Serve without error.
  lemma AClosedListenerEndsServe() returns (run: seq<State>)
    ensures IsRun(run) && run[|run| - 1] == RELAYED.(main := Finished(false))
  {
    run := ARelayEnds();
    run := Extend(run, OfMain(AcceptError(true)));
    run := Extend(run, OfMain(Return));
  }

  const TIMED_OUT := State(
    false, Closed(false), Tracker(true, {Conn(1)}), map[Conn(1) := Stream(Dialing, None)], 1,
    {Conn(1)}, map[], {Conn(1)})

  // A drain that takes too long closes the client under the stream.
  lemma ADrainTimesOut() returns (run: seq<State>)
    ensures IsRun(run) && run[|run| - 1] == TIMED_OUT
  {
    run := Extend([INIT], OfMain(AcceptConn(Conn(1))));
    run := Extend(run, OfMain(CheckContext));
    run := Extend(run, OfMain(AddClient));
    run := Extend(run, OfMain(Spawn));
    run := Extend(run, OfMain(AcceptError(true)));
    run := Extend(run, OfMain(DrainTimeout));
    run := Extend(run, OfMain(CloseOne(Conn(1))));
    run := Extend(run, OfMain(CloseAllDone));
  }

  // A client accepted after cancellation is closed and the loop ends.
  lemma ACancelTurnsAway() returns (run: seq<State>)
    ensures IsRun(run)
    ensures run[|run| - 1] == State(true, Draining, Tracker(false, {}), map[], 0, {Conn(1)}, map[], {Conn(1)})
  {
    run := Extend([INIT], Cancel);
    run := Extend(run, OfMain(AcceptConn(Conn(1))));
    run := Extend(run, OfMain(CheckContext));
  }

  // An accept error of another kind makes it fail.
  lemma ABrokenAcceptFails() returns (run: seq<State>)
    ensures IsRun(run) && run[|run| - 1].main == Finished(true)
  {
    run := Extend([INIT], OfMain(AcceptError(false)));
    run := Extend(run, OfMain(CloseAllDone));
    run := Extend(run, OfMain(Return));
  }
}
