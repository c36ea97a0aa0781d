// The set of hijacked connections that an HTTP server must drain itself.
//
// `Sessions` is the value behind the mutex; one function per lock section.
// The class holds the same value in mutable fields.
module Sessions {
  import opened Conns

  datatype Sessions<C> = Sessions(
    draining: bool,
    cancelled: bool,    // the context that bounds every dial
    drainedCloses: nat, // how often the drained channel has been closed
    items: set<C>)
  {
    ghost predicate Valid() {
      && drainedCloses <= 1
      && (drainedCloses == 1 <==> draining && items == {})
      && (cancelled <==> draining)
    }

    // closeDrainedLocked: a second close would panic, so it looks first.
    function CloseDrained(): Sessions<C> {
      if drainedCloses > 0 then this else this.(drainedCloses := drainedCloses + 1)
    }
  }

  function Fresh<C>(): Sessions<C> { Sessions(false, false, 0, {}) }

  // The lock section of add; a refused connection is closed after unlocking.
  function Added<C>(s: Sessions<C>, c: C): Sessions<C> {
    if s.draining then s else s.(items := s.items + {c})
  }

  function Removed<C>(s: Sessions<C>, c: C): Sessions<C> {
    var s := s.(items := s.items - {c});
    if s.draining && s.items == {} then s.CloseDrained() else s
  }

  function DrainBegun<C>(s: Sessions<C>): Sessions<C> {
    if s.draining then s
    else
      var s := s.(draining := true, cancelled := true);
      if s.items == {} then s.CloseDrained() else s
  }

  // The lock section of forceClose; the items it held are closed after unlocking.
  function Forced<C>(s: Sessions<C>): Sessions<C> {
    s.(draining := true, cancelled := true, items := {}).CloseDrained()
  }

  // Every lock section keeps: drained is closed, and closed once, exactly
  // when draining with nothing tracked; dials are cancelled exactly when
  // draining.
  lemma SectionsKeepValid<C>(s: Sessions<C>, c: C)
    requires s.Valid()
    ensures Added(s, c).Valid() && Removed(s, c).Valid() && DrainBegun(s).Valid() && Forced(s).Valid()
  {
    if s.draining && s.items == {} {
      assert s.items - {c} == {};
    }
  }

  // Draining is permanent: no section clears it, and while it holds nothing
  // new is tracked.
  lemma DrainingIsPermanent<C>(s: Sessions<C>, c: C)
    requires s.draining
    ensures forall t :: t in [Added(s, c), Removed(s, c), DrainBegun(s), Forced(s)] ==> t.draining && t.items <= s.items
  {
  }

  class ConnectionSessions {
    var draining: bool
    var cancelled: bool
    var drainedCloses: nat
    var items: set<Connection>

    ghost function View(): Sessions<Connection>
      reads this
    {
      Sessions(draining, cancelled, drainedCloses, items)
    }

    constructor ()
      ensures View() == Fresh() && View().Valid()
    {
      draining, cancelled, drainedCloses, items := false, false, 0, {};
    }

    method Add(connection: Connection?) returns (ok: bool)
      requires View().Valid()
      modifies this, connection
      ensures View().Valid()
      ensures ok == (connection != null && !old(draining))
      ensures View() == if connection == null then old(View()) else Added(old(View()), connection)
      ensures connection != null ==> connection.closes == old(connection.closes) + (if ok then 0 else 1)
    {
      if connection == null {
        return false;
      }
      SectionsKeepValid(View(), connection);
      if draining {
        connection.Close();
        return false;
      }
      items := items + {connection};
      return true;
    }

    method Remove(connection: Connection)
      requires View().Valid()
      modifies this
      ensures View().Valid() && View() == Removed(old(View()), connection)
    {
      SectionsKeepValid(View(), connection);
      items := items - {connection};
      if draining && items == {} {
        CloseDrainedLocked();
      }
    }

    method BeginDrain() returns (drained: bool)
      requires View().Valid()
      modifies this
      ensures View().Valid() && View() == DrainBegun(old(View()))
      ensures drained == (items == {})
    {
      if !draining {
        draining, cancelled := true, true;
        if items == {} {
          CloseDrainedLocked();
        }
      }
      drained := drainedCloses > 0;
    }

    method ForceClose()
      requires View().Valid()
      modifies this, items
      ensures View().Valid() && View() == Forced(old(View()))
      ensures forall c :: c in old(items) ==> c.closes == old(c.closes) + 1
    {
      draining, cancelled := true, true;
      var taken := items;
      items := {};
      CloseDrainedLocked();
      var left := taken;
      while left != {}
        invariant left <= taken
        invariant View() == Forced(old(View()))
        invariant forall c :: c in taken - left ==> c.closes == old(c.closes) + 1
        invariant forall c :: c in left ==> c.closes == old(c.closes)
        decreases left
      {
        var connection :| connection in left;
        connection.Close();
        left := left - {connection};
      }
    }

    method CloseDrainedLocked()
      requires drainedCloses <= 1
      modifies this`drainedCloses
      ensures View() == old(View()).CloseDrained() && drainedCloses == 1
    {
      if drainedCloses == 0 {
        drainedCloses := drainedCloses + 1;
      }
    }
  }
}
