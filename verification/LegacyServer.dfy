// What the server, port and mount directives of a command line compile to.
module LegacyServer {
  import opened Wrappers
  import opened Decimal
  import opened Mounts
  import opened C = Config
  import opened Legacy

  // The values of the arguments with this prefix, in order.
  function Values(args: seq<string>, prefix: string): seq<string> {
    if args == [] then []
    else
      var arg := TrimSpace(args[0]);
      (if prefix <= arg then [TrimSpace(arg[|prefix|..])] else []) + Values(args[1..], prefix)
  }

  // The values given to -P, in the same argument or in the next.
  function PortValues(args: seq<string>): seq<string> {
    if args == [] then []
    else
      var arg := TrimSpace(args[0]);
      if arg == "-P" then (if |args| > 1 then [TrimSpace(args[1])] + PortValues(args[2..]) else [])
      else (if "-P" <= arg then [TrimSpace(arg[2..])] else []) + PortValues(args[1..])
  }

  // All protocol values say the same, and what was known before.
  ghost predicate ProtocolAgrees(syntax: Syntax, values: seq<string>, from: string, to: string) {
    && (forall v :: v in values ==> to != "" && syntax.lib.policy.toLower(v) == to)
    && (values == [] ==> to == from) && (from != "" ==> to == from)
  }

  ghost predicate PortAgrees(values: seq<string>, from: nat, to: nat) {
    && (forall v :: v in values ==> ParsePort(v) == Some(to))
    && (values == [] ==> to == from) && (from != 0 ==> to == from)
  }

  // Each mount value adds the mount it parses to.
  ghost predicate MountsAgree(syntax: Syntax, values: seq<string>, from: seq<Mount>, to: seq<Mount>) {
    && from <= to && |to| == |from| + |values|
    && forall i :: 0 <= i < |values| ==> syntax.parseMount(values[i]) == Some(to[|from| + i])
  }

  ghost predicate Agrees(syntax: Syntax, args: seq<string>, from: Gathered, to: Gathered) {
    && ProtocolAgrees(syntax, Values(args, "SERVER="), from.protocol, to.protocol)
    && PortAgrees(PortValues(args), from.port, to.port)
    && MountsAgree(syntax, Values(args, "MOUNT="), from.mounts, to.mounts)
  }

  lemma ProtocolsAgree(syntax: Syntax, a: seq<string>, b: seq<string>, from: string, mid: string, to: string)
    requires ProtocolAgrees(syntax, a, from, mid) && ProtocolAgrees(syntax, b, mid, to)
    ensures ProtocolAgrees(syntax, a + b, from, to)
  {
    if a != [] { assert a[0] in a; }
  }

  lemma PortsAgree(a: seq<string>, b: seq<string>, from: nat, mid: nat, to: nat)
    requires PortAgrees(a, from, mid) && PortAgrees(b, mid, to)
    ensures PortAgrees(a + b, from, to)
  {
    if a != [] { assert a[0] in a; }
  }

  lemma AllMountsAgree(
    syntax: Syntax, a: seq<string>, b: seq<string>, from: seq<Mount>, mid: seq<Mount>, to: seq<Mount>)
    requires MountsAgree(syntax, a, from, mid) && MountsAgree(syntax, b, mid, to)
    ensures MountsAgree(syntax, a + b, from, to)
  {
    forall i | 0 <= i < |a| + |b| ensures syntax.parseMount((a + b)[i]) == Some(to[|from| + i]) {
      if i < |a| { assert to[|from| + i] == mid[|from| + i]; } else { assert to[|from| + i] == to[|mid| + (i - |a|)]; }
    }
  }

  // The values that one argument standing alone gives.
  function OwnValues(arg: string, prefix: string): seq<string> {
    if prefix <= arg then [TrimSpace(arg[|prefix|..])] else []
  }

  lemma DirectiveAgrees(syntax: Syntax, g: Gathered, arg: string)
    requires AddDirective(syntax, g, arg).Some?
    ensures var next := AddDirective(syntax, g, arg).value;
      && ProtocolAgrees(syntax, OwnValues(arg, "SERVER="), g.protocol, next.protocol)
      && PortAgrees(OwnValues(arg, "-P"), g.port, next.port)
      && MountsAgree(syntax, OwnValues(arg, "MOUNT="), g.mounts, next.mounts)
  {
    hide ParsePort, ParsePolicy, TrimSpace;
    if "SERVER=" <= arg {
      assert arg[0] == 'S';
    } else if "-P" <= arg {
      assert arg[0] == '-';
    } else if "MOUNT=" <= arg {
      assert arg[0] == 'M';
    }
  }

  lemma PortIsNoOther(value: string)
    requires ParsePort(value).Some?
    ensures !("SERVER=" <= value) && !("MOUNT=" <= value)
  {
    assert value != "" ==> value[0] in value;
  }

  // What is gathered agrees with every argument.
  lemma {:induction false} GatherAgrees(syntax: Syntax, args: seq<string>, g: Gathered)
    requires Gather(syntax, args, g).Some?
    ensures Agrees(syntax, args, g, Gather(syntax, args, g).value)
    decreases |args|
  {
    hide TrimSpace, AddDirective, ParsePort, ProtocolAgrees, PortAgrees, MountsAgree;
    if args == [] {
      NothingAgrees(syntax, g);
    } else {
      var arg, to := TrimSpace(args[0]), Gather(syntax, args, g).value;
      if arg == "-P" {
        var value := TrimSpace(args[1]);
        var next := AddPort(g, value).value;
        GatherAgrees(syntax, args[2..], next);
        SeparatePort(syntax, g, value);
        assert args[1..][0] == args[1] && args[1..][1..] == args[2..];
        DashIsNoOther();
        assert Values(args, "SERVER=") == Values(args[2..], "SERVER=");
        assert Values(args, "MOUNT=") == Values(args[2..], "MOUNT=");
        PortsAgree([value], PortValues(args[2..]), g.port, next.port, to.port);
      } else {
        var next := AddDirective(syntax, g, arg).value;
        GatherAgrees(syntax, args[1..], next);
        DirectiveAgrees(syntax, g, arg);
        ProtocolsAgree(
          syntax, OwnValues(arg, "SERVER="), Values(args[1..], "SERVER="), g.protocol, next.protocol, to.protocol);
        PortsAgree(OwnValues(arg, "-P"), PortValues(args[1..]), g.port, next.port, to.port);
        AllMountsAgree(syntax, OwnValues(arg, "MOUNT="), Values(args[1..], "MOUNT="), g.mounts, next.mounts, to.mounts);
      }
    }
  }

  lemma NothingAgrees(syntax: Syntax, g: Gathered)
    ensures Agrees(syntax, [], g, g)
  {
  }

  lemma SeparatePort(syntax: Syntax, g: Gathered, value: string)
    requires AddPort(g, value).Some?
    ensures PortAgrees([value], g.port, AddPort(g, value).value.port)
    ensures AddPort(g, value).value.protocol == g.protocol && AddPort(g, value).value.mounts == g.mounts
    ensures ParsePort(value).Some? && !("SERVER=" <= value) && !("MOUNT=" <= value)
  {
    PortIsNoOther(value);
  }

  lemma DashIsNoOther()
    ensures !("SERVER=" <= "-P") && !("MOUNT=" <= "-P")
  {
  }

  const DEFAULT_PORTS: map<string, nat> :=
    map["ftp" := 21, "gopher" := 70, "http" := 80, "https" := 443, "socks" := 1080]

  // An accepted command line makes one server: its protocol is the one every
  // SERVER value says, in lower case; it listens on the port every -P value
  // says, or on the default port of its protocol when none does; and its mounts
  // are those of the MOUNT values, in order.
  lemma CompiledServer(syntax: Syntax, args: seq<string>, c: C.Config) returns (port: nat)
    requires Compile(syntax, args) == Some(c)
    ensures |c.servers| == 1
    ensures c.servers[0] == Server("default", c.servers[0].protocol, ":" + Print(port), "", [], None)
    ensures Values(args, "SERVER=") != []
    ensures forall v :: v in Values(args, "SERVER=") ==> syntax.lib.policy.toLower(v) == c.servers[0].protocol
    ensures forall v :: v in PortValues(args) ==> ParsePort(v) == Some(port)
    ensures PortValues(args) == [] ==>
      c.servers[0].protocol in DEFAULT_PORTS && port == DEFAULT_PORTS[c.servers[0].protocol]
    ensures |c.mounts| == |Values(args, "MOUNT=")|
    ensures forall i :: 0 <= i < |c.mounts| ==> syntax.parseMount(Values(args, "MOUNT=")[i]) == Some(c.mounts[i])
  {
    hide Gather, Valid, Values, PortValues, ParsePort, Print;
    var g := Gather(syntax, args, NOTHING).value;
    GatherAgrees(syntax, args, NOTHING);
    port := if g.port == 0 then DefaultPort(g.protocol) else g.port;
    if PortValues(args) != [] { assert PortValues(args)[0] in PortValues(args); }
    PortsArePositive(PortValues(args), g.port);
  }

  lemma PortsArePositive(values: seq<string>, port: nat)
    requires PortAgrees(values, 0, port)
    ensures values != [] <==> port > 0
  {
    if values != [] { assert values[0] in values; }
  }
}
