// Original DeleGate-style command lines compiled to configuration.
module Legacy {
  import opened Wrappers
  import opened Text
  import opened Decimal
  import opened Mounts
  import opened C = Config
  import opened Policy

  // Library functions the parser calls, and the mount syntax it delegates.
  datatype Syntax = Syntax(
    lib: C.Library,
    unquote: string -> Option<string>,
    parseMount: string -> Option<Mount>)

  // ---- One directive ----

  function Unquoted(syntax: Syntax, value: string): Option<string> {
    if |value| >= 2 && value[0] == '"' && value[|value| - 1] == '"' then syntax.unquote(value) else Some(value)
  }

  // The text cut at its first colon.
  function Cut(s: string): Option<(string, string)> {
    if s == "" then None
    else if s[0] == ':' then Some(("", s[1..]))
    else
      match Cut(s[1..])
      case None => None
      case Some((before, after)) => Some(([s[0]] + before, after))
  }

  // protocol:destination:source, each trimmed and none empty; the source may
  // contain further colons.
  function Selectors(syntax: Syntax, value: string): Option<(string, string, string)> {
    match Unquoted(syntax, value)
    case None => None
    case Some(text) =>
      match Cut(text)
      case None => None
      case Some((protocol, more)) =>
        match Cut(more)
        case None => None
        case Some((destination, source)) =>
          var s := (TrimSpace(protocol), TrimSpace(destination), TrimSpace(source));
          if s.0 == "" || s.1 == "" || s.2 == "" then None else Some(s)
  }

  function ParsePolicy(syntax: Syntax, effect: Effect, value: string, priority: int): Option<Rule> {
    match Selectors(syntax, value)
    case None => None
    case Some((protocol, destination, source)) =>
      var lower := syntax.lib.policy.toLower;
      var rule := Rule(effect, priority, source, lower(protocol), lower(destination), "", "");
      if RuleValid(syntax.lib.policy, rule) then Some(rule) else None
  }

  function DefaultPort(protocol: string): nat {
    if protocol == "ftp" then 21
    else if protocol == "gopher" then 70
    else if protocol == "http" then 80
    else if protocol == "https" then 443
    else if protocol == "socks" then 1080
    else 0
  }

  function Value(arg: string, prefix: string): string { TrimSpace(TrimPrefix(arg, prefix)) }

  // ---- The argument loop ----

  datatype Gathered = Gathered(protocol: string, port: nat, mounts: seq<Mount>, policies: seq<Rule>)

  function AddPolicy(syntax: Syntax, g: Gathered, effect: Effect, value: string): Option<Gathered> {
    match ParsePolicy(syntax, effect, value, -|g.policies|)
    case None => None
    case Some(rule) => Some(g.(policies := g.policies + [rule]))
  }

  function AddPort(g: Gathered, value: string): Option<Gathered> {
    match ParsePort(value)
    case None => None
    case Some(port) => if g.port != 0 && g.port != port then None else Some(g.(port := port))
  }

  function AddServer(syntax: Syntax, g: Gathered, value: string): Option<Gathered> {
    var value := syntax.lib.policy.toLower(value);
    if value == "" || (g.protocol != "" && g.protocol != value) then None else Some(g.(protocol := value))
  }

  function AddMount(syntax: Syntax, g: Gathered, value: string): Option<Gathered> {
    match syntax.parseMount(value) case None => None case Some(m) => Some(g.(mounts := g.mounts + [m]))
  }

  // A directive that stands alone; `arg` is trimmed and not `-P`.
  function AddDirective(syntax: Syntax, g: Gathered, arg: string): Option<Gathered> {
    if "SERVER=" <= arg then AddServer(syntax, g, Value(arg, "SERVER="))
    else if "-P" <= arg then AddPort(g, Value(arg, "-P"))
    else if "MOUNT=" <= arg then AddMount(syntax, g, Value(arg, "MOUNT="))
    else if "PERMIT=" <= arg then AddPolicy(syntax, g, Permit, Value(arg, "PERMIT="))
    else if "REJECT=" <= arg then AddPolicy(syntax, g, Reject, Value(arg, "REJECT="))
    else None
  }

  function Gather(syntax: Syntax, args: seq<string>, g: Gathered): Option<Gathered> {
    if args == [] then Some(g)
    else if TrimSpace(args[0]) == "-P" then
      if |args| < 2 then None
      else
        match AddPort(g, TrimSpace(args[1])) case None => None case Some(g') => Gather(syntax, args[2..], g')
    else
      match AddDirective(syntax, g, TrimSpace(args[0])) case None => None case Some(g') => Gather(syntax, args[1..], g')
  }

  const NOTHING := Gathered("", 0, [], [])

  function ConfigOf(g: Gathered): Option<C.Config> {
    var port := if g.port == 0 then DefaultPort(g.protocol) else g.port;
    if g.protocol == "" || port == 0 then None
    else Some(C.Config([Server("default", g.protocol, ":" + Print(port), "", [], None)], g.mounts, g.policies))
  }

  // What a command line means: a valid configuration, or nothing.
  ghost function Compile(syntax: Syntax, args: seq<string>): Option<C.Config> {
    match Gather(syntax, args, NOTHING)
    case None => None
    case Some(g) =>
      var c := ConfigOf(g);
      if c.Some? && Valid(syntax.lib, c.value) then c else None
  }

  method ParseLegacyArgs(syntax: Syntax, args: seq<string>) returns (r: Option<C.Config>)
    ensures r == Compile(syntax, args)
  {
    hide AddServer, AddMount, AddPolicy, AddPort, Valid;
    var g := NOTHING;
    var i := 0;
    while i < |args|
      invariant 0 <= i <= |args|
      invariant Gather(syntax, args, NOTHING) == Gather(syntax, args[i..], g)
    {
      var arg := TrimSpace(args[i]);
      var next: Option<Gathered>;
      if arg == "-P" {
        assert i + 1 < |args| ==> args[i..][1] == args[i + 1] && args[i..][2..] == args[i + 2..];
        i := i + 1;
        if i >= |args| {
          return None;
        }
        next := AddPort(g, TrimSpace(args[i]));
      } else {
        assert args[i..][1..] == args[i + 1..];
        next := AddDirective(syntax, g, arg);
      }
      if next.None? {
        return None;
      }
      g := next.value;
      i := i + 1;
    }
    assert args[i..] == [];
    var c := ConfigOf(g);
    if c.None? {
      return None;
    }
    var ok := Validate(syntax.lib, c.value);
    return if ok then c else None;
  }

  // ---- What the policy directives mean ----

  datatype Directive = Directive(effect: Effect, value: string)

  // The PERMIT and REJECT arguments, in order, wherever they stand.
  function Directives(args: seq<string>): seq<Directive> {
    if args == [] then []
    else
      var arg := TrimSpace(args[0]);
      (if "PERMIT=" <= arg then [Directive(Permit, Value(arg, "PERMIT="))]
       else if "REJECT=" <= arg then [Directive(Reject, Value(arg, "REJECT="))]
       else []) + Directives(args[1..])
  }

  // A directive matches a request when its three selectors do, as written.
  predicate DirectiveMatches(syntax: Syntax, d: Directive, request: Request) {
    var s := Selectors(syntax, d.value);
    var lib := syntax.lib.policy;
    s.Some?
    && Matches(lib, s.value.0, request.protocol, true)
    && DestinationMatches(lib, s.value.1, request.destination)
    && SourceMatches(lib, s.value.2, request.source)
  }

  // What it means once the first two selectors are lower-cased.
  predicate LoweredMatches(syntax: Syntax, d: Directive, request: Request) {
    var s := Selectors(syntax, d.value);
    var lib := syntax.lib.policy;
    s.Some?
    && Matches(lib, lib.toLower(s.value.0), request.protocol, true)
    && DestinationMatches(lib, lib.toLower(s.value.1), request.destination)
    && SourceMatches(lib, s.value.2, request.source)
  }

  // Lower-casing changes nothing about a selector that is a wildcard or folds to
  // its lower-case form. Destinations with a leading `*.` are lower-cased anyway.
  predicate KeepsProtocol(lib: Policy.Library, p: string) {
    Any(p) || lib.equalFold(p, lib.toLower(p))
  }

  predicate KeepsDestination(lib: Policy.Library, p: string) {
    Any(p) || "*." <= p || lib.equalFold(p, lib.toLower(p))
  }

  predicate LoweringHarmless(syntax: Syntax, d: Directive) {
    match Selectors(syntax, d.value)
    case None => true
    case Some((protocol, destination, _)) =>
      KeepsProtocol(syntax.lib.policy, protocol) && KeepsDestination(syntax.lib.policy, destination)
  }

  // What is used of the library: folding is an equivalence, lower-casing keeps
  // stars where they are and is settled after one pass, and no address prefix
  // or destination wildcard is empty.
  ghost predicate CaseLaws(lib: Policy.Library) {
    && (forall a :: lib.equalFold(a, a))
    && (forall a, b :: lib.equalFold(a, b) ==> lib.equalFold(b, a))
    && (forall a, b, c :: lib.equalFold(a, b) && lib.equalFold(b, c) ==> lib.equalFold(a, c))
    && (forall p :: Any(lib.toLower(p)) <==> Any(p))
    && (forall p :: "*." <= lib.toLower(p) <==> "*." <= p)
    && (forall p :: "*." <= p ==> lib.toLower(TrimPrefix(lib.toLower(p), "*")) == lib.toLower(TrimPrefix(p, "*")))
    && (forall p :: "*." <= p ==> SomeDestination(lib, p))
    && (forall p :: lib.parsesPrefix(p) ==> exists v :: SourceMatches(lib, p, v))
  }

  ghost predicate SomeDestination(lib: Policy.Library, p: string) {
    exists v :: DestinationMatches(lib, p, v)
  }

  // Rules compiled from directives, each with the next lower priority.
  ghost predicate Compiled(syntax: Syntax, rules: seq<Rule>, ds: seq<Directive>) {
    |rules| == |ds|
    && forall i :: 0 <= i < |rules| ==> ParsePolicy(syntax, ds[i].effect, ds[i].value, -i) == Some(rules[i])
  }

  // The value of a separate -P is a number, so it is never a directive.
  lemma PortIsNoDirective(value: string)
    requires ParsePort(value).Some?
    ensures !("PERMIT=" <= value) && !("REJECT=" <= value)
  {
    assert value != "" ==> value[0] in value;
  }

  lemma PolicyDirective(syntax: Syntax, g: Gathered, arg: string)
    ensures "PERMIT=" <= arg ==> AddDirective(syntax, g, arg) == AddPolicy(syntax, g, Permit, Value(arg, "PERMIT="))
    ensures "REJECT=" <= arg ==> AddDirective(syntax, g, arg) == AddPolicy(syntax, g, Reject, Value(arg, "REJECT="))
  {
    hide AddPolicy, AddServer, AddMount, AddPort, Value;
    if "PERMIT=" <= arg {
      assert arg[0] == 'P';
    } else if "REJECT=" <= arg {
      assert arg[0] == 'R';
    }
  }

  lemma AddPolicyCompiles(syntax: Syntax, g: Gathered, d: Directive, before: seq<Directive>)
    requires Compiled(syntax, g.policies, before) && AddPolicy(syntax, g, d.effect, d.value).Some?
    ensures Compiled(syntax, AddPolicy(syntax, g, d.effect, d.value).value.policies, before + [d])
  {
    hide ParsePolicy;
  }

  lemma {:induction false} GatherCompiles(syntax: Syntax, args: seq<string>, g: Gathered, before: seq<Directive>)
    requires Compiled(syntax, g.policies, before) && Gather(syntax, args, g).Some?
    ensures Compiled(syntax, Gather(syntax, args, g).value.policies, before + Directives(args))
    decreases |args|
  {
    hide ParsePolicy, AddServer, AddMount, ParsePort, AddPolicy, Compiled, Value, TrimSpace;
    if args == [] {
      assert before + Directives(args) == before;
    } else if TrimSpace(args[0]) == "-P" {
      PortIsNoDirective(TrimSpace(args[1]));
      assert args[1..][1..] == args[2..];
      assert Directives(args) == Directives(args[2..]);
      GatherCompiles(syntax, args[2..], AddPort(g, TrimSpace(args[1])).value, before);
    } else {
      var arg := TrimSpace(args[0]);
      var next := AddDirective(syntax, g, arg).value;
      if "PERMIT=" <= arg || "REJECT=" <= arg {
        var d := if "PERMIT=" <= arg then Directive(Permit, Value(arg, "PERMIT="))
            else Directive(Reject, Value(arg, "REJECT="));
        PolicyDirective(syntax, g, arg);
        AddPolicyCompiles(syntax, g, d, before);
        GatherCompiles(syntax, args[1..], next, before + [d]);
        assert before + [d] + Directives(args[1..]) == before + ([d] + Directives(args[1..]));
      } else {
        OthersKeepPolicies(syntax, g, arg);
        assert Directives(args) == Directives(args[1..]);
        GatherCompiles(syntax, args[1..], next, before);
      }
    }
  }

  lemma OthersKeepPolicies(syntax: Syntax, g: Gathered, arg: string)
    requires !("PERMIT=" <= arg) && !("REJECT=" <= arg) && AddDirective(syntax, g, arg).Some?
    ensures AddDirective(syntax, g, arg).value.policies == g.policies
  {
  }

  lemma CompiledRuleMatches(syntax: Syntax, d: Directive, priority: int, rule: Rule, request: Request)
    requires ParsePolicy(syntax, d.effect, d.value, priority) == Some(rule)
    ensures RuleMatches(syntax.lib.policy, rule, request) <==> LoweredMatches(syntax, d, request)
    ensures rule.effect == d.effect && !rule.effect.Unknown? && rule.priority == priority
  {
    hide Selectors, SourceMatches, DestinationMatches;
  }

  // The i-th compiled rule applies exactly where the i-th directive does.
  lemma RulesAlign(syntax: Syntax, args: seq<string>, c: C.Config, request: Request)
    requires Compile(syntax, args) == Some(c)
    ensures var ds := Directives(args);
      && |c.policies| == |ds|
      && forall i :: 0 <= i < |ds| ==>
           && (Applies(syntax.lib.policy, c.policies[i], request) <==> LoweredMatches(syntax, ds[i], request))
           && c.policies[i].effect == ds[i].effect && !ds[i].effect.Unknown? && c.policies[i].priority == -i
           && Selectors(syntax, ds[i].value).Some?
  {
    hide Gather, Valid, RuleMatches, LoweredMatches, Directives, Selectors, RuleValid;
    var ds := Directives(args);
    GatherCompiles(syntax, args, NOTHING, []);
    assert [] + ds == ds;
    assert Compiled(syntax, c.policies, ds);
    forall i | 0 <= i < |ds|
      ensures Applies(syntax.lib.policy, c.policies[i], request) <==> LoweredMatches(syntax, ds[i], request)
      ensures c.policies[i].effect == ds[i].effect && !ds[i].effect.Unknown? && c.policies[i].priority == -i
      ensures Selectors(syntax, ds[i].value).Some?
    {
      CompiledRuleMatches(syntax, ds[i], -i, c.policies[i], request);
    }
  }

  // The decision is that of the first directive with this meaning, and default
  // deny when there is none.
  ghost predicate FirstMatch(
    syntax: Syntax, ds: seq<Directive>, request: Request, d: Decision, meaning: (Syntax, Directive, Request) -> bool)
  {
    if d.ruleIndex == -1 then
      d == Decision(false, DefaultDeny, -1) && forall i :: 0 <= i < |ds| ==> !meaning(syntax, ds[i], request)
    else
      && 0 <= d.ruleIndex < |ds| && meaning(syntax, ds[d.ruleIndex], request)
      && (forall i :: 0 <= i < d.ruleIndex ==> !meaning(syntax, ds[i], request))
      && (d.allowed <==> ds[d.ruleIndex].effect == Permit)
  }

  // For every accepted command line and every request, evaluating the compiled
  // rules returns the effect and index of the first matching directive, and
  // denies by default when none matches: of the lower-cased directives always,
  // and of the directives as written when lower-casing harms none of them.
  lemma FirstMatchPreserved(syntax: Syntax, args: seq<string>, c: C.Config, request: Request, d: Decision)
    requires Compile(syntax, args) == Some(c)
    requires Decides(syntax.lib.policy, c.policies, request, d)
    ensures FirstMatch(syntax, Directives(args), request, d, LoweredMatches)
    ensures CaseLaws(syntax.lib.policy) && (forall e :: e in Directives(args) ==> LoweringHarmless(syntax, e)) ==>
      FirstMatch(syntax, Directives(args), request, d, DirectiveMatches)
  {
    hide Compile, Directives, DirectiveMatches, LoweredMatches, LoweringHarmless, RuleMatches, CaseLaws;
    var ds := Directives(args);
    RulesAlign(syntax, args, c, request);
    FallingPrioritiesAreFirstMatch(syntax.lib.policy, c.policies, request, d);
    if CaseLaws(syntax.lib.policy) && forall e :: e in ds ==> LoweringHarmless(syntax, e) {
      forall i | 0 <= i < |ds|
        ensures LoweredMatches(syntax, ds[i], request) <==> DirectiveMatches(syntax, ds[i], request)
      {
        assert ds[i] in ds;
        HarmlessMeansSame(syntax, ds[i], request);
      }
    }
  }

  // ---- When lower-casing keeps what a directive says ----

  lemma ProtocolExact(lib: Policy.Library, p: string)
    requires CaseLaws(lib)
    ensures (forall v :: Matches(lib, lib.toLower(p), v, true) <==> Matches(lib, p, v, true)) <==> KeepsProtocol(lib, p)
  {
    var lowered := lib.toLower(p);
    if KeepsProtocol(lib, p) && !Any(p) {
      forall v ensures Matches(lib, lowered, v, true) <==> Matches(lib, p, v, true) {
        assert lib.equalFold(lowered, p);
      }
    } else if !Any(p) {
      assert Matches(lib, p, p, true) && !Matches(lib, lowered, p, true);
    }
  }

  lemma DestinationExact(lib: Policy.Library, p: string)
    requires CaseLaws(lib)
    ensures (forall v :: DestinationMatches(lib, lib.toLower(p), v) <==> DestinationMatches(lib, p, v)) <==>
        KeepsDestination(lib, p)
  {
    var lowered := lib.toLower(p);
    if KeepsDestination(lib, p) && !Any(p) && !("*." <= p) {
      forall v ensures DestinationMatches(lib, lowered, v) <==> DestinationMatches(lib, p, v) {
        assert lib.equalFold(lowered, p);
      }
    } else if !KeepsDestination(lib, p) {
      assert DestinationMatches(lib, p, p) && !DestinationMatches(lib, lowered, p);
    }
  }

  lemma HarmlessMeansSame(syntax: Syntax, d: Directive, request: Request)
    requires CaseLaws(syntax.lib.policy) && LoweringHarmless(syntax, d)
    ensures LoweredMatches(syntax, d, request) <==> DirectiveMatches(syntax, d, request)
  {
    hide CaseLaws, Selectors, SourceMatches, DestinationMatches, Matches;
    var s := Selectors(syntax, d.value);
    if s.Some? {
      ProtocolExact(syntax.lib.policy, s.value.0);
      DestinationExact(syntax.lib.policy, s.value.1);
    }
  }

  // Something matches every selector.
  lemma SelectorsMatchSomething(
    lib: Policy.Library, protocol: string, destination: string, source: string) returns (request: Request)
    requires CaseLaws(lib)
    ensures request.protocol == protocol && Matches(lib, protocol, request.protocol, true)
    ensures DestinationMatches(lib, destination, request.destination) && SourceMatches(lib, source, request.source)
    ensures !("*." <= destination) ==> request.destination == destination
  {
    var v, u := destination, source;
    if "*." <= destination {
      assert SomeDestination(lib, destination);
      v :| DestinationMatches(lib, destination, v);
    }
    if lib.parsesPrefix(source) {
      u :| SourceMatches(lib, source, u);
    }
    request := Request(u, protocol, v, "", "");
  }

  // A compiled rule means what its directive says, for every request, exactly
  // when lower-casing is harmless to it; where it is not, this is a request on
  // which the two differ.
  lemma HarmIsSeen(syntax: Syntax, d: Directive) returns (request: Request)
    requires CaseLaws(syntax.lib.policy) && !LoweringHarmless(syntax, d)
    ensures DirectiveMatches(syntax, d, request) && !LoweredMatches(syntax, d, request)
  {
    var lib := syntax.lib.policy;
    var (protocol, destination, source) := Selectors(syntax, d.value).value;
    request := SelectorsMatchSomething(lib, protocol, destination, source);
  }

  lemma RuleExact(syntax: Syntax, d: Directive, priority: int, rule: Rule)
    requires CaseLaws(syntax.lib.policy) && ParsePolicy(syntax, d.effect, d.value, priority) == Some(rule)
    ensures (forall request :: RuleMatches(syntax.lib.policy, rule, request) <==> DirectiveMatches(syntax, d, request))
      <==> LoweringHarmless(syntax, d)
  {
    hide CaseLaws, LoweringHarmless, LoweredMatches, DirectiveMatches, RuleMatches, ParsePolicy;
    forall request ensures RuleMatches(syntax.lib.policy, rule, request) <==> LoweredMatches(syntax, d, request) {
      CompiledRuleMatches(syntax, d, priority, rule, request);
    }
    if LoweringHarmless(syntax, d) {
      forall request ensures LoweredMatches(syntax, d, request) <==> DirectiveMatches(syntax, d, request) {
        HarmlessMeansSame(syntax, d, request);
      }
    } else {
      var request := HarmIsSeen(syntax, d);
    }
  }

  // Rules whose priorities fall always decide.
  lemma {:induction false} FallingRulesDecide(
    lib: Policy.Library, rules: seq<Rule>, request: Request, k: nat) returns (d: Decision)
    requires k <= |rules|
    requires forall i, j :: 0 <= i < j < |rules| ==> rules[i].priority > rules[j].priority
    requires forall i :: 0 <= i < k ==> !Applies(lib, rules[i], request)
    ensures Decides(lib, rules, request, d)
    decreases |rules| - k
  {
    hide RuleMatches;
    if k == |rules| {
      d := Decision(false, DefaultDeny, -1);
    } else if Applies(lib, rules[k], request) {
      d := if rules[k].effect.Reject? then Decision(false, ExplicitReject, k) else Decision(true, ExplicitPermit, k);
      assert Wins(lib, rules, request, k);
    } else {
      d := FallingRulesDecide(lib, rules, request, k + 1);
    }
  }

  // A command line of one directive is decided as written, for every request,
  // exactly when lower-casing is harmless to it. Harm to the first of several
  // always shows; harm to a later one can be hidden by those before it.
  lemma FirstMatchExact(syntax: Syntax, args: seq<string>, c: C.Config)
    requires Compile(syntax, args) == Some(c) && CaseLaws(syntax.lib.policy) && Directives(args) != []
    ensures !LoweringHarmless(syntax, Directives(args)[0]) ==> !DecidedAsWritten(syntax, args, c)
    ensures |Directives(args)| == 1 ==> (DecidedAsWritten(syntax, args, c) <==>
        LoweringHarmless(syntax, Directives(args)[0]))
  {
    hide Compile, Directives, DirectiveMatches, LoweredMatches, LoweringHarmless, RuleMatches, CaseLaws, Decides;
    var ds := Directives(args);
    if !LoweringHarmless(syntax, ds[0]) {
      var request := HarmIsSeen(syntax, ds[0]);
      RulesAlign(syntax, args, c, request);
      var d := FallingRulesDecide(syntax.lib.policy, c.policies, request, 0);
      FirstMatchPreserved(syntax, args, c, request, d);
    } else if |ds| == 1 {
      forall request, d | Decides(syntax.lib.policy, c.policies, request, d)
        ensures FirstMatch(syntax, ds, request, d, DirectiveMatches)
      {
        FirstMatchPreserved(syntax, args, c, request, d);
      }
    }
  }

  ghost predicate DecidedAsWritten(syntax: Syntax, args: seq<string>, c: C.Config) {
    forall request, d :: Decides(syntax.lib.policy, c.policies, request, d) ==>
      FirstMatch(syntax, Directives(args), request, d, DirectiveMatches)
  }

  // ---- A library that obeys the laws and a directive that is changed ----

  function LowerChar(c: char): char {
    if 'A' <= c <= 'Z' then (c as nat - 'A' as nat + 'a' as nat) as char else c
  }

  // Folding of the ASCII letters; every other letter folds to itself alone.
  function Fold(s: string): string {
    seq(|s|, i requires 0 <= i < |s| => LowerChar(s[i]))
  }

  // U+0130 in UTF-8: its lower-case form is `i`, but it folds to itself alone.
  const DOTTED := [0xC4 as char, 0xB0 as char]

  function Lower(s: string): string {
    if s == "" then ""
    else if DOTTED <= s then "i" + Lower(s[2..])
    else [LowerChar(s[0])] + Lower(s[1..])
  }

  const DOTTED_LIBRARY: Policy.Library := Policy.Library(
    _ => false, _ => false, (_, _) => false, (a, b) => Fold(a) == Fold(b), s => Lower(s))

  // Its first byte tells where the lower-case form comes from.
  lemma LowerHead(s: string)
    ensures s != "" ==> Lower(s) != "" && Lower(s)[0] == (if DOTTED <= s then 'i' else LowerChar(s[0]))
  {}

  lemma {:induction false} LowerTwice(s: string)
    ensures Lower(Lower(s)) == Lower(s)
    decreases |s|
  {
    if DOTTED <= s {
      LowerTwice(s[2..]);
      assert Lower(s)[1..] == Lower(s[2..]);
    } else if s != "" {
      LowerTwice(s[1..]);
      LowerHead(s[1..]);
      assert Lower(s)[1..] == Lower(s[1..]);
      assert !(DOTTED <= Lower(s));
    }
  }

  lemma LowerKeepsStars(p: string)
    ensures Any(Lower(p)) <==> Any(p)
    ensures "*." <= Lower(p) <==> "*." <= p
    ensures "*." <= p ==> TrimPrefix(Lower(p), "*") == Lower(TrimPrefix(p, "*"))
  {
    if p != "" && p[0] == '*' {
      assert Lower(p) == "*" + Lower(p[1..]) && Lower(p)[1..] == Lower(p[1..]);
      LowerHead(p[1..]);
    } else {
      LowerHead(p);
    }
  }

  lemma DottedLibraryObeys()
    ensures CaseLaws(DOTTED_LIBRARY)
  {
    var lib := DOTTED_LIBRARY;
    forall p
      ensures (Any(lib.toLower(p)) <==> Any(p)) && ("*." <= lib.toLower(p) <==> "*." <= p)
      ensures "*." <= p ==>
        lib.toLower(TrimPrefix(lib.toLower(p), "*")) == lib.toLower(TrimPrefix(p, "*")) && SomeDestination(lib, p)
    {
      LowerKeepsStars(p);
      var suffix := Lower(TrimPrefix(p, "*"));
      LowerTwice(TrimPrefix(p, "*"));
      var v := "a" + suffix;
      assert v[1..] == suffix && Lower(v) == "a" + Lower(suffix);
      assert "*." <= p ==> DestinationMatches(lib, p, v);
    }
  }

  lemma LowerDotted()
    ensures Lower(DOTTED) == "i" && Lower("*") == "*" && Fold("i") != Fold(DOTTED)
  {
    assert DOTTED[2..] == "" && "*"[1..] == "";
    assert |Fold("i")| == 1 && |Fold(DOTTED)| == 2;
  }

  // There a compiled rule allows what its directive, as written, does not name,
  // and misses what it does name.
  lemma LoweringCanChangeAMatch() returns (syntax: Syntax, d: Directive, rule: Rule, wider: Request, missed: Request)
    ensures CaseLaws(syntax.lib.policy) && !LoweringHarmless(syntax, d)
    ensures ParsePolicy(syntax, d.effect, d.value, 0) == Some(rule)
    ensures RuleMatches(syntax.lib.policy, rule, wider) && !DirectiveMatches(syntax, d, wider)
    ensures !RuleMatches(syntax.lib.policy, rule, missed) && DirectiveMatches(syntax, d, missed)
  {
    hide Lower, Fold, CaseLaws, Selectors;
    DottedLibraryObeys();
    var lib := DOTTED_LIBRARY;
    syntax := Syntax(C.Library(lib, _ => true, _ => None, _ => true), _ => None, _ => None);
    d := Directive(Permit, "*" + ":" + (DOTTED + ":" + "*"));
    wider, missed := Request("", "", "i", "", ""), Request("", "", DOTTED, "", "");
    PlainSelectors(syntax, "*", DOTTED, "*");
    LowerDotted();
    rule := Rule(Permit, 0, "*", "*", "i", "", "");
  }

  lemma {:induction false} CutFound(s: string)
    requires Cut(s).Some?
    ensures ':' !in Cut(s).value.0 && s == Cut(s).value.0 + ":" + Cut(s).value.1
  {
    if s[0] != ':' {
      CutFound(s[1..]);
      assert s == [s[0]] + s[1..];
    }
  }

  // The text is these three parts with a colon between them, and trimmed they
  // are the selectors.
  ghost predicate MadeOf(syntax: Syntax, value: string, a: string, b: string, c: string, s: (string, string, string)) {
    && Unquoted(syntax, value) == Some(a + ":" + (b + ":" + c)) && ':' !in a && ':' !in b
    && s == (TrimSpace(a), TrimSpace(b), TrimSpace(c))
  }

  // The three selectors are what stands before the first colon, between the
  // first two, and after the second, trimmed, when none of them is blank.
  lemma SelectorsAreParts(syntax: Syntax, value: string, s: (string, string, string))
    ensures Selectors(syntax, value) == Some(s) <==>
      s.0 != "" && s.1 != "" && s.2 != "" && exists a, b, c :: MadeOf(syntax, value, a, b, c, s)
  {
    hide Unquoted, TrimSpace, Cut;
    if Selectors(syntax, value) == Some(s) {
      var text := Unquoted(syntax, value).value;
      CutFound(text);
      CutFound(Cut(text).value.1);
      var (a, more) := Cut(text).value;
      var (b, c) := Cut(more).value;
      assert MadeOf(syntax, value, a, b, c, s);
    }
    if a, b, c :| MadeOf(syntax, value, a, b, c, s) {
      CutAt(a, b + ":" + c);
      CutAt(b, c);
    }
  }

  lemma PlainSelectors(syntax: Syntax, protocol: string, destination: string, source: string)
    requires ':' !in protocol && ':' !in destination
    requires forall s :: s in [protocol, destination, source] ==> s != "" && LeadingSpace(s) == TrailingSpace(s) == 0
    requires protocol != "" && protocol[0] != '"'
    ensures Selectors(syntax, protocol + ":" + (destination + ":" + source)) == Some((protocol, destination, source))
  {
    hide Cut, TrimSpace, Selectors, LeadingSpace, TrailingSpace;
    var value := protocol + ":" + (destination + ":" + source);
    assert protocol in [protocol, destination, source] && destination in [protocol, destination, source]
      && source in [protocol, destination, source];
    Trimmed(protocol);
    Trimmed(destination);
    Trimmed(source);
    assert MadeOf(syntax, value, protocol, destination, source, (protocol, destination, source));
    SelectorsAreParts(syntax, value, (protocol, destination, source));
  }

  lemma {:induction false} CutAt(before: string, after: string)
    requires ':' !in before
    ensures Cut(before + ":" + after) == Some((before, after))
  {
    var s := before + ":" + after;
    if before == "" {
      assert s[1..] == after;
    } else {
      CutAt(before[1..], after);
      assert s[1..] == before[1..] + ":" + after;
      assert [s[0]] + before[1..] == before;
    }
  }
}
