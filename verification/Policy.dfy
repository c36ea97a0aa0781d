// Authorization: rules, the evaluation of a request against them, and what
// the decision depends on.
module Policy {
  import opened Text

  datatype Effect = Permit | Reject | Unknown(text: string)

  datatype Request = Request(source: string, protocol: string, destination: string, verb: string, mount: string)

  datatype Rule = Rule(
    effect: Effect,
    priority: int,
    source: string,
    protocol: string,
    destination: string,
    verb: string,
    mount: string)

  datatype Reason = DefaultDeny | ExplicitPermit | ExplicitReject

  datatype Decision = Decision(allowed: bool, reason: Reason, ruleIndex: int)

  // Library functions the rules call: address prefixes, case folding and
  // lower-casing. Everything below holds whatever they return.
  datatype Library = Library(
    parsesPrefix: string -> bool,
    parsesAddress: string -> bool,
    contains: (string, string) -> bool,  // prefix and address, when both parse
    equalFold: (string, string) -> bool,
    toLower: string -> string)

  predicate Any(pattern: string) { pattern == "" || pattern == "*" }

  predicate SourceMatches(lib: Library, pattern: string, value: string) {
    || Any(pattern)
    || (if lib.parsesPrefix(pattern) then lib.parsesAddress(value) && lib.contains(pattern, value)
        else pattern == value)
  }

  predicate DestinationMatches(lib: Library, pattern: string, value: string) {
    || Any(pattern)
    || (if "*." <= pattern then
          var suffix := lib.toLower(TrimPrefix(pattern, "*"));
          HasSuffix(lib.toLower(value), suffix) && |value| > |suffix|
        else lib.equalFold(pattern, value))
  }

  predicate Matches(lib: Library, pattern: string, value: string, foldCase: bool) {
    Any(pattern) || (if foldCase then lib.equalFold(pattern, value) else pattern == value)
  }

  predicate RuleMatches(lib: Library, rule: Rule, request: Request) {
    && SourceMatches(lib, rule.source, request.source)
    && Matches(lib, rule.protocol, request.protocol, true)
    && DestinationMatches(lib, rule.destination, request.destination)
    && Matches(lib, rule.verb, request.verb, true)
    && Matches(lib, rule.mount, request.mount, false)
  }

  // A rule takes part in the decision.
  predicate Applies(lib: Library, rule: Rule, request: Request) {
    !rule.effect.Unknown? && RuleMatches(lib, rule, request)
  }

  // ---- What a rule covers, selector by selector ----

  // The value ends in the suffix, with something before it.
  predicate EndsBeyond(value: string, suffix: string, length: nat) {
    |suffix| <= |value| && value[|value| - |suffix|..] == suffix && length > |suffix|
  }

  // Each selector is empty or a star, or accepts the request's own field: the
  // source by address prefix or equality, protocol and verb by case folding, the
  // destination by folding or, after a leading `*`, as a proper suffix in lower
  // case, and the mount by equality.
  predicate Covers(lib: Library, r: Rule, request: Request) {
    && (r.source == "" || r.source == "*"
        || (lib.parsesPrefix(r.source) && lib.parsesAddress(request.source) && lib.contains(r.source, request.source))
        || (!lib.parsesPrefix(r.source) && r.source == request.source))
    && (r.protocol == "" || r.protocol == "*" || lib.equalFold(r.protocol, request.protocol))
    && (r.destination == "" || r.destination == "*"
        || ("*." <= r.destination
            && EndsBeyond(lib.toLower(request.destination), lib.toLower(r.destination[1..]), |request.destination|))
        || (!("*." <= r.destination) && lib.equalFold(r.destination, request.destination)))
    && (r.verb == "" || r.verb == "*" || lib.equalFold(r.verb, request.verb))
    && (r.mount == "" || r.mount == "*" || r.mount == request.mount)
  }

  predicate Known(r: Rule) { r.effect == Permit || r.effect == Reject }

  // A rule takes part in the decision exactly when its effect is known and it
  // covers the request.
  lemma AppliesExactly(lib: Library, r: Rule, request: Request)
    ensures Applies(lib, r, request) <==> Known(r) && Covers(lib, r, request)
  {
  }

  function Stars(s: string): nat {
    if s == "" then 0 else (if s[0] == '*' then 1 else 0) + Stars(s[1..])
  }

  predicate RuleValid(lib: Library, r: Rule) {
    && !r.effect.Unknown?
    && (Any(r.source) || (if '/' in r.source then lib.parsesPrefix(r.source) else lib.parsesAddress(r.source)))
    && ('*' in r.destination && r.destination != "*" ==> "*." <= r.destination && Stars(r.destination) == 1)
  }

  lemma StarsMore(s: string, i: nat)
    requires i < |s|
    ensures Stars(s[i..]) == (if s[i] == '*' then 1 else 0) + Stars(s[i + 1..])
  {
    assert s[i..][1..] == s[i + 1..];
  }

  method CheckRule(lib: Library, r: Rule) returns (ok: bool)
    ensures ok <==> RuleValid(lib, r)
  {
    if r.effect != Permit && r.effect != Reject {
      return false;
    }
    if r.source != "" && r.source != "*" {
      if '/' in r.source {
        if !lib.parsesPrefix(r.source) {
          return false;
        }
      } else if !lib.parsesAddress(r.source) {
        return false;
      }
    }
    var stars := 0;
    for i := 0 to |r.destination|
      invariant stars + Stars(r.destination[i..]) == Stars(r.destination)
    {
      StarsMore(r.destination, i);
      if r.destination[i] == '*' {
        stars := stars + 1;
      }
    }
    if '*' in r.destination && r.destination != "*" && (!("*." <= r.destination) || stars != 1) {
      return false;
    }
    return true;
  }

  // ---- Evaluation ----

  // r beats o: higher priority, or a reject against a permit of the same one.
  predicate Beats(r: Rule, o: Rule) {
    r.priority > o.priority || (r.priority == o.priority && r.effect.Reject? && !o.effect.Reject?)
  }

  // The first of the rules that no applying rule beats.
  ghost predicate Wins(lib: Library, rules: seq<Rule>, request: Request, w: nat) {
    && w < |rules| && Applies(lib, rules[w], request)
    && forall j :: 0 <= j < |rules| && Applies(lib, rules[j], request) ==>
         !Beats(rules[j], rules[w]) && (j < w ==> Beats(rules[w], rules[j]))
  }

  ghost predicate Decides(lib: Library, rules: seq<Rule>, request: Request, d: Decision) {
    if d.ruleIndex == -1 then
      && d == Decision(false, DefaultDeny, -1)
      && forall j :: 0 <= j < |rules| ==> !Applies(lib, rules[j], request)
    else
      && 0 <= d.ruleIndex && Wins(lib, rules, request, d.ruleIndex)
      && d == (if rules[d.ruleIndex].effect.Reject? then Decision(false, ExplicitReject, d.ruleIndex)
               else Decision(true, ExplicitPermit, d.ruleIndex))
  }

  lemma DecidesUnique(lib: Library, rules: seq<Rule>, request: Request, d: Decision, e: Decision)
    requires Decides(lib, rules, request, d) && Decides(lib, rules, request, e)
    ensures d == e
  {
    hide RuleMatches;
  }

  method Evaluate(lib: Library, rules: seq<Rule>, request: Request) returns (d: Decision)
    ensures Decides(lib, rules, request, d)
    ensures d.ruleIndex != -1 ==>
      0 <= d.ruleIndex < |rules| && Known(rules[d.ruleIndex]) && Covers(lib, rules[d.ruleIndex], request)
  {
    hide RuleMatches;
    var winner := -1;
    for i := 0 to |rules|
      invariant -1 <= winner < i
      invariant winner == -1 ==> forall j :: 0 <= j < i ==> !Applies(lib, rules[j], request)
      invariant winner != -1 ==> Wins(lib, rules[..i], request, winner)
    {
      assert forall j :: 0 <= j < i ==> rules[..i + 1][j] == rules[..i][j];
      if !Applies(lib, rules[i], request) {
        continue;
      }
      if || winner == -1 || rules[i].priority > rules[winner].priority
         || (rules[i].priority == rules[winner].priority && rules[i].effect.Reject? && !rules[winner].effect.Reject?) {
        winner := i;
      }
    }
    assert rules[..|rules|] == rules;
    if winner == -1 {
      return Decision(false, DefaultDeny, -1);
    }
    AppliesExactly(lib, rules[winner], request);
    if rules[winner].effect.Reject? {
      return Decision(false, ExplicitReject, winner);
    }
    return Decision(true, ExplicitPermit, winner);
  }

  // ---- What the decision means ----

  // Some permit that covers the request outranks every reject that does.
  ghost predicate Permitted(lib: Library, rules: seq<Rule>, request: Request) {
    exists p :: p in rules && p.effect == Permit && Covers(lib, p, request)
      && forall r :: r in rules && r.effect == Reject && Covers(lib, r, request) ==> p.priority > r.priority
  }

  // A request is allowed exactly when some permit that covers it outranks every
  // reject that covers it.
  lemma AllowedIffPermitted(lib: Library, rules: seq<Rule>, request: Request, d: Decision)
    requires Decides(lib, rules, request, d)
    ensures d.allowed <==> Permitted(lib, rules, request)
  {
    hide Applies, Covers;
    forall r ensures Applies(lib, r, request) <==> Known(r) && Covers(lib, r, request) {
      AppliesExactly(lib, r, request);
    }
    if d.allowed {
      var p := rules[d.ruleIndex];
      forall r | r in rules && r.effect == Reject && Covers(lib, r, request) ensures p.priority > r.priority {
        var j :| 0 <= j < |rules| && rules[j] == r;
        assert Applies(lib, rules[j], request);
      }
    }
    if Permitted(lib, rules, request) {
      var p :| p in rules && p.effect == Permit && Covers(lib, p, request)
        && forall r :: r in rules && r.effect == Reject && Covers(lib, r, request) ==> p.priority > r.priority;
      var j :| 0 <= j < |rules| && rules[j] == p;
      assert Applies(lib, rules[j], request);
      assert d.ruleIndex != -1 && rules[d.ruleIndex] in rules;
    }
  }

  // It is denied by default exactly when no rule of a known effect covers it.
  lemma DefaultIffNoMatch(lib: Library, rules: seq<Rule>, request: Request, d: Decision)
    requires Decides(lib, rules, request, d)
    ensures d.reason == DefaultDeny <==> forall r :: r in rules && Known(r) ==> !Covers(lib, r, request)
  {
    hide Applies, Covers;
    forall r ensures Applies(lib, r, request) <==> Known(r) && Covers(lib, r, request) {
      AppliesExactly(lib, r, request);
    }
    assert d.ruleIndex != -1 ==> rules[d.ruleIndex] in rules;
  }

  // Only which rules there are matters, not their order or repetition.
  lemma OrderIrrelevant(lib: Library, a: seq<Rule>, b: seq<Rule>, request: Request, d: Decision, e: Decision)
    requires (forall r :: r in a <==> r in b) && Decides(lib, a, request, d) && Decides(lib, b, request, e)
    ensures d.allowed == e.allowed && d.reason == e.reason
  {
    hide RuleMatches;
    AllowedIffPermitted(lib, a, request, d);
    AllowedIffPermitted(lib, b, request, e);
    DefaultIffNoMatch(lib, a, request, d);
    DefaultIffNoMatch(lib, b, request, e);
  }

  // Adding a reject, anywhere, never turns a denial into permission.
  lemma RejectOnlyRestricts(
    lib: Library, rules: seq<Rule>, k: nat, reject: Rule, request: Request, d: Decision, e: Decision)
    requires k <= |rules| && reject.effect.Reject?
    requires Decides(lib, rules, request, d) && Decides(lib, rules[..k] + [reject] + rules[k..], request, e)
    ensures e.allowed ==> d.allowed
  {
    hide RuleMatches;
    var more := rules[..k] + [reject] + rules[k..];
    assert rules == rules[..k] + rules[k..];
    assert forall r :: r in more <==> r in rules || r == reject;
    AllowedIffPermitted(lib, rules, request, d);
    AllowedIffPermitted(lib, more, request, e);
  }

  // Rules whose priorities strictly fall are evaluated first match first.
  lemma FallingPrioritiesAreFirstMatch(lib: Library, rules: seq<Rule>, request: Request, d: Decision)
    requires Decides(lib, rules, request, d)
    requires forall i, j :: 0 <= i < j < |rules| ==> rules[i].priority > rules[j].priority
    ensures d.ruleIndex == -1 ==> forall j :: 0 <= j < |rules| ==> !Applies(lib, rules[j], request)
    ensures d.ruleIndex != -1 ==>
      && 0 <= d.ruleIndex < |rules| && Applies(lib, rules[d.ruleIndex], request)
      && forall j :: 0 <= j < d.ruleIndex ==> !Applies(lib, rules[j], request)
  {
    hide RuleMatches;
    if d.ruleIndex != -1 {
      forall j | 0 <= j < d.ruleIndex ensures !Applies(lib, rules[j], request) {
        assert Applies(lib, rules[j], request) ==> Beats(rules[j], rules[d.ruleIndex]);
      }
    }
  }

  // ---- Enforcement ----

  // What a decision guards: it counts its runs and fails in its own way.
  class Operation<E> {
    const failure: E
    var runs: nat

    constructor (failure: E)
      ensures this.failure == failure && runs == 0
    {
      this.failure, runs := failure, 0;
    }

    method Run() returns (err: E)
      modifies this
      ensures err == failure && runs == old(runs) + 1
    {
      runs := runs + 1;
      return failure;
    }
  }

  datatype Enforced<E> = Denied(reason: Reason) | NothingToRun | Ran(err: E)

  method Enforce<E>(d: Decision, next: Operation?<E>) returns (r: Enforced<E>)
    modifies next
    ensures r == if !d.allowed then Denied(d.reason) else if next == null then NothingToRun else Ran(next.failure)
    ensures next != null ==> next.runs == old(next.runs) + (if d.allowed then 1 else 0)
  {
    if !d.allowed {
      return Denied(d.reason);
    }
    if next == null {
      return NothingToRun;
    }
    var err := next.Run();
    return Ran(err);
  }

  // Evaluation and enforcement together: the operation runs, and runs once,
  // exactly when some permit that covers the request outranks every reject that
  // does; a denial says whether any rule covered it.
  method Authorize<E>(lib: Library, rules: seq<Rule>, request: Request, next: Operation?<E>) returns (r: Enforced<E>)
    modifies next
    ensures next != null ==> next.runs == old(next.runs) + (if Permitted(lib, rules, request) then 1 else 0)
    ensures r.Denied? <==> !Permitted(lib, rules, request)
    ensures r == Denied(DefaultDeny) <==> forall rule :: rule in rules && Known(rule) ==> !Covers(lib, rule, request)
    ensures Permitted(lib, rules, request) ==> r == if next == null then NothingToRun else Ran(next.failure)
  {
    hide RuleMatches;
    var d := Evaluate(lib, rules, request);
    AllowedIffPermitted(lib, rules, request, d);
    DefaultIffNoMatch(lib, rules, request, d);
    r := Enforce(d, next);
  }
}
