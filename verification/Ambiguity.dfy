// When a request is ambiguous, and whether validation rules that out.
module Ambiguity {
  import opened Wrappers
  import opened Mounts
  import opened MountResolve
  import opened ResolveLaws
  import MountPath
  import C = Config
  import Policy
  import PathLaws
  import opened Decimal
  import opened Text

  // Both mounts apply to the request with the same pattern, priority, kind of
  // source and number of scopes.
  ghost predicate Twins(lib: Library, a: Mount, b: Mount, request: Request) {
    && EffectivePattern(lib, a, request).Some? && EffectivePattern(lib, a, request) == EffectivePattern(lib, b, request)
    && a.priority == b.priority
    && MatchScope(lib, a, request).Some? && MatchScope(lib, a, request) == MatchScope(lib, b, request)
  }

  // A request is ambiguous exactly when the best match has a twin: mounts that
  // differ in priority, in pattern, in kind of source or in number of scopes
  // are never confused, and twins that a better mount shadows do no harm.
  lemma AmbiguousIffTwinsOnTop(lib: Library, mounts: seq<Mount>, request: Request, n: string)
    requires MountPath.Normalize(request.path) == Ok(n)
    ensures Outcome(lib, mounts, request, Err(Ambiguous)) <==>
      exists i, j :: 0 <= i < j < |mounts| && Twins(lib, mounts[i], mounts[j], request)
        && Top(Ranks(lib, mounts, request, n), i)
  {
    var ranks := Ranks(lib, mounts, request, n);
    if Outcome(lib, mounts, request, Err(Ambiguous)) {
      var i: nat, j: nat :| i < j && Top(ranks, i) && Top(ranks, j);
      TopsAreTwins(lib, mounts, request, n, i, j);
      assert Twins(lib, mounts[i], mounts[j], request) && Top(ranks, i);
    }
    if i, j :| 0 <= i < j < |mounts| && Twins(lib, mounts[i], mounts[j], request) && Top(ranks, i) {
      assert ranks[i] == RankOf(lib, mounts[i], request, n) == RankOf(lib, mounts[j], request, n) == ranks[j];
      assert Top(ranks, j);
    }
  }

  lemma TopsAreTwins(lib: Library, mounts: seq<Mount>, request: Request, n: string, i: nat, j: nat)
    requires var ranks := Ranks(lib, mounts, request, n); Top(ranks, i) && Top(ranks, j)
    ensures Twins(lib, mounts[i], mounts[j], request)
  {
    hide MatchPath, MatchScope, EffectivePattern;
    var ranks := Ranks(lib, mounts, request, n);
    var a, b := mounts[i], mounts[j];
    assert ranks[i] == RankOf(lib, a, request, n) && ranks[j] == RankOf(lib, b, request, n);
    assert ranks[i].value == ranks[j].value;
    var p, q := EffectivePattern(lib, a, request).value, EffectivePattern(lib, b, request).value;
    SpecificityIdentifiesPattern(p.0, q.0, n);
  }

  // The pattern a mount is written with, and whether it names an authority.
  function WrittenPattern(lib: Library, m: Mount): Option<(string, int)> {
    if m.source == "" then Some((m.path, 0))
    else
      match lib.parseSource(m.source)
      case None => None
      case Some(parsed) => Some((if parsed.escapedPath == "" then "/" else parsed.escapedPath, 1))
  }

  // Two positions that a priority does not tell apart.
  predicate Rivals(lib: Library, a: Mount, b: Mount) {
    WrittenPattern(lib, a).Some? && WrittenPattern(lib, a) == WrittenPattern(lib, b) && a.priority == b.priority
  }

  lemma TwinsAreRivals(lib: Library, a: Mount, b: Mount, request: Request)
    ensures Twins(lib, a, b, request) ==> Rivals(lib, a, b)
  {}

  // What can be checked before serving: where mounts written with the same
  // pattern have distinct priorities, no request is ever ambiguous.
  lemma DistinctPrioritiesSuffice(lib: Library, mounts: seq<Mount>, request: Request)
    requires forall i, j :: 0 <= i < j < |mounts| ==> !Rivals(lib, mounts[i], mounts[j])
    ensures !Outcome(lib, mounts, request, Err(Ambiguous))
  {
    hide Top, Ranks, Twins, Rivals;
    forall i, j | 0 <= i < j < |mounts| ensures !Twins(lib, mounts[i], mounts[j], request) {
      TwinsAreRivals(lib, mounts[i], mounts[j], request);
    }
    if MountPath.Normalize(request.path).Ok? {
      AmbiguousIffTwinsOnTop(lib, mounts, request, MountPath.Normalize(request.path).value);
    }
  }

  // Validation does not look for twins: a valid configuration stays valid when
  // one of its mounts is repeated, and every request that mount served is
  // ambiguous from then on.
  lemma RepeatedMountIsValidAndAmbiguous(
    config: C.Library, lib: Library, c: C.Config, k: nat, request: Request, found: Match)
    requires C.Valid(config, c) && k < |c.mounts|
    requires Outcome(lib, c.mounts, request, Ok(found)) && found.mapping == c.mounts[k]
    ensures var repeated := c.(mounts := c.mounts + [c.mounts[k]]);
      C.Valid(config, repeated) && Outcome(lib, repeated.mounts, request, Err(Ambiguous))
  {
    hide C.ServerValid, C.MountValid, C.ScopeValid, CandidateFor;
    var n := MountPath.Normalize(request.path).value;
    var mounts := c.mounts + [c.mounts[k]];
    var ranks, longer := Ranks(lib, c.mounts, request, n), Ranks(lib, mounts, request, n);
    var i: nat :| OnlyTop(ranks, i) && found == MatchOf(lib, c.mounts[i], request, n);
    assert longer == ranks + [ranks[i]];
    assert Top(longer, i) && Top(longer, |ranks|);
  }

  // ---- Such a configuration exists ----

  // One server, a mount for the root path, and a request for that path, with a
  // library under which texts fold only to themselves.
  const MAIN := C.Server("main", "http", ":80", "", [], None)
  const ROOT := Mount("/", "", "http://backend/", 0, "", "", None)
  const REQUEST := Request("/", "http", "gateway", "main", "http")
  const RESOLVER: Library := Library(_ => None, (a, b) => a == b)
  const VALIDATOR: C.Library := C.Library(
    Policy.Library(_ => false, _ => false, (_, _) => false, (a, b) => a ==
        b, s => s), _ => true, _ => Some("http"), _ => true)

  lemma OneServerOneMount(config: C.Library, server: C.Server, m: Mount)
    requires C.ServerValid(config, server) && C.MountValid(config, m)
    requires Policy.Any(m.server) && Policy.Any(m.protocol)
    ensures C.Valid(config, C.Config([server], [m], []))
  {
    hide C.ServerValid, C.MountValid;
  }

  lemma OneMountResolves(lib: Library, m: Mount, request: Request, n: string)
    requires MountPath.Normalize(request.path) == Ok(n) && RankOf(lib, m, request, n).Some?
    ensures Outcome(lib, [m], request, Ok(MatchOf(lib, m, request, n)))
  {
    hide CandidateFor;
    assert OnlyTop(Ranks(lib, [m], request, n), 0);
  }

  lemma ExampleIsValid()
    ensures C.ServerValid(VALIDATOR, MAIN) && C.MountValid(VALIDATOR, ROOT)
  {
    hide TrimSpace;
    NamesAreTrimmed();
  }

  lemma RootMatches()
    ensures RankOf(RESOLVER, ROOT, REQUEST, "/").Some?
  {
    assert MatchPath("/", "/") == Some(("", 2));
  }

  // A valid configuration and a request it cannot resolve: the same mount twice.
  lemma ValidConfigurationCanBeAmbiguous() returns (config: C.Library, lib: Library, c: C.Config, request: Request)
    ensures C.Valid(config, c) && Outcome(lib, c.mounts, request, Err(Ambiguous))
  {
    hide *;
    config, lib, request := VALIDATOR, RESOLVER, REQUEST;
    c := C.Config([MAIN], [ROOT], []);
    ExampleIsValid();
    RootIsUnscoped();
    OneServerOneMount(config, MAIN, ROOT);
    RootNormalizes();
    RootMatches();
    OneMountResolves(lib, ROOT, request, "/");
    RepeatedMountIsValidAndAmbiguous(config, lib, c, 0, request, MatchOf(lib, ROOT, request, "/"));
    c := c.(mounts := c.mounts + [c.mounts[0]]);
  }

  lemma RootIsUnscoped()
    ensures Policy.Any(ROOT.server) && Policy.Any(ROOT.protocol) && REQUEST.path == "/"
    ensures RankOf(RESOLVER, ROOT, REQUEST, "/").Some? ==> MatchOf(RESOLVER, ROOT, REQUEST, "/").mapping == ROOT
  {}

  lemma NamesAreTrimmed()
    ensures TrimSpace("main") == "main" && TrimSpace("http") == "http" && TrimSpace(":80") == ":80"
  {
    hide TrimSpace, LeadingSpace, TrailingSpace;
    TrimmedAscii("main");
    TrimmedAscii("http");
    TrimmedAscii(":80");
  }

  lemma RootNormalizes()
    ensures MountPath.Normalize("/") == Ok("/")
  {
    PathLaws.PlainText("/");
    assert "/"[1..] == "";
    assert Split("", '/') == [""] && Split("/", '/') == ["", ""];
    PathLaws.EliminateKeeps(["", ""], []);
    assert ["", ""][1..] == [""] && [""][1..] == [];
    assert PathLaws.Kept(["", ""]) == [];
    assert MountPath.ValidUtf8("/");
  }
}
