// What resolution looks at, told from the fields of mounts and requests alone.
module ResolveFields {
  import opened Wrappers
  import opened Text
  import opened Mounts
  import opened MountResolve
  import opened MountPath

  // ---- When a mount serves a request ----

  predicate Wildcard(pattern: string) { pattern != "" && pattern[|pattern| - 1] == '*' }

  // The pattern is the path, or without its star begins it.
  predicate PatternFits(pattern: string, path: string) {
    if Wildcard(pattern) then pattern[..|pattern| - 1] <= path else pattern == path
  }

  // The path pattern of a mount, from its path or its source URL; a source that
  // is no URL has none.
  function PatternOf(lib: Library, m: Mount): string {
    if m.source == "" then m.path
    else
      match lib.parseSource(m.source)
      case None => ""
      case Some(parsed) => if parsed.escapedPath == "" then "/" else parsed.escapedPath
  }

  predicate SourceFits(lib: Library, m: Mount, request: Request) {
    m.source == "" || (
      && lib.parseSource(m.source).Some?
      && lib.equalFold(lib.parseSource(m.source).value.scheme, request.scheme)
      && lib.equalFold(lib.parseSource(m.source).value.host, request.authority))
  }

  predicate Fits(lib: Library, m: Mount, request: Request, path: string) {
    && (m.server == "" || m.server == "*" || m.server == request.server)
    && (m.protocol == "" || m.protocol == "*" || lib.equalFold(m.protocol, request.protocol))
    && SourceFits(lib, m, request)
    && PatternFits(PatternOf(lib, m), path)
  }

  // How a mount that fits ranks: exact patterns above wildcards, longer above
  // shorter; a source above a path; each named scope adds one.
  function FieldRank(lib: Library, m: Mount): Rank {
    var p := PatternOf(lib, m);
    Rank(
      if Wildcard(p) then |p| - 1 else |p| + 1,
      m.priority,
      if m.source == "" then 0 else 1,
      (if m.server == "" || m.server == "*" then 0 else 1) + (if m.protocol == "" || m.protocol == "*" then 0 else 1))
  }

  // Where a mount that fits sends the path: a star in the target stands for
  // what the star of the pattern stood for.
  function FieldTarget(lib: Library, m: Mount, request: Request, path: string): string
    requires Fits(lib, m, request, path)
  {
    var p := PatternOf(lib, m);
    if !Wildcard(m.target) then m.target
    else m.target[..|m.target| - 1] + (if Wildcard(p) then path[|p| - 1..] else "")
  }

  lemma EndsInStar(s: string)
    ensures HasSuffix(s, "*") <==> Wildcard(s)
    ensures TrimSuffix(s, "*") == if Wildcard(s) then s[..|s| - 1] else s
  {
    if s != "" { assert s[|s| - 1..] == [s[|s| - 1]]; }
  }

  lemma ScopeFits(lib: Library, m: Mount, request: Request)
    ensures MatchScope(lib, m, request).Some? <==>
      && (m.server == "" || m.server == "*" || m.server == request.server)
      && (m.protocol == "" || m.protocol == "*" || lib.equalFold(m.protocol, request.protocol))
    ensures SourceFits(lib, m, request) && MatchScope(lib, m, request).Some? ==>
      MatchScope(lib, m, request).value == FieldRank(lib, m).scope
  {
  }

  lemma PatternOfFits(lib: Library, m: Mount, request: Request)
    ensures EffectivePattern(lib, m, request).Some? <==> SourceFits(lib, m, request)
    ensures SourceFits(lib, m, request) ==>
      EffectivePattern(lib, m, request).value == (PatternOf(lib, m), FieldRank(lib, m).authority)
  {
  }

  lemma PathFits(pattern: string, path: string)
    ensures MatchPath(pattern, path).Some? <==> PatternFits(pattern, path)
    ensures PatternFits(pattern, path) ==>
      MatchPath(pattern, path).value
        == if Wildcard(pattern) then (path[|pattern| - 1..], |pattern| - 1) else ("", |pattern| + 1)
  {
    EndsInStar(pattern);
  }

  lemma CandidateIsFit(lib: Library, m: Mount, request: Request, path: string)
    ensures RankOf(lib, m, request, path).Some? <==> Fits(lib, m, request, path)
    ensures Fits(lib, m, request, path) ==>
      && RankOf(lib, m, request, path) == Some(FieldRank(lib, m))
      && MatchOf(lib, m, request, path) == Match(m, path, FieldTarget(lib, m, request, path))
  {
    hide MatchScope, EffectivePattern, MatchPath;
    ScopeFits(lib, m, request);
    PatternOfFits(lib, m, request);
    if SourceFits(lib, m, request) { PathFits(PatternOf(lib, m), path); }
    EndsInStar(m.target);
  }

  // ---- What resolution returns ----

  // The mount at position i fits, and every other that fits ranks below it.
  ghost predicate BestFit(lib: Library, mounts: seq<Mount>, request: Request, path: string, i: nat) {
    && i < |mounts| && Fits(lib, mounts[i], request, path)
    && forall j :: 0 <= j < |mounts| && j != i && Fits(lib, mounts[j], request, path) ==>
         Below(FieldRank(lib, mounts[j]), FieldRank(lib, mounts[i]))
  }

  lemma OnlyTopIsBestFit(lib: Library, mounts: seq<Mount>, request: Request, path: string, i: nat)
    requires OnlyTop(Ranks(lib, mounts, request, path), i)
    ensures BestFit(lib, mounts, request, path, i)
  {
    hide Fits, FieldRank, RankOf, Below, Top, OnlyTop;
    var ranks := Ranks(lib, mounts, request, path);
    OnlyTopRanks(ranks, i);
    CandidateIsFit(lib, mounts[i], request, path);
    forall j | 0 <= j < |mounts| && j != i && Fits(lib, mounts[j], request, path)
      ensures Below(FieldRank(lib, mounts[j]), FieldRank(lib, mounts[i]))
    {
      CandidateIsFit(lib, mounts[j], request, path);
      OnlyTopIsAbove(ranks, i, j);
    }
  }

  lemma OnlyTopRanks(ranks: seq<Option<Rank>>, i: nat)
    requires OnlyTop(ranks, i)
    ensures i < |ranks| && ranks[i].Some?
  {
  }

  // The mount found fits the request, is sent where its target says, and every
  // other position of a mount that fits ranks below it.
  lemma FoundFits(lib: Library, mounts: seq<Mount>, request: Request, found: Match) returns (i: nat)
    requires Outcome(lib, mounts, request, Ok(found))
    ensures Normalize(request.path) == Ok(found.normalizedPath)
    ensures BestFit(lib, mounts, request, found.normalizedPath, i) && found.mapping == mounts[i]
    ensures found.target == FieldTarget(lib, found.mapping, request, found.normalizedPath)
  {
    hide Fits, FieldRank, FieldTarget, RankOf, MatchOf, Below, Normalize;
    var n := Normalize(request.path).value;
    var ranks := Ranks(lib, mounts, request, n);
    i :| OnlyTop(ranks, i) && found == MatchOf(lib, mounts[i], request, n);
    OnlyTopIsBestFit(lib, mounts, request, n, i);
    CandidateIsFit(lib, mounts[i], request, n);
  }

  // The rank order is total, so what does not reach the only top is below it.
  lemma OnlyTopIsAbove(ranks: seq<Option<Rank>>, i: nat, j: nat)
    requires OnlyTop(ranks, i) && j < |ranks| && j != i && ranks[j].Some?
    ensures Below(ranks[j].value, ranks[i].value)
  {
    if !Below(ranks[j].value, ranks[i].value) {
      assert ranks[j] == ranks[i];
      assert Top(ranks, j);
    }
  }

  // Conversely, a best fit is found and sent there.
  lemma BestFitIsFound(lib: Library, mounts: seq<Mount>, request: Request, path: string, i: nat)
    requires Normalize(request.path) == Ok(path) && BestFit(lib, mounts, request, path, i)
    ensures Outcome(lib, mounts, request, Ok(Match(mounts[i], path, FieldTarget(lib, mounts[i], request, path))))
  {
    hide Fits, FieldRank, FieldTarget, RankOf, MatchOf, Normalize;
    var ranks := Ranks(lib, mounts, request, path);
    forall j | 0 <= j < |mounts|
      ensures ranks[j].Some? <==> Fits(lib, mounts[j], request, path)
      ensures ranks[j].Some? ==> ranks[j].value == FieldRank(lib, mounts[j])
    {
      CandidateIsFit(lib, mounts[j], request, path);
    }
    CandidateIsFit(lib, mounts[i], request, path);
    assert OnlyTop(ranks, i);
  }

  // Nothing is found exactly when no mount fits.
  lemma NoMatchExactly(lib: Library, mounts: seq<Mount>, request: Request, path: string)
    requires Normalize(request.path) == Ok(path)
    ensures Outcome(lib, mounts, request, Err(NoMatch)) <==> forall m :: m in mounts ==> !Fits(lib, m, request, path)
  {
    hide Fits, RankOf;
    var ranks := Ranks(lib, mounts, request, path);
    forall i | 0 <= i < |mounts| ensures ranks[i].Some? <==> Fits(lib, mounts[i], request, path) {
      CandidateIsFit(lib, mounts[i], request, path);
    }
  }
}
