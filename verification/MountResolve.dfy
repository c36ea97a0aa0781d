// Selection of the one mount that serves a request.
module MountResolve {
  import opened Wrappers
  import opened Text
  import opened Mounts
  import opened MountPath

  datatype Request = Request(path: string, scheme: string, authority: string, server: string, protocol: string)

  datatype Match = Match(mapping: Mount, normalizedPath: string, target: string)

  datatype ResolveError = UnsafePath(reason: PathError) | NoMatch | Ambiguous

  datatype SourceURL = SourceURL(scheme: string, host: string, escapedPath: string)

  // Library functions the resolver calls: parseSourceURL over url.Parse, and
  // strings.EqualFold. Everything below holds whatever they return.
  datatype Library = Library(parseSource: string -> Option<SourceURL>, equalFold: (string, string) -> bool)

  datatype Candidate = Candidate(mapping: Mount, capture: string, specificity: int, scope: int, authority: int)

  function MatchScope(lib: Library, mapping: Mount, request: Request): Option<int> {
    var onServer := mapping.server != "" && mapping.server != "*";
    var onProtocol := mapping.protocol != "" && mapping.protocol != "*";
    if onServer && mapping.server != request.server then None
    else if onProtocol && !lib.equalFold(mapping.protocol, request.protocol) then None
    else Some((if onServer then 1 else 0) + (if onProtocol then 1 else 0))
  }

  // The pattern a mount applies to this request, and whether it names an authority.
  function EffectivePattern(lib: Library, mapping: Mount, request: Request): Option<(string, int)> {
    if mapping.source == "" then Some((mapping.path, 0))
    else
      match lib.parseSource(mapping.source)
      case None => None
      case Some(parsed) =>
        if !lib.equalFold(parsed.scheme, request.scheme) || !lib.equalFold(parsed.host, request.authority) then None
        else Some((if parsed.escapedPath == "" then "/" else parsed.escapedPath, 1))
  }

  // The captured text and the specificity.
  function MatchPath(pattern: string, requestPath: string): Option<(string, int)> {
    if !HasSuffix(pattern, "*") then
      if pattern == requestPath then Some(("", |pattern| + 1)) else None
    else
      var prefix := TrimSuffix(pattern, "*");
      if prefix <= requestPath then Some((TrimPrefix(requestPath, prefix), |prefix|)) else None
  }

  function CandidateFor(lib: Library, mapping: Mount, request: Request, normalized: string): (r: Option<Candidate>)
    ensures r.Some? ==> r.value.mapping == mapping
  {
    match MatchScope(lib, mapping, request)
    case None => None
    case Some(scope) =>
      match EffectivePattern(lib, mapping, request)
      case None => None
      case Some(pattern) =>
        match MatchPath(pattern.0, normalized)
        case None => None
        case Some(matched) => Some(Candidate(mapping, matched.0, matched.1, scope, pattern.1))
  }

  function RewrittenTarget(c: Candidate): string {
    if HasSuffix(c.mapping.target, "*") then TrimSuffix(c.mapping.target, "*") + c.capture else c.mapping.target
  }

  // ---- The declarative form ----

  datatype Rank = Rank(specificity: int, priority: int, authority: int, scope: int)

  // Lexicographic order: specificity first, then priority, authority and scope.
  predicate Below(a: Rank, b: Rank) {
    || a.specificity < b.specificity
    || (a.specificity == b.specificity
        && (|| a.priority < b.priority
            || (a.priority == b.priority
                && (a.authority < b.authority || (a.authority == b.authority && a.scope < b.scope)))))
  }

  function CandidateRank(c: Candidate): Rank { Rank(c.specificity, c.mapping.priority, c.authority, c.scope) }

  function RankOf(lib: Library, m: Mount, request: Request, normalized: string): Option<Rank> {
    match CandidateFor(lib, m, request, normalized)
    case None => None
    case Some(c) => Some(CandidateRank(c))
  }

  function Ranks(lib: Library, mounts: seq<Mount>, request: Request, normalized: string): (r: seq<Option<Rank>>)
    ensures |r| == |mounts|
  {
    seq(|mounts|, i requires 0 <= i < |mounts| => RankOf(lib, mounts[i], request, normalized))
  }

  // Position i matches and no matching position ranks above it.
  ghost predicate Top(ranks: seq<Option<Rank>>, i: nat) {
    i < |ranks| && ranks[i].Some?
    && forall j :: 0 <= j < |ranks| && ranks[j].Some? ==> !Below(ranks[i].value, ranks[j].value)
  }

  ghost predicate OnlyTop(ranks: seq<Option<Rank>>, i: nat) {
    Top(ranks, i) && forall j: nat :: Top(ranks, j) ==> j == i
  }

  ghost predicate TwoTops(ranks: seq<Option<Rank>>) {
    exists i: nat, j: nat :: i < j && Top(ranks, i) && Top(ranks, j)
  }

  // What resolving a normalised path must return, as a property of the mounts.
  ghost predicate Selects(
    lib: Library, mounts: seq<Mount>, request: Request, n: string, r: Result<Match, ResolveError>)
  {
    var ranks := Ranks(lib, mounts, request, n);
    match r
    case Err(UnsafePath(_)) => false
    case Err(NoMatch) => forall i :: 0 <= i < |ranks| ==> ranks[i].None?
    case Err(Ambiguous) => TwoTops(ranks)
    case Ok(found) => exists i: nat :: OnlyTop(ranks, i) && found == MatchOf(lib, mounts[i], request, n)
  }

  ghost predicate Outcome(lib: Library, mounts: seq<Mount>, request: Request, r: Result<Match, ResolveError>) {
    match Normalize(request.path)
    case Err(reason) => r == Err(UnsafePath(reason))
    case Ok(n) => Selects(lib, mounts, request, n, r)
  }

  function MatchOf(lib: Library, m: Mount, request: Request, n: string): Match
    requires RankOf(lib, m, request, n).Some?
  {
    Match(m, n, RewrittenTarget(CandidateFor(lib, m, request, n).value))
  }

  lemma SelectsUnique(
    lib: Library, mounts: seq<Mount>, request: Request, n: string,
    r: Result<Match, ResolveError>, q: Result<Match, ResolveError>)
    requires Selects(lib, mounts, request, n, r) && Selects(lib, mounts, request, n, q)
    ensures r == q
  {
    NotBoth(Ranks(lib, mounts, request, n));
  }

  // The property determines the result.
  lemma OutcomeUnique(
    lib: Library, mounts: seq<Mount>, request: Request, r: Result<Match, ResolveError>, q: Result<Match, ResolveError>)
    requires Outcome(lib, mounts, request, r) && Outcome(lib, mounts, request, q)
    ensures r == q
  {
    if Normalize(request.path).Ok? {
      SelectsUnique(lib, mounts, request, Normalize(request.path).value, r, q);
    }
  }

  lemma NotBoth(ranks: seq<Option<Rank>>)
    ensures !(TwoTops(ranks) && exists i: nat :: OnlyTop(ranks, i))
  {
  }

  // ---- The single pass ----

  // What the pass knows after the given positions.
  ghost predicate Scanned(ranks: seq<Option<Rank>>, winner: Option<Rank>, w: nat, ambiguous: bool) {
    if winner.None? then !ambiguous && forall j :: 0 <= j < |ranks| ==> ranks[j].None?
    else
      && w < |ranks| && winner == ranks[w]
      && (forall j :: 0 <= j < |ranks| && ranks[j].Some? ==> !Below(winner.value, ranks[j].value))
      && (ambiguous <==> exists j :: 0 <= j < |ranks| && j != w && ranks[j] == winner)
  }

  lemma ScanSkips(ranks: seq<Option<Rank>>, winner: Option<Rank>, w: nat, ambiguous: bool, next: Option<Rank>)
    requires Scanned(ranks, winner, w, ambiguous)
    requires next.None? || (winner.Some? && Below(next.value, winner.value))
    ensures Scanned(ranks + [next], winner, w, ambiguous)
  {
    if winner.Some? && ambiguous {
      var j :| 0 <= j < |ranks| && j != w && ranks[j] == winner;
      assert (ranks + [next])[j] == winner;
    }
  }

  lemma ScanReplaces(ranks: seq<Option<Rank>>, winner: Option<Rank>, w: nat, ambiguous: bool, next: Rank)
    requires Scanned(ranks, winner, w, ambiguous)
    requires winner.None? || Below(winner.value, next)
    ensures Scanned(ranks + [Some(next)], Some(next), |ranks|, false)
  {
  }

  lemma ScanTies(ranks: seq<Option<Rank>>, winner: Option<Rank>, w: nat, ambiguous: bool)
    requires Scanned(ranks, winner, w, ambiguous) && winner.Some?
    ensures Scanned(ranks + [winner], winner, w, true)
  {
    assert (ranks + [winner])[|ranks|] == winner;
  }

  lemma ScanDecides(ranks: seq<Option<Rank>>, winner: Option<Rank>, w: nat, ambiguous: bool)
    requires Scanned(ranks, winner, w, ambiguous) && winner.Some?
    ensures if ambiguous then TwoTops(ranks) else OnlyTop(ranks, w)
  {
    assert Top(ranks, w);
    if ambiguous {
      var j :| 0 <= j < |ranks| && j != w && ranks[j] == winner;
      assert Top(ranks, j);
    }
  }

  // The replacement test of the loop, written as the code writes it.
  predicate Outranks(c: Candidate, winner: Candidate)
    ensures Outranks(c, winner) <==> Below(CandidateRank(winner), CandidateRank(c))
  {
    || c.specificity > winner.specificity
    || (c.specificity == winner.specificity && c.mapping.priority > winner.mapping.priority)
    || (c.specificity == winner.specificity && c.mapping.priority == winner.mapping.priority
        && c.authority > winner.authority)
    || (c.specificity == winner.specificity && c.mapping.priority == winner.mapping.priority
        && c.authority == winner.authority && c.scope > winner.scope)
  }

  predicate Ties(c: Candidate, winner: Candidate)
    ensures Ties(c, winner) <==> CandidateRank(winner) == CandidateRank(c)
  {
    && c.specificity == winner.specificity && c.mapping.priority == winner.mapping.priority
    && c.authority == winner.authority && c.scope == winner.scope
  }

  method Select(lib: Library, mounts: seq<Mount>, request: Request, normalized: string)
    returns (winner: Option<Candidate>, ambiguous: bool, ghost w: nat)
    ensures winner.Some? ==> w < |mounts| && winner == CandidateFor(lib, mounts[w], request, normalized)
    ensures Scanned(Ranks(lib, mounts, request, normalized), if winner.None? then None
        else Some(CandidateRank(winner.value)), w, ambiguous)
  {
    winner, ambiguous, w := None, false, 0;
    ghost var ranks := Ranks(lib, mounts, request, normalized);
    ghost var top: Option<Rank> := None;
    for i := 0 to |mounts|
      invariant winner.Some? ==> w < i && winner == CandidateFor(lib, mounts[w], request, normalized)
      invariant top == if winner.None? then None else Some(CandidateRank(winner.value))
      invariant Scanned(ranks[..i], top, w, ambiguous)
    {
      var current := CandidateFor(lib, mounts[i], request, normalized);
      assert ranks[..i + 1] == ranks[..i] + [RankOf(lib, mounts[i], request, normalized)];
      if current.None? {
        ScanSkips(ranks[..i], top, w, ambiguous, None);
        continue;
      }
      var c := current.value;
      if winner.None? || Outranks(c, winner.value) {
        ScanReplaces(ranks[..i], top, w, ambiguous, CandidateRank(c));
        winner, ambiguous, w, top := current, false, i, Some(CandidateRank(c));
        continue;
      }
      if Ties(c, winner.value) {
        ScanTies(ranks[..i], top, w, ambiguous);
        ambiguous := true;
      } else {
        ScanSkips(ranks[..i], top, w, ambiguous, Some(CandidateRank(c)));
      }
    }
    assert ranks[..|mounts|] == ranks;
  }

  method ResolveFor(lib: Library, mounts: seq<Mount>, request: Request) returns (r: Result<Match, ResolveError>)
    ensures Outcome(lib, mounts, request, r)
  {
    var path := NormalizePath(request.path);
    if path.Err? {
      return Err(UnsafePath(path.error));
    }
    var winner, ambiguous, w := Select(lib, mounts, request, path.value);
    if winner.None? {
      return Err(NoMatch);
    }
    ScanDecides(Ranks(lib, mounts, request, path.value), Some(CandidateRank(winner.value)), w, ambiguous);
    if ambiguous {
      return Err(Ambiguous);
    }
    return Ok(Match(winner.value.mapping, path.value, RewrittenTarget(winner.value)));
  }
}
