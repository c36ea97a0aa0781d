// Laws of mount resolution: what the outcome does not depend on, and what
// specificity and captures mean.
module ResolveLaws {
  import opened Wrappers
  import opened Text
  import opened Mounts
  import opened MountPath
  import opened PathLaws
  import opened MountResolve

  // ---- Order does not matter ----

  function RanksBy<X>(xs: seq<X>, f: X -> Option<Rank>): (r: seq<Option<Rank>>)
    ensures |r| == |xs|
  {
    seq(|xs|, i requires 0 <= i < |xs| => f(xs[i]))
  }

  // The same, said of an element instead of a position.
  ghost predicate BestOf<X>(xs: seq<X>, f: X -> Option<Rank>, x: X) {
    && x in xs && f(x).Some?
    && forall y :: y in xs && f(y).Some? ==> !Below(f(x).value, f(y).value)
  }

  lemma TopIsBest<X>(xs: seq<X>, f: X -> Option<Rank>, i: nat)
    requires i < |xs|
    ensures Top(RanksBy(xs, f), i) <==> BestOf(xs, f, xs[i])
  {
    var ranks := RanksBy(xs, f);
    if Top(ranks, i) {
      forall y | y in xs && f(y).Some? ensures !Below(f(xs[i]).value, f(y).value) {
        var j :| 0 <= j < |xs| && xs[j] == y;
        assert ranks[j] == f(y);
      }
    }
    if BestOf(xs, f, xs[i]) {
      forall j | 0 <= j < |ranks| && ranks[j].Some? ensures !Below(ranks[i].value, ranks[j].value) {
        assert xs[j] in xs;
      }
    }
  }

  lemma TwicePresent<X>(xs: seq<X>, i: nat, j: nat)
    requires i < j < |xs| && xs[i] == xs[j]
    ensures multiset(xs)[xs[i]] >= 2
  {
    assert xs == xs[..j] + [xs[j]] + xs[j + 1..];
    assert xs[..j][i] == xs[i];
  }

  lemma {:induction false} TwoPositions<X>(xs: seq<X>, x: X) returns (i: nat, j: nat)
    requires multiset(xs)[x] >= 2
    ensures i < j < |xs| && xs[i] == xs[j] == x
  {
    var last := |xs| - 1;
    assert xs == xs[..last] + [xs[last]];
    if xs[last] == x {
      assert x in multiset(xs[..last]);
      i :| 0 <= i < last && xs[i] == x;
      j := last;
    } else {
      i, j := TwoPositions(xs[..last], x);
    }
  }

  lemma Permuted<X>(a: seq<X>, b: seq<X>, f: X -> Option<Rank>)
    requires multiset(a) == multiset(b)
    ensures forall x :: x in a <==> x in b
    ensures forall x :: BestOf(a, f, x) <==> BestOf(b, f, x)
  {
    assert forall x :: x in a <==> x in multiset(a);
    assert forall x :: x in b <==> x in multiset(b);
  }

  lemma TwoTopsPermute<X>(a: seq<X>, b: seq<X>, f: X -> Option<Rank>)
    requires multiset(a) == multiset(b) && TwoTops(RanksBy(a, f))
    ensures TwoTops(RanksBy(b, f))
  {
    var ra, rb := RanksBy(a, f), RanksBy(b, f);
    var i: nat, j: nat :| i < j && Top(ra, i) && Top(ra, j);
    TopIsBest(a, f, i);
    TopIsBest(a, f, j);
    Permuted(a, b, f);
    var k: nat, l: nat;
    if a[i] == a[j] {
      TwicePresent(a, i, j);
      k, l := TwoPositions(b, a[i]);
    } else {
      k :| k < |b| && b[k] == a[i];
      l :| l < |b| && b[l] == a[j];
    }
    TopIsBest(b, f, k);
    TopIsBest(b, f, l);
    assert Top(rb, k) && Top(rb, l) && k != l;
  }

  lemma OnlyTopPermutes<X>(a: seq<X>, b: seq<X>, f: X -> Option<Rank>, i: nat) returns (k: nat)
    requires multiset(a) == multiset(b) && OnlyTop(RanksBy(a, f), i)
    ensures k < |b| && OnlyTop(RanksBy(b, f), k) && b[k] == a[i]
  {
    var ra, rb := RanksBy(a, f), RanksBy(b, f);
    TopIsBest(a, f, i);
    Permuted(a, b, f);
    k :| k < |b| && b[k] == a[i];
    TopIsBest(b, f, k);
    forall l: nat | Top(rb, l) ensures l == k {
      if l != k {
        assert TwoTops(rb);
        TwoTopsPermute(b, a, f);
      }
    }
  }

  function Ranker(lib: Library, request: Request, n: string): Mount -> Option<Rank> {
    m => RankOf(lib, m, request, n)
  }

  lemma SelectsPermutes(
    lib: Library, a: seq<Mount>, b: seq<Mount>, request: Request, n: string, r: Result<Match, ResolveError>)
    requires multiset(a) == multiset(b) && Selects(lib, a, request, n, r)
    ensures Selects(lib, b, request, n, r)
  {
    var f := Ranker(lib, request, n);
    var ra, rb := Ranks(lib, a, request, n), Ranks(lib, b, request, n);
    assert ra == RanksBy(a, f) && rb == RanksBy(b, f);
    if r.Ok? {
      var i: nat :| OnlyTop(ra, i) && r.value == MatchOf(lib, a[i], request, n);
      var k := OnlyTopPermutes(a, b, f, i);
      assert OnlyTop(rb, k);
    } else if r == Err(Ambiguous) {
      TwoTopsPermute(a, b, f);
    } else {
      Permuted(a, b, f);
      forall k | 0 <= k < |rb| ensures rb[k].None? {
        assert b[k] in a;
        var i :| 0 <= i < |a| && a[i] == b[k];
        assert ra[i] == rb[k];
      }
    }
  }

  // The outcome is the same for every ordering of the same mounts.
  lemma OrderIrrelevant(lib: Library, a: seq<Mount>, b: seq<Mount>, request: Request, r: Result<Match, ResolveError>)
    requires multiset(a) == multiset(b)
    ensures Outcome(lib, a, request, r) <==> Outcome(lib, b, request, r)
  {
    if Normalize(request.path).Ok? {
      var n := Normalize(request.path).value;
      if Selects(lib, a, request, n, r) {
        SelectsPermutes(lib, a, b, request, n, r);
      }
      if Selects(lib, b, request, n, r) {
        SelectsPermutes(lib, b, a, request, n, r);
      }
    }
  }

  // ---- Dominated mounts do not matter ----

  lemma ShiftedTops(ranks: seq<Option<Rank>>, extra: Option<Rank>, better: nat)
    requires better < |ranks| && ranks[better].Some? && (extra.Some? ==> Below(extra.value, ranks[better].value))
    ensures forall i: nat :: Top(ranks, i) <==> Top([extra] + ranks, i + 1)
    ensures !Top([extra] + ranks, 0)
  {
    var longer := [extra] + ranks;
    assert forall i :: 0 <= i < |ranks| ==> longer[i + 1] == ranks[i];
    forall i: nat ensures Top(ranks, i) <==> Top(longer, i + 1) {
      if Top(ranks, i) {
        forall j | 0 <= j < |longer| && longer[j].Some? ensures !Below(longer[i + 1].value, longer[j].value) {
          assert j > 0 ==> longer[j] == ranks[j - 1];
          assert !Below(ranks[i].value, ranks[better].value);
        }
      }
      if Top(longer, i + 1) {
        forall j | 0 <= j < |ranks| && ranks[j].Some? ensures !Below(ranks[i].value, ranks[j].value) {
          assert longer[j + 1] == ranks[j];
        }
      }
    }
    assert longer[better + 1] == ranks[better];
  }

  // Some matching mount ranks strictly above this one, or it does not match.
  ghost predicate Dominated(lib: Library, mounts: seq<Mount>, extra: Mount, request: Request, n: string) {
    exists better :: 0 <= better < |mounts| && RankOf(lib, mounts[better], request, n).Some?
      && (RankOf(lib, extra, request, n).Some? ==>
            Below(RankOf(lib, extra, request, n).value, RankOf(lib, mounts[better], request, n).value))
  }

  lemma DominatedAtFront(
    lib: Library, mounts: seq<Mount>, extra: Mount, request: Request, n: string, r: Result<Match, ResolveError>)
    requires Dominated(lib, mounts, extra, request, n)
    ensures Selects(lib, [extra] + mounts, request, n, r) <==> Selects(lib, mounts, request, n, r)
  {
    hide RankOf, MatchOf, Below, Top, TwoTops;
    var better: nat :| better < |mounts| && RankOf(lib, mounts[better], request, n).Some?
      && (RankOf(lib, extra, request, n).Some? ==>
            Below(RankOf(lib, extra, request, n).value, RankOf(lib, mounts[better], request, n).value));
    var ranks, longer := Ranks(lib, mounts, request, n), Ranks(lib, [extra] + mounts, request, n);
    assert longer == [RankOf(lib, extra, request, n)] + ranks;
    ShiftedTops(ranks, RankOf(lib, extra, request, n), better);
    assert longer[better + 1].Some? && ranks[better].Some?;
    TwoTopsShift(ranks, longer);
    if r.Ok? { OkShifts(lib, mounts, extra, request, n, r.value); }
  }

  lemma OkShifts(lib: Library, mounts: seq<Mount>, extra: Mount, request: Request, n: string, found: Match)
    requires var ranks, longer := Ranks(lib, mounts, request, n), Ranks(lib, [extra] + mounts, request, n);
             (forall i: nat :: Top(ranks, i) <==> Top(longer, i + 1)) && !Top(longer, 0)
    ensures Selects(lib, [extra] + mounts, request, n, Ok(found)) <==> Selects(lib, mounts, request, n, Ok(found))
  {
    var ranks, longer := Ranks(lib, mounts, request, n), Ranks(lib, [extra] + mounts, request, n);
    if Selects(lib, mounts, request, n, Ok(found)) {
      var i: nat :| OnlyTop(ranks, i) && found == MatchOf(lib, mounts[i], request, n);
      OnlyTopShifts(ranks, longer, i);
      assert ([extra] + mounts)[i + 1] == mounts[i];
    }
    if Selects(lib, [extra] + mounts, request, n, Ok(found)) {
      var i: nat :| OnlyTop(longer, i) && found == MatchOf(lib, ([extra] + mounts)[i], request, n);
      OnlyTopShifts(ranks, longer, i - 1);
      assert ([extra] + mounts)[i] == mounts[i - 1];
    }
  }

  lemma TwoTopsShift(ranks: seq<Option<Rank>>, longer: seq<Option<Rank>>)
    requires (forall i: nat :: Top(ranks, i) <==> Top(longer, i + 1)) && !Top(longer, 0)
    ensures TwoTops(ranks) <==> TwoTops(longer)
  {
    if TwoTops(ranks) {
      var i: nat, j: nat :| i < j && Top(ranks, i) && Top(ranks, j);
      assert Top(longer, i + 1) && Top(longer, j + 1);
    }
    if TwoTops(longer) {
      var i: nat, j: nat :| i < j && Top(longer, i) && Top(longer, j);
      assert Top(ranks, i - 1) && Top(ranks, j - 1);
    }
  }

  lemma OnlyTopShifts(ranks: seq<Option<Rank>>, longer: seq<Option<Rank>>, i: nat)
    requires (forall i: nat :: Top(ranks, i) <==> Top(longer, i + 1)) && !Top(longer, 0)
    ensures OnlyTop(ranks, i) <==> OnlyTop(longer, i + 1)
  {
    if OnlyTop(ranks, i) {
      forall j: nat | Top(longer, j) ensures j == i + 1 { assert Top(ranks, j - 1); }
    }
    if OnlyTop(longer, i + 1) {
      forall j: nat | Top(ranks, j) ensures j == i { assert Top(longer, j + 1); }
    }
  }

  // Adding a dominated mount, at any position, changes nothing.
  lemma DominatedIrrelevant(
    lib: Library, mounts: seq<Mount>, k: nat, extra: Mount, request: Request, r: Result<Match, ResolveError>)
    requires k <= |mounts|
    requires Normalize(request.path).Ok? ==> Dominated(lib, mounts, extra, request, Normalize(request.path).value)
    ensures Outcome(lib, mounts[..k] + [extra] + mounts[k..], request, r) <==> Outcome(lib, mounts, request, r)
  {
    assert mounts == mounts[..k] + mounts[k..];
    OrderIrrelevant(lib, mounts[..k] + [extra] + mounts[k..], [extra] + mounts, request, r);
    if Normalize(request.path).Ok? {
      DominatedAtFront(lib, mounts, extra, request, Normalize(request.path).value, r);
    }
  }

  // ---- Specificity is longest match ----

  // Two patterns that match a path are equally specific only if they are the same.
  lemma SpecificityIdentifiesPattern(p: string, q: string, path: string)
    requires MatchPath(p, path).Some? && MatchPath(q, path).Some?
    ensures MatchPath(p, path).value.1 == MatchPath(q, path).value.1 <==> p == q
  {
    if HasSuffix(p, "*") { assert p == TrimSuffix(p, "*") + "*"; }
    if HasSuffix(q, "*") { assert q == TrimSuffix(q, "*") + "*"; }
  }

  // An exact pattern beats every wildcard; between wildcards the longer prefix wins.
  lemma SpecificityIsLongestPrefix(p: string, q: string, path: string)
    requires MatchPath(p, path).Some? && MatchPath(q, path).Some? && HasSuffix(q, "*")
    ensures MatchPath(p, path).value.1 > MatchPath(q, path).value.1 <==>
              !HasSuffix(p, "*") || TrimSuffix(q, "*") < TrimSuffix(p, "*")
  {
  }

  // ---- Captures and targets ----

  lemma CaptureCompletesPrefix(pattern: string, path: string)
    requires HasSuffix(pattern, "*") && MatchPath(pattern, path).Some?
    ensures TrimSuffix(pattern, "*") + MatchPath(pattern, path).value.0 == path
  {
  }

  ghost predicate WildcardToWildcard(lib: Library, m: Mount, request: Request) {
    && EffectivePattern(lib, m, request).Some?
    && HasSuffix(EffectivePattern(lib, m, request).value.0, "*")
    && HasSuffix(m.target, "*")
  }

  lemma OkIsCandidate(lib: Library, mounts: seq<Mount>, request: Request, found: Match)
    requires Outcome(lib, mounts, request, Ok(found))
    ensures Normalize(request.path) == Ok(found.normalizedPath)
    ensures var c := CandidateFor(lib, found.mapping, request, found.normalizedPath);
            c.Some? && found.target == RewrittenTarget(c.value)
  {
  }

  // Requests that a wildcard mount forwards to a wildcard target keep their
  // identity: different normalised paths get different targets.
  lemma TargetsDistinguishPaths(lib: Library, mounts: seq<Mount>, r1: Request, r2: Request, m1: Match, m2: Match)
    requires Outcome(lib, mounts, r1, Ok(m1)) && Outcome(lib, mounts, r2, Ok(m2))
    requires m1.mapping == m2.mapping
    requires WildcardToWildcard(lib, m1.mapping, r1) && WildcardToWildcard(lib, m2.mapping, r2)
    ensures EffectivePattern(lib, m1.mapping, r1) == EffectivePattern(lib, m2.mapping, r2)
    ensures m1.target == m2.target <==> m1.normalizedPath == m2.normalizedPath
  {
    OkIsCandidate(lib, mounts, r1, m1);
    OkIsCandidate(lib, mounts, r2, m2);
    var pattern := EffectivePattern(lib, m1.mapping, r1).value.0;
    CaptureCompletesPrefix(pattern, m1.normalizedPath);
    CaptureCompletesPrefix(pattern, m2.normalizedPath);
    var base := TrimSuffix(m1.mapping.target, "*");
    assert m1.target[|base|..] == MatchPath(pattern, m1.normalizedPath).value.0;
    assert m2.target[|base|..] == MatchPath(pattern, m2.normalizedPath).value.0;
  }

  // What such a mount appends to its target never climbs out of it, when the
  // pattern ends at a segment boundary.
  lemma CaptureHasNoDots(lib: Library, mounts: seq<Mount>, request: Request, found: Match, prefix: string)
    requires Outcome(lib, mounts, request, Ok(found)) && WildcardToWildcard(lib, found.mapping, request)
    requires EffectivePattern(lib, found.mapping, request).value.0 == prefix + "/*"
    ensures exists capture :: found.normalizedPath == prefix + "/" + capture
              && found.target == TrimSuffix(found.mapping.target, "*") + capture
              && forall p :: p in Split(capture, '/') ==> !IsTraversal(p)
  {
    OkIsCandidate(lib, mounts, request, found);
    var pattern := EffectivePattern(lib, found.mapping, request).value.0;
    CaptureCompletesPrefix(pattern, found.normalizedPath);
    var capture := MatchPath(pattern, found.normalizedPath).value.0;
    assert pattern[..|pattern| - 1] == prefix + "/";
    assert found.normalizedPath == prefix + "/" + capture;
    NormalForm(request.path, found.normalizedPath);
    SplitConcat(prefix, capture, '/');
  }
}
