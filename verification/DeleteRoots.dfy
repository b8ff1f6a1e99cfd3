/**
  Collapsing the paths of a batch delete to its roots, so that nothing is deleted twice: the
  paths are sorted, duplicates dropped, and every path below a retained one is skipped.
 */
module DeleteRoots {
  /** The order of Rust strings, by code point. */
  predicate Before(a: string, b: string) {
    b != "" && (a == "" || a[0] < b[0] || (a[0] == b[0] && Before(a[1..], b[1..])))
  }

  predicate AtMost(a: string, b: string) {
    a == b || Before(a, b)
  }

  lemma {:induction false} BeforeTransitive(a: string, b: string, c: string)
    requires Before(a, b) && Before(b, c)
    ensures Before(a, c)
  {
    if a != "" && a[0] == b[0] == c[0] {
      BeforeTransitive(a[1..], b[1..], c[1..]);
    }
  }

  lemma {:induction false} BeforeTotal(a: string, b: string)
    ensures a == b || Before(a, b) || Before(b, a)
    ensures !(Before(a, b) && Before(b, a)) && !Before(a, a)
  {
    if a != "" && b != "" && a[0] == b[0] {
      BeforeTotal(a[1..], b[1..]);
      assert a == [a[0]] + a[1..] && b == [b[0]] + b[1..];
    }
    if a == "" {
    } else {
      BeforeTotal(a[1..], a[1..]);
    }
  }

  /** A proper prefix sorts first. */
  lemma {:induction false} PrefixSortsFirst(a: string, b: string)
    requires a < b
    ensures Before(a, b)
  {
    if a == "" {
    } else {
      PrefixSortsFirst(a[1..], b[1..]);
    }
  }

  ghost predicate IsSorted(paths: seq<string>) {
    forall i, j :: 0 <= i < j < |paths| ==> AtMost(paths[i], paths[j])
  }

  ghost predicate IsStrictlySorted(paths: seq<string>) {
    forall i, j :: 0 <= i < j < |paths| ==> Before(paths[i], paths[j])
  }

  function Insert(path: string, sorted: seq<string>): (r: seq<string>)
    ensures multiset(r) == multiset([path]) + multiset(sorted)
  {
    if sorted == [] then [path]
    else if AtMost(path, sorted[0]) then
      assert [path] + sorted == [path] + sorted;
      [path] + sorted
    else
      assert sorted == [sorted[0]] + sorted[1..];
      [sorted[0]] + Insert(path, sorted[1..])
  }

  /** `Vec::sort`. */
  function Sort(paths: seq<string>): (r: seq<string>)
    ensures multiset(r) == multiset(paths)
  {
    if paths == [] then []
    else
      assert paths == [paths[0]] + paths[1..];
      Insert(paths[0], Sort(paths[1..]))
  }

  lemma {:induction false} InsertKeepsSorted(path: string, sorted: seq<string>)
    requires IsSorted(sorted)
    ensures IsSorted(Insert(path, sorted))
  {
    if sorted == [] {
    } else {
      var rest := sorted[1..];
      if AtMost(path, sorted[0]) {
        forall j | 0 <= j < |sorted| ensures AtMost(path, sorted[j]) {
          if path != sorted[0] && 0 < j && sorted[0] != sorted[j] {
            BeforeTransitive(path, sorted[0], sorted[j]);
          }
        }
      } else {
        BeforeTotal(path, sorted[0]);
        InsertKeepsSorted(path, rest);
        var r := Insert(path, rest);
        forall j | 0 <= j < |r| ensures AtMost(sorted[0], r[j]) {
          assert r[j] in multiset(r);
          assert r[j] == path || r[j] in rest;
        }
      }
    }
  }

  lemma {:induction false} SortSorts(paths: seq<string>)
    ensures IsSorted(Sort(paths))
  {
    if paths == [] {
    } else {
      SortSorts(paths[1..]);
      InsertKeepsSorted(paths[0], Sort(paths[1..]));
    }
  }

  /** `Vec::dedup`: drops consecutive duplicates. */
  function Dedup(paths: seq<string>): seq<string> {
    if |paths| <= 1 then paths
    else if paths[0] == paths[1] then Dedup(paths[1..])
    else [paths[0]] + Dedup(paths[1..])
  }

  lemma {:induction false} DedupOfSorted(paths: seq<string>)
    requires IsSorted(paths)
    ensures IsStrictlySorted(Dedup(paths))
    ensures forall p :: p in Dedup(paths) <==> p in paths
    ensures paths != [] ==> Dedup(paths) != [] && Dedup(paths)[0] == paths[0]
  {
    if |paths| <= 1 {
    } else {
      var rest := Dedup(paths[1..]);
      DedupOfSorted(paths[1..]);
      if paths[0] != paths[1] {
        forall j | 0 <= j < |rest| ensures Before(paths[0], rest[j]) {
          assert rest[j] in paths[1..];
          if j > 0 {
            BeforeTransitive(paths[0], rest[0], rest[j]);
          }
        }
      }
    }
  }

  // ----- Retaining the roots -----

  predicate IsValid(path: string) {
    path != "" && '\0' !in path
  }

  function TrimSlashes(path: string): (r: string)
    ensures r <= path
    ensures r == "" || r[|r| - 1] != '/'
  {
    if path != "" && path[|path| - 1] == '/' then TrimSlashes(path[..|path| - 1]) else path
  }

  predicate IsBelow(path: string, parent: string) {
    TrimSlashes(parent) + "/" <= path
  }

  predicate IsCovered(path: string, retained: seq<string>) {
    exists i :: 0 <= i < |retained| && IsBelow(path, retained[i])
  }

  /** Something retained sorts before the path and lies above it. */
  ghost predicate IsCoveredEarlier(path: string, retained: seq<string>) {
    exists i :: 0 <= i < |retained| && Before(retained[i], path) && IsBelow(path, retained[i])
  }

  function Retain(retained: seq<string>, paths: seq<string>): seq<string>
    decreases |paths|
  {
    if paths == [] then retained
    else if !IsValid(paths[0]) || IsCovered(paths[0], retained) then Retain(retained, paths[1..])
    else Retain(retained + [paths[0]], paths[1..])
  }

  method CollapseDescendants(paths: seq<string>) returns (retained: seq<string>)
    ensures retained == Retain([], Dedup(Sort(paths)))
  {
    hide Retain, Dedup, Sort, IsBelow, IsValid;
    var ordered := Dedup(Sort(paths));
    retained := [];
    assert ordered[0..] == ordered;
    for i := 0 to |ordered|
      invariant Retain([], ordered) == Retain(retained, ordered[i..])
    {
      RetainStep(retained, ordered, i);
      var path := ordered[i];
      if IsValid(path) {
        var covered := false;
        for k := 0 to |retained|
          invariant covered <==> exists j :: 0 <= j < k && IsBelow(path, retained[j])
        {
          if IsBelow(path, retained[k]) {
            covered := true;
          }
        }
        if !covered {
          retained := retained + [path];
        }
      }
    }
    AllRetained(retained, ordered);
  }

  lemma RetainStep(retained: seq<string>, ordered: seq<string>, i: nat)
    requires i < |ordered|
    ensures Retain(retained, ordered[i..]) ==
            if !IsValid(ordered[i]) || IsCovered(ordered[i], retained) then Retain(retained, ordered[i + 1..])
            else Retain(retained + [ordered[i]], ordered[i + 1..])
  {
    hide IsValid, IsCovered;
    assert ordered[i..][1..] == ordered[i + 1..];
  }

  lemma AllRetained(retained: seq<string>, ordered: seq<string>)
    ensures Retain(retained, ordered[|ordered|..]) == retained
  {
    assert ordered[|ordered|..] == [];
  }

  function Roots(paths: seq<string>): seq<string> {
    Retain([], Dedup(Sort(paths)))
  }

  lemma {:induction false} RetainFacts(retained: seq<string>, paths: seq<string>)
    requires IsStrictlySorted(retained + paths)
    requires forall p :: p in retained ==> IsValid(p)
    ensures var r := Retain(retained, paths);
            && retained <= r && IsStrictlySorted(r)
            && (forall p :: p in r ==> IsValid(p) && (p in retained || p in paths))
            && (forall p :: p in paths && IsValid(p) ==> p in r || IsCoveredEarlier(p, r))
            && (forall i, j :: |retained| <= j < |r| && 0 <= i < j ==> !IsBelow(r[j], r[i]))
    decreases |paths|
  {
    if paths != [] {
      var p := paths[0];
      assert paths == [p] + paths[1..];
      if !IsValid(p) || IsCovered(p, retained) {
        SkipKeepsOrder(retained, paths);
        RetainFacts(retained, paths[1..]);
        var r := Retain(retained, paths[1..]);
        if IsCovered(p, retained) {
          var k :| 0 <= k < |retained| && IsBelow(p, retained[k]);
          assert r[k] == retained[k] && (retained + paths)[k] == retained[k] && (retained + paths)[|retained|] == p;
        }
      } else {
        assert retained + [p] + paths[1..] == retained + paths;
        RetainFacts(retained + [p], paths[1..]);
        var r := Retain(retained + [p], paths[1..]);
        assert r[|retained|] == p && forall k :: 0 <= k < |retained| ==> r[k] == retained[k];
      }
    } else {
      assert retained + paths == retained;
    }
  }

  lemma SkipKeepsOrder(retained: seq<string>, paths: seq<string>)
    requires paths != [] && IsStrictlySorted(retained + paths)
    ensures IsStrictlySorted(retained + paths[1..])
  {
    var all, less := retained + paths, retained + paths[1..];
    forall i, j | 0 <= i < j < |less| ensures Before(less[i], less[j]) {
      var i', j' := if i < |retained| then i else i + 1, if j < |retained| then j else j + 1;
      assert less[i] == all[i'] && less[j] == all[j'];
    }
  }

  /** The batch holds no duplicate, nothing but requested paths, and covers every request. */
  lemma RootsCoverEveryPath(paths: seq<string>)
    ensures var r := Roots(paths);
            && (forall i, j :: 0 <= i < j < |r| ==> r[i] != r[j])
            && (forall p :: p in r ==> IsValid(p) && p in paths)
            && (forall p :: p in paths && IsValid(p) ==> p in r || IsCovered(p, r))
  {
    RootsAreOrdered(paths);
    var r := Roots(paths);
    forall i, j | 0 <= i < j < |r| ensures r[i] != r[j] {
      BeforeTotal(r[i], r[j]);
    }
  }

  lemma RootsAreOrdered(paths: seq<string>)
    ensures var r := Roots(paths);
            && IsStrictlySorted(r)
            && (forall p :: p in r ==> IsValid(p) && p in paths)
            && (forall p :: p in paths && IsValid(p) ==> p in r || IsCoveredEarlier(p, r))
            && (forall i, j :: 0 <= i < j < |r| ==> !IsBelow(r[j], r[i]))
  {
    var ordered := Dedup(Sort(paths));
    SortSorts(paths);
    DedupOfSorted(Sort(paths));
    assert forall p :: p in paths <==> p in multiset(paths);
    assert forall p :: p in Sort(paths) <==> p in multiset(Sort(paths));
    assert [] + ordered == ordered;
    RetainFacts([], ordered);
  }

  // ----- Which paths are roots -----

  lemma {:induction false} OnlySlashesBehind(path: string)
    ensures forall i :: |TrimSlashes(path)| <= i < |path| ==> path[i] == '/'
  {
    if path == "" {
    } else if path[|path| - 1] == '/' {
      OnlySlashesBehind(path[..|path| - 1]);
    }
  }

  lemma BelowTransitive(path: string, middle: string, upper: string)
    requires IsBelow(path, middle) && IsBelow(middle, upper)
    ensures IsBelow(path, upper)
  {
    OnlySlashesBehind(middle);
    var stem, head := TrimSlashes(middle), TrimSlashes(upper);
    hide TrimSlashes;
    assert head != "" ==> head[|head| - 1] == middle[|head| - 1];
    if |head| < |stem| {
      assert head + "/" <= stem;
    } else {
      assert head <= middle && stem <= middle;
    }
  }

  /** A valid request with no valid request above it that sorts before it. */
  ghost predicate IsRoot(path: string, paths: seq<string>) {
    && path in paths && IsValid(path)
    && forall v :: v in paths && IsValid(v) && Before(v, path) ==> !IsBelow(path, v)
  }

  lemma {:induction false} NotBeforeItself(path: string)
    ensures !Before(path, path)
  {
    if path == "" {
    } else {
      NotBeforeItself(path[1..]);
    }
  }

  /** A path that is empty or has a zero character in it is left out; any other one alone is its own root. */
  lemma OnePathIsItsRootIff(path: string)
    ensures path in Roots([path]) <==> path != "" && forall i :: 0 <= i < |path| ==> path[i] != '\0'
  {
    RootsIff([path], path);
    NotBeforeItself(path);
  }

  /** The batch consists of exactly these. */
  lemma RootsIff(paths: seq<string>, path: string)
    ensures path in Roots(paths) <==> IsRoot(path, paths)
  {
    RootsAreOrdered(paths);
    var r := Roots(paths);
    hide Roots, IsValid, IsBelow;
    if path in r {
      forall v | v in paths && IsValid(v) && Before(v, path) ensures !IsBelow(path, v) {
        if IsBelow(path, v) {
          NotCoveredEarlier(r, path, v);
          assert false;
        }
      }
    }
  }

  lemma EarlierIndex(r: seq<string>, path: string, i: nat)
    requires IsStrictlySorted(r) && i < |r| && path in r && Before(r[i], path)
    requires forall k, j :: 0 <= k < j < |r| ==> !IsBelow(r[j], r[k])
    ensures !IsBelow(path, r[i])
  {
    hide IsBelow;
    var j :| 0 <= j < |r| && r[j] == path;
    BeforeTotal(r[i], path);
  }

  lemma NotCoveredEarlier(r: seq<string>, path: string, v: string)
    requires IsStrictlySorted(r) && path in r && Before(v, path) && (v in r || IsCoveredEarlier(v, r))
    requires forall k, j :: 0 <= k < j < |r| ==> !IsBelow(r[j], r[k])
    ensures !IsBelow(path, v)
  {
    hide IsBelow, IsStrictlySorted;
    if v in r {
      var i :| 0 <= i < |r| && r[i] == v;
      EarlierIndex(r, path, i);
    } else {
      var i :| 0 <= i < |r| && Before(r[i], v) && IsBelow(v, r[i]);
      BeforeTransitive(r[i], v, path);
      EarlierIndex(r, path, i);
      if IsBelow(path, v) {
        BelowTransitive(path, v, r[i]);
      }
    }
  }

  /**
    A request sorts before another one that it lies below, and nothing takes either of them away: no
    valid request covers the lower one earlier, and the upper one is not also below it.
   */
  ghost predicate IsNestedPair(upper: string, lower: string, paths: seq<string>) {
    && upper in paths && IsValid(upper) && IsRoot(lower, paths)
    && Before(lower, upper) && IsBelow(lower, upper) && !IsBelow(upper, lower)
  }

  /** Some root lies below another exactly if the request holds such a pair. */
  lemma NestedRootsIff(paths: seq<string>)
    ensures (exists u, l :: u in Roots(paths) && l in Roots(paths) && u != l && IsBelow(l, u)) <==>
            (exists u, l :: IsNestedPair(u, l, paths))
  {
    hide Roots, IsBelow, IsValid;
    if u, l :| u in Roots(paths) && l in Roots(paths) && u != l && IsBelow(l, u) {
      RootsIff(paths, u);
      RootsIff(paths, l);
      BeforeTotal(u, l);
      assert IsNestedPair(u, l, paths);
    } else if u, l :| IsNestedPair(u, l, paths) {
      RootsIff(paths, l);
      RootsIff(paths, u);
      BeforeTotal(u, l);
      if u !in Roots(paths) {
        var w := RootAbove(paths, u);
        BelowTransitive(l, u, w);
        RootsIff(paths, w);
        BeforeTotal(w, l);
      }
      assert false;
    }
  }

  lemma RootAbove(paths: seq<string>, path: string) returns (root: string)
    requires path in paths && IsValid(path) && path !in Roots(paths)
    ensures root in Roots(paths) && IsBelow(path, root)
  {
    hide IsBelow, IsValid, Before;
    RootsAreOrdered(paths);
    var r := Roots(paths);
    var k :| 0 <= k < |r| && Before(r[k], path) && IsBelow(path, r[k]);
    root := r[k];
  }

  /** At most one slash at the end. */
  predicate EndsSimply(path: string) {
    !(|path| >= 2 && path[|path| - 2..] == "//")
  }

  /** An ancestor sorts before what lies below it, unless it ends in a doubled slash. */
  lemma AncestorSortsFirst(parent: string, path: string)
    requires IsBelow(path, parent) && EndsSimply(parent) && path != parent
    ensures Before(parent, path)
  {
    var stem := TrimSlashes(parent);
    assert parent == stem || parent == stem + "/" by {
      if parent != "" && parent[|parent| - 1] == '/' {
        var shorter := parent[..|parent| - 1];
        assert parent == shorter + "/";
        assert |shorter| > 0 ==> parent[|parent| - 2..] == [shorter[|shorter| - 1]] + "/";
        assert TrimSlashes(shorter) == shorter;
      }
    }
    PrefixSortsFirst(parent, path);
  }

  /** Without doubled trailing slashes no retained path lies below another. */
  lemma RootsAreIndependent(paths: seq<string>)
    requires forall p :: p in paths && IsValid(p) ==> EndsSimply(p)
    ensures var r := Roots(paths);
            forall i, j :: 0 <= i < |r| && 0 <= j < |r| && i != j ==> !IsBelow(r[j], r[i])
  {
    RootsAreOrdered(paths);
    var r := Roots(paths);
    forall i, j | 0 <= j < i < |r| ensures !IsBelow(r[j], r[i]) {
      BeforeTotal(r[i], r[j]);
      assert r[i] in r && r[j] in r;
      if IsBelow(r[j], r[i]) {
        AncestorSortsFirst(r[i], r[j]);
        assert false;
      }
    }
  }

  /** So of two valid paths, one below the other, both are kept when the lower one sorts first. */
  lemma TwoPathsBothKeptIff(upper: string, lower: string)
    requires IsValid(upper) && IsValid(lower) && IsBelow(lower, upper) && upper != lower
    ensures (upper in Roots([upper, lower]) && lower in Roots([upper, lower])) <==>
            Before(lower, upper) && !IsBelow(upper, lower)
    ensures Before(lower, upper) ==> !EndsSimply(upper)
  {
    var paths := [upper, lower];
    BeforeTotal(upper, lower);
    if EndsSimply(upper) {
      AncestorSortsFirst(upper, lower);
    }
    hide IsBelow, IsValid, Roots, Before, EndsSimply, IsRoot;
    assert paths[0] == upper && paths[1] == lower;
    RootOfTwo(paths, upper, lower);
    RootOfTwo(paths, lower, upper);
    RootsIff(paths, upper);
    RootsIff(paths, lower);
  }

  lemma RootOfTwo(paths: seq<string>, path: string, other: string)
    requires IsValid(path) && IsValid(other) && forall p :: p in paths <==> p == path || p == other
    ensures IsRoot(path, paths) <==> !(Before(other, path) && IsBelow(path, other))
  {
    BeforeTotal(path, path);
    hide IsBelow, IsValid, Before;
    assert path in paths && other in paths;
  }
}
