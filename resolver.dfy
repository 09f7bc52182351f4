/** Turning a token into candidates (`query_action_app`, `query_pipe`):
    select the rows whose name is `LIKE '%token%'`, in table order, then
    `sorted(..., key=distance(token, name))[:5]`. Python's `sorted` is
    stable, which the insertion sort below reproduces. */
module Resolver {
  import opened Like
  import opened Text
  import opened Catalog
  import Levenshtein

  /** How many candidates a query returns at most. */
  const MaxCandidates: nat := 5

  /** The sort key: distance from the typed token to the entry's name. */
  function Dist(command: string, e: Entry): nat
  {
    Levenshtein.Distance(command, e.Name())
  }

  predicate SortedByDistance(command: string, s: seq<Entry>)
  {
    forall i, j :: 0 <= i < j < |s| ==> Dist(command, s[i]) <= Dist(command, s[j])
  }

  /** Insert `e` before the first entry at least as far from the token, so
      it stays ahead of every later entry with the same distance. */
  function Insert(command: string, e: Entry, s: seq<Entry>): (r: seq<Entry>)
    ensures multiset(r) == multiset(s) + multiset{e}
    ensures |r| == |s| + 1 && (r[0] == e || (s != [] && r[0] == s[0]))
  {
    if s == [] || Dist(command, e) <= Dist(command, s[0]) then
      [e] + s
    else
      assert s == [s[0]] + s[1..];
      [s[0]] + Insert(command, e, s[1..])
  }

  /** Every entry of an insertion's result is the inserted one or was
      already there. */
  lemma InsertMember(command: string, e: Entry, s: seq<Entry>, x: Entry)
    requires x in Insert(command, e, s)
    ensures x == e || x in s
  {
    assert x in multiset(Insert(command, e, s));
  }

  lemma {:induction false} InsertKeepsSorted(command: string, e: Entry, s: seq<Entry>)
    requires SortedByDistance(command, s)
    ensures SortedByDistance(command, Insert(command, e, s))
    decreases |s|
  {
    if s != [] && Dist(command, e) > Dist(command, s[0]) {
      var t := Insert(command, e, s[1..]);
      InsertKeepsSorted(command, e, s[1..]);
      assert Dist(command, s[0]) <= Dist(command, t[0]) by {
        if t[0] != e {
          assert t[0] == s[1];
        }
      }
      SortedCons(command, s[0], t);
    }
  }

  /** An entry no further than the head of a sorted sequence can go in
      front of it. */
  lemma SortedCons(command: string, x: Entry, t: seq<Entry>)
    requires SortedByDistance(command, t) && t != [] && Dist(command, x) <= Dist(command, t[0])
    ensures SortedByDistance(command, [x] + t)
  {
    var r := [x] + t;
    forall i, j | 0 <= i < j < |r| ensures Dist(command, r[i]) <= Dist(command, r[j]) {
      assert r[j] == t[j - 1];
      if i > 0 {
        assert r[i] == t[i - 1];
      }
    }
  }

  /** Stable sort by distance. */
  function SortByDistance(command: string, s: seq<Entry>): (r: seq<Entry>)
    ensures multiset(r) == multiset(s)
    ensures SortedByDistance(command, r)
  {
    if s == [] then []
    else
      assert s == [s[0]] + s[1..];
      var t := SortByDistance(command, s[1..]);
      InsertKeepsSorted(command, s[0], t);
      Insert(command, s[0], t)
  }

  /** The entries of `s` at distance `d`, in their order in `s`. */
  function WithDistance(command: string, s: seq<Entry>, d: nat): seq<Entry>
  {
    if s == [] then []
    else (if Dist(command, s[0]) == d then [s[0]] else []) + WithDistance(command, s[1..], d)
  }

  lemma {:induction false} InsertWithDistance(command: string, e: Entry, s: seq<Entry>, d: nat)
    ensures WithDistance(command, Insert(command, e, s), d)
         == (if Dist(command, e) == d then [e] else []) + WithDistance(command, s, d)
    decreases |s|
  {
    var r := Insert(command, e, s);
    if s == [] || Dist(command, e) <= Dist(command, s[0]) {
      WithDistanceCons(command, e, s, d);
    } else {
      var t := Insert(command, e, s[1..]);
      InsertWithDistance(command, e, s[1..], d);
      assert r == [s[0]] + t;
      WithDistanceCons(command, s[0], t, d);
      WithDistanceCons(command, s[0], s[1..], d);
      assert s == [s[0]] + s[1..];
      var rest := WithDistance(command, s[1..], d);
      if Dist(command, e) == d {
        assert WithDistance(command, t, d) == [e] + rest;
        assert [] + WithDistance(command, t, d) == WithDistance(command, t, d);
        assert [] + rest == rest;
      } else {
        assert WithDistance(command, t, d) == [] + rest == rest;
        assert [] + WithDistance(command, s, d) == WithDistance(command, s, d);
      }
    }
  }

  lemma AppendAssoc<U>(x: seq<U>, y: seq<U>, z: seq<U>)
    ensures x + (y + z) == (x + y) + z
  {
  }

  lemma WithDistanceCons(command: string, x: Entry, s: seq<Entry>, d: nat)
    ensures WithDistance(command, [x] + s, d) == (if Dist(command, x) == d then [x] else []) + WithDistance(command, s, d)
  {
    assert ([x] + s)[1..] == s;
  }


  /** Stability: among entries at the same distance the sort keeps the
      order they had before sorting. */
  lemma {:induction false} SortIsStable(command: string, s: seq<Entry>, d: nat)
    ensures WithDistance(command, SortByDistance(command, s), d) == WithDistance(command, s, d)
    decreases |s|
  {
    if s != [] {
      SortIsStable(command, s[1..], d);
      InsertWithDistance(command, s[0], SortByDistance(command, s[1..]), d);
    }
  }

  /** Cutting a sorted sequence after `k` entries keeps it sorted and drops
      no entry that is closer than one kept. */
  lemma TruncateSorted(command: string, sorted: seq<Entry>, k: nat)
    requires SortedByDistance(command, sorted) && k <= |sorted|
    ensures multiset(sorted[..k]) <= multiset(sorted)
    ensures SortedByDistance(command, sorted[..k])
    ensures forall x, y :: x in multiset(sorted) - multiset(sorted[..k]) && y in sorted[..k]
              ==> Dist(command, y) <= Dist(command, x)
  {
    assert sorted == sorted[..k] + sorted[k..];
    assert multiset(sorted) == multiset(sorted[..k]) + multiset(sorted[k..]);
    forall x, y | x in multiset(sorted) - multiset(sorted[..k]) && y in sorted[..k]
      ensures Dist(command, y) <= Dist(command, x)
    {
      DroppedIsFurther(command, sorted, k, x, y);
    }
  }

  lemma DroppedIsFurther(command: string, sorted: seq<Entry>, k: nat, x: Entry, y: Entry)
    requires SortedByDistance(command, sorted) && k <= |sorted|
    requires x in multiset(sorted[k..]) && y in sorted[..k]
    ensures Dist(command, y) <= Dist(command, x)
  {
    assert x in sorted[k..];
    var j :| 0 <= j < |sorted[k..]| && sorted[k..][j] == x;
    var i :| 0 <= i < k && sorted[..k][i] == y;
    assert sorted[k + j] == x && sorted[i] == y;
  }

  /** `sorted(matches, key=...)[:5]`. */
  function Candidates(command: string, matches: seq<Entry>): (r: seq<Entry>)
    ensures |r| == if |matches| <= MaxCandidates then |matches| else MaxCandidates
    ensures multiset(r) <= multiset(matches)
    ensures SortedByDistance(command, r)
    ensures forall x, y :: x in multiset(matches) - multiset(r) && y in r ==> Dist(command, y) <= Dist(command, x)
  {
    var sorted := SortByDistance(command, matches);
    var k := if |sorted| <= MaxCandidates then |sorted| else MaxCandidates;
    TruncateSorted(command, sorted, k);
    sorted[..k]
  }

  /** Selecting the entries at one distance distributes over
      concatenation. */
  lemma {:induction false} WithDistanceAppend(command: string, a: seq<Entry>, b: seq<Entry>, d: nat)
    ensures WithDistance(command, a + b, d) == WithDistance(command, a, d) + WithDistance(command, b, d)
    decreases |a|
  {
    if a != [] {
      assert (a + b)[0] == a[0] && (a + b)[1..] == a[1..] + b;
      WithDistanceAppend(command, a[1..], b, d);
      var head := if Dist(command, a[0]) == d then [a[0]] else [];
      assert WithDistance(command, a + b, d) == head + WithDistance(command, a[1..] + b, d);
      assert WithDistance(command, a, d) == head + WithDistance(command, a[1..], d);
      AppendAssoc(head, WithDistance(command, a[1..], d), WithDistance(command, b, d));
    } else {
      assert a + b == b;
    }
  }

  /** `sorted(...)[:5]` is stable: at every distance, the candidates kept
      are the first ones at that distance in query order, in that order. */
  lemma CandidatesKeepTieOrder(command: string, matches: seq<Entry>, d: nat)
    ensures var w := WithDistance(command, Candidates(command, matches), d);
            |w| <= |WithDistance(command, matches, d)| && w == WithDistance(command, matches, d)[..|w|]
  {
    var sorted := SortByDistance(command, matches);
    var k := if |sorted| <= MaxCandidates then |sorted| else MaxCandidates;
    assert Candidates(command, matches) == sorted[..k];
    PrefixKeepsTies(command, sorted, k, d);
    SortIsStable(command, matches, d);
  }

  /** The rows at one distance in a prefix are a prefix of those in the
      whole sequence. */
  lemma PrefixKeepsTies(command: string, s: seq<Entry>, k: nat, d: nat)
    requires k <= |s|
    ensures var w := WithDistance(command, s[..k], d);
            |w| <= |WithDistance(command, s, d)| && w == WithDistance(command, s, d)[..|w|]
  {
    assert s == s[..k] + s[k..];
    WithDistanceAppend(command, s[..k], s[k..], d);
  }

  /** The rows whose name is `LIKE pattern`, in table order (the `SELECT`
      has no `ORDER BY`). */
  function Matching(entries: seq<Entry>, pattern: string): (r: seq<Entry>)
    ensures forall e :: e in r <==> e in entries && LikeMatch(e.Name(), pattern)
  {
    if entries == [] then []
    else
      (if LikeMatch(entries[0].Name(), pattern) then [entries[0]] else [])
      + Matching(entries[1..], pattern)
  }

  function AppEntries(rows: seq<AppRow>): seq<Entry>
  {
    seq(|rows|, i requires 0 <= i < |rows| => App(rows[i]))
  }

  function ActionEntries(rows: seq<PluginRow>): seq<Entry>
  {
    seq(|rows|, i requires 0 <= i < |rows| => Action(rows[i]))
  }

  function PipeEntries(rows: seq<PluginRow>): seq<Entry>
  {
    seq(|rows|, i requires 0 <= i < |rows| => Pipe(rows[i]))
  }

  /** The rows `query_action_app` collects before sorting: the matching
      applications (only when no argument follows the command), then the
      matching actions. */
  function ActionAppMatches(cat: Catalog, command: string, args: seq<string>): seq<Entry>
  {
    var pattern := ExpandLike(command);
    (if args == [] then Matching(AppEntries(cat.applications), pattern) else [])
    + Matching(ActionEntries(cat.actions), pattern)
  }

  lemma ActionAppMatchesShape(cat: Catalog, command: string, args: seq<string>)
    ensures forall e :: e in ActionAppMatches(cat, command, args) ==>
              LikeMatch(e.Name(), ExpandLike(command))
              && ((e.App? && args == [] && e.app in cat.applications)
                  || (e.Action? && e.action in cat.actions))
  {
    var pattern := ExpandLike(command);
    forall e | e in ActionAppMatches(cat, command, args)
      ensures LikeMatch(e.Name(), pattern)
      ensures (e.App? && args == [] && e.app in cat.applications) || (e.Action? && e.action in cat.actions)
    {
      if args == [] && e in Matching(AppEntries(cat.applications), pattern) {
        var i :| 0 <= i < |cat.applications| && AppEntries(cat.applications)[i] == e;
      } else {
        assert e in Matching(ActionEntries(cat.actions), pattern);
        var i :| 0 <= i < |cat.actions| && ActionEntries(cat.actions)[i] == e;
      }
    }
  }

  lemma PipeMatchesShape(cat: Catalog, command: string)
    ensures forall e :: e in Matching(PipeEntries(cat.pipes), ExpandLike(command)) ==>
              LikeMatch(e.Name(), ExpandLike(command)) && e.Pipe? && e.pipe in cat.pipes
  {
    forall e | e in Matching(PipeEntries(cat.pipes), ExpandLike(command))
      ensures e.Pipe? && e.pipe in cat.pipes
    {
      var i :| 0 <= i < |cat.pipes| && PipeEntries(cat.pipes)[i] == e;
    }
  }

  /** `query_action_app(command, *args)`. */
  function QueryActionApp(cat: Catalog, command: string, args: seq<string>): (r: seq<Entry>)
    ensures |r| <= MaxCandidates
    ensures SortedByDistance(command, r)
    ensures forall e :: e in r ==> LikeMatch(e.Name(), ExpandLike(command))
    ensures forall e :: e in r ==>
              (e.App? && args == [] && e.app in cat.applications)
              || (e.Action? && e.action in cat.actions)
  {
    var matches := ActionAppMatches(cat, command, args);
    var r := Candidates(command, matches);
    ActionAppMatchesShape(cat, command, args);
    assert forall e :: e in r ==> e in multiset(r);
    r
  }

  /** `query_pipe(command)`. */
  function QueryPipe(cat: Catalog, command: string): (r: seq<Entry>)
    ensures |r| <= MaxCandidates
    ensures SortedByDistance(command, r)
    ensures forall e :: e in r ==> LikeMatch(e.Name(), ExpandLike(command))
    ensures forall e :: e in r ==> e.Pipe? && e.pipe in cat.pipes
  {
    var matches := Matching(PipeEntries(cat.pipes), ExpandLike(command));
    var r := Candidates(command, matches);
    PipeMatchesShape(cat, command);
    assert forall e :: e in r ==> e in multiset(r);
    r
  }

  /** Both queries keep ties in table order: at every distance, the
      candidates are the first rows at that distance that the `SELECT`s
      return, applications before actions. */
  lemma QueryKeepsTieOrder(cat: Catalog, command: string, args: seq<string>, d: nat)
    ensures var w := WithDistance(command, QueryActionApp(cat, command, args), d);
            var all := WithDistance(command, ActionAppMatches(cat, command, args), d);
            |w| <= |all| && w == all[..|w|]
    ensures var w := WithDistance(command, QueryPipe(cat, command), d);
            var all := WithDistance(command, Matching(PipeEntries(cat.pipes), ExpandLike(command)), d);
            |w| <= |all| && w == all[..|w|]
  {
    CandidatesKeepTieOrder(command, ActionAppMatches(cat, command, args), d);
    CandidatesKeepTieOrder(command, Matching(PipeEntries(cat.pipes), ExpandLike(command)), d);
  }

  /** For a token without LIKE wildcards, every candidate's name contains
      the token, ignoring ASCII case. */
  lemma CandidatesContainCommand(cat: Catalog, command: string, args: seq<string>)
    requires NoWildcards(command)
    ensures forall e :: e in QueryActionApp(cat, command, args) ==> ContainsIgnoreCase(e.Name(), command)
    ensures forall e :: e in QueryPipe(cat, command) ==> ContainsIgnoreCase(e.Name(), command)
  {
    forall e | e in QueryActionApp(cat, command, args) || e in QueryPipe(cat, command)
      ensures ContainsIgnoreCase(e.Name(), command)
    {
      ExpandLikeIsContains(e.Name(), command);
    }
  }

  /** An entry whose name is exactly the token passes the filter and, as
      the only names at distance 0 equal the token, the first candidate is
      then such an exact match. */
  lemma ExactNameRanksFirst(command: string, matches: seq<Entry>, e: Entry)
    requires e in matches && e.Name() == command
    ensures Candidates(command, matches) != []
    ensures Candidates(command, matches)[0].Name() == command
  {
    var r := Candidates(command, matches);
    Levenshtein.DistanceZeroIff(command, e.Name());
    assert Dist(command, e) == 0;
    assert e in multiset(matches);
    if e in multiset(r) {
      assert e in r;
      var i :| 0 <= i < |r| && r[i] == e;
      assert Dist(command, r[0]) <= Dist(command, r[i]);
    } else {
      assert e in multiset(matches) - multiset(r);
      assert r[0] in r;
    }
    Levenshtein.DistanceZeroIff(command, r[0].Name());
  }

  /** `query_action_app`: a row named exactly as the token (an application
      only when no argument follows) comes back first. */
  lemma QueryActionAppExactFirst(cat: Catalog, command: string, args: seq<string>)
    requires (args == [] && exists a :: a in cat.applications && a.name == command)
             || (exists p :: p in cat.actions && p.name == command)
    ensures QueryActionApp(cat, command, args) != []
    ensures QueryActionApp(cat, command, args)[0].Name() == command
  {
    if args == [] && exists a :: a in cat.applications && a.name == command {
      var a :| a in cat.applications && a.name == command;
      ExactAppFirst(cat, command, a);
    } else {
      var p :| p in cat.actions && p.name == command;
      ExactActionFirst(cat, command, args, p);
    }
  }

  lemma ExactAppFirst(cat: Catalog, command: string, a: AppRow)
    requires a in cat.applications && a.name == command
    ensures QueryActionApp(cat, command, []) != []
    ensures QueryActionApp(cat, command, [])[0].Name() == command
  {
    SelfMatch(command);
    var i :| 0 <= i < |cat.applications| && cat.applications[i] == a;
    assert AppEntries(cat.applications)[i] == App(a);
    var matches := ActionAppMatches(cat, command, []);
    assert App(a) in matches;
    ExactNameRanksFirst(command, matches, App(a));
  }

  lemma ExactActionFirst(cat: Catalog, command: string, args: seq<string>, p: PluginRow)
    requires p in cat.actions && p.name == command
    ensures QueryActionApp(cat, command, args) != []
    ensures QueryActionApp(cat, command, args)[0].Name() == command
  {
    SelfMatch(command);
    var i :| 0 <= i < |cat.actions| && cat.actions[i] == p;
    assert ActionEntries(cat.actions)[i] == Action(p);
    var matches := ActionAppMatches(cat, command, args);
    assert Action(p) in matches;
    ExactNameRanksFirst(command, matches, Action(p));
  }

  /** `query_pipe`: a pipe named exactly as the token comes back first. */
  lemma QueryPipeExactFirst(cat: Catalog, command: string)
    requires exists p :: p in cat.pipes && p.name == command
    ensures QueryPipe(cat, command) != []
    ensures QueryPipe(cat, command)[0].Name() == command
  {
    SelfMatch(command);
    var p :| p in cat.pipes && p.name == command;
    var i :| 0 <= i < |cat.pipes| && cat.pipes[i] == p;
    assert PipeEntries(cat.pipes)[i] == Pipe(p);
    ExactNameRanksFirst(command, Matching(PipeEntries(cat.pipes), ExpandLike(command)), Pipe(p));
  }

  /** A matching row is left out only when five candidates at most as far
      from the token were returned instead. */
  lemma {:induction false} CandidatesComplete(command: string, matches: seq<Entry>, e: Entry)
    requires e in matches
    ensures var r := Candidates(command, matches);
            e in r || (|r| == MaxCandidates && forall y :: y in r ==> Dist(command, y) <= Dist(command, e))
  {
    var r := Candidates(command, matches);
    assert e in multiset(matches);
    if e !in r {
      assert e !in multiset(r);
      assert e in multiset(matches) - multiset(r);
      if |matches| <= MaxCandidates {
        MultisetSubEq(r, matches);
      }
    }
  }

  lemma MultisetSubEq(r: seq<Entry>, s: seq<Entry>)
    requires multiset(r) <= multiset(s) && |r| == |s|
    ensures multiset(r) == multiset(s)
  {
    var d := multiset(s) - multiset(r);
    assert multiset(s) == multiset(r) + d;
    assert |multiset(s)| == |multiset(r)| + |d|;
  }

  /** Every action row (and, without arguments, every application row) that
      passes the filter is a candidate unless five at most as far were
      returned; likewise for pipe rows and `query_pipe`. */
  lemma QueryComplete(cat: Catalog, command: string, args: seq<string>)
    ensures var r := QueryActionApp(cat, command, args);
            forall p :: p in cat.actions && LikeMatch(p.name, ExpandLike(command)) ==>
              Action(p) in r || (|r| == MaxCandidates && forall y :: y in r ==> Dist(command, y) <= Dist(command, Action(p)))
    ensures var r := QueryActionApp(cat, command, args);
            forall a :: args == [] && a in cat.applications && LikeMatch(a.name, ExpandLike(command)) ==>
              App(a) in r || (|r| == MaxCandidates && forall y :: y in r ==> Dist(command, y) <= Dist(command, App(a)))
    ensures var r := QueryPipe(cat, command);
            forall p :: p in cat.pipes && LikeMatch(p.name, ExpandLike(command)) ==>
              Pipe(p) in r || (|r| == MaxCandidates && forall y :: y in r ==> Dist(command, y) <= Dist(command, Pipe(p)))
  {
    var matches := ActionAppMatches(cat, command, args);
    forall p | p in cat.actions && LikeMatch(p.name, ExpandLike(command))
      ensures var r := QueryActionApp(cat, command, args);
              Action(p) in r || (|r| == MaxCandidates && forall y :: y in r ==> Dist(command, y) <= Dist(command, Action(p)))
    {
      var i :| 0 <= i < |cat.actions| && cat.actions[i] == p;
      assert ActionEntries(cat.actions)[i] == Action(p);
      CandidatesComplete(command, matches, Action(p));
    }
    forall a | args == [] && a in cat.applications && LikeMatch(a.name, ExpandLike(command))
      ensures var r := QueryActionApp(cat, command, args);
              App(a) in r || (|r| == MaxCandidates && forall y :: y in r ==> Dist(command, y) <= Dist(command, App(a)))
    {
      var i :| 0 <= i < |cat.applications| && cat.applications[i] == a;
      assert AppEntries(cat.applications)[i] == App(a);
      CandidatesComplete(command, matches, App(a));
    }
    forall p | p in cat.pipes && LikeMatch(p.name, ExpandLike(command))
      ensures var r := QueryPipe(cat, command);
              Pipe(p) in r || (|r| == MaxCandidates && forall y :: y in r ==> Dist(command, y) <= Dist(command, Pipe(p)))
    {
      var i :| 0 <= i < |cat.pipes| && cat.pipes[i] == p;
      assert PipeEntries(cat.pipes)[i] == Pipe(p);
      CandidatesComplete(command, Matching(PipeEntries(cat.pipes), ExpandLike(command)), Pipe(p));
    }
  }

  /** No action comes before an application in `s`. */
  predicate AppsFirst(s: seq<Entry>)
  {
    forall i, j :: 0 <= i < j < |s| && s[j].App? ==> s[i].App?
  }

  /** Among entries at the same distance, no action comes before an
      application. */
  predicate TiesKeepAppsFirst(command: string, s: seq<Entry>)
  {
    forall i, j :: 0 <= i < j < |s| && Dist(command, s[i]) == Dist(command, s[j]) && s[j].App? ==> s[i].App?
  }

  lemma {:induction false} InsertAppKeepsTies(command: string, e: Entry, t: seq<Entry>)
    requires e.App? && TiesKeepAppsFirst(command, t)
    ensures TiesKeepAppsFirst(command, Insert(command, e, t))
    decreases |t|
  {
    if t != [] && Dist(command, e) > Dist(command, t[0]) {
      var u := Insert(command, e, t[1..]);
      InsertAppKeepsTies(command, e, t[1..]);
      assert t == [t[0]] + t[1..];
      forall j | 0 <= j < |u| && Dist(command, t[0]) == Dist(command, u[j]) && u[j].App?
        ensures t[0].App?
      {
        assert u[j] in u;
        InsertMember(command, e, t[1..], u[j]);
        var k :| 0 <= k < |t[1..]| && t[1..][k] == u[j];
        assert t[k + 1] == u[j];
      }
    }
  }

  lemma {:induction false} SortKeepsAppsFirst(command: string, s: seq<Entry>)
    requires AppsFirst(s)
    ensures TiesKeepAppsFirst(command, SortByDistance(command, s))
    decreases |s|
  {
    if s != [] {
      var r := SortByDistance(command, s);
      if s[0].App? {
        SortKeepsAppsFirst(command, s[1..]);
        InsertAppKeepsTies(command, s[0], SortByDistance(command, s[1..]));
      } else {
        forall j | 0 <= j < |r| ensures !r[j].App? {
          assert r[j] in multiset(s);
        }
      }
    }
  }

  lemma AppsFirstConcat(apps: seq<Entry>, others: seq<Entry>)
    requires forall e :: e in apps ==> e.App?
    requires forall e :: e in others ==> !e.App?
    ensures AppsFirst(apps + others)
  {
    var s := apps + others;
    forall i, j | 0 <= i < j < |s| && s[j].App? ensures s[i].App? {
      assert s[i] == apps[i];
    }
  }

  lemma TiesPrefix(command: string, s: seq<Entry>, k: nat)
    requires TiesKeepAppsFirst(command, s) && k <= |s|
    ensures TiesKeepAppsFirst(command, s[..k])
  {
  }

  lemma MatchingKinds(cat: Catalog, pattern: string)
    ensures forall e :: e in Matching(AppEntries(cat.applications), pattern) ==> e.App?
    ensures forall e :: e in Matching(ActionEntries(cat.actions), pattern) ==> e.Action?
  {
    forall e | e in Matching(AppEntries(cat.applications), pattern) ensures e.App? {
      var i :| 0 <= i < |cat.applications| && AppEntries(cat.applications)[i] == e;
    }
    forall e | e in Matching(ActionEntries(cat.actions), pattern) ensures e.Action? {
      var i :| 0 <= i < |cat.actions| && ActionEntries(cat.actions)[i] == e;
    }
  }

  /** Python's `sorted` is stable, so on equal distance the candidates keep
      query order: the application rows, queried first, stay ahead of the
      action rows. */
  lemma QueryTiesKeepAppsFirst(cat: Catalog, command: string, args: seq<string>)
    ensures TiesKeepAppsFirst(command, QueryActionApp(cat, command, args))
  {
    var pattern := ExpandLike(command);
    var apps := if args == [] then Matching(AppEntries(cat.applications), pattern) else [];
    var actions := Matching(ActionEntries(cat.actions), pattern);
    MatchingKinds(cat, pattern);
    AppsFirstConcat(apps, actions);
    var matches := apps + actions;
    SortKeepsAppsFirst(command, matches);
    var sorted := SortByDistance(command, matches);
    var k := if |sorted| <= MaxCandidates then |sorted| else MaxCandidates;
    TiesPrefix(command, sorted, k);
    assert QueryActionApp(cat, command, args) == sorted[..k];
  }
}
