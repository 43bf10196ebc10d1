/** Ranked, cursor-resumed pages of matches (`src/api.rs`), and the pooled pages of
    a search across contexts (`src/api/recall.rs`). */
module Paging {
  import opened Common
  import opened Floats
  import opened Orders

  type Text = seq<byte>

  const DEFAULT_MATCH_LIMIT: nat := 100
  const MAX_MATCH_LIMIT: nat := 1000

  function Clamp(value: Option<nat>, default: nat, ceiling: nat): nat {
    Min(if value.Some? then value.value else default, ceiling)
  }

  /** What a page ranks by: the smaller place first, ties broken by the name that
      identifies the match. Also a cursor: the rank of the last match received. */
  datatype Rank = Rank(place: int, name: seq<Text>)

  datatype Match = Match(rank: Rank, body: nat)

  /** A weight is a 64-bit float; its magnitude clears the sign bit, and magnitudes
      rank largest first in the total order of floats, that of their bits. */
  datatype Association = Association(weight: u64, subject: Text, relation: Text, obj: Text)

  function WeightPlace(weight: u64): int {
    -(weight % 0x8000_0000_0000_0000)
  }

  /** The magnitude of a finite weight, in units of the smallest one. */
  function Magnitude(weight: u64): nat {
    var bits := weight % 0x8000_0000_0000_0000;
    Scaled(bits / 0x10_0000_0000_0000, bits % 0x10_0000_0000_0000)
  }

  lemma {:induction false} MagnitudeGrows(a: u64, b: u64)
    requires a % 0x8000_0000_0000_0000 < b % 0x8000_0000_0000_0000
    ensures Magnitude(a) < Magnitude(b)
  {
    var x, y := a % 0x8000_0000_0000_0000, b % 0x8000_0000_0000_0000;
    ScaledGrows(x / 0x10_0000_0000_0000, x % 0x10_0000_0000_0000, y / 0x10_0000_0000_0000, y % 0x10_0000_0000_0000);
  }

  lemma {:induction false} ScaledGrows(e: nat, f: nat, d: nat, g: nat)
    requires f < 0x10_0000_0000_0000 && g < 0x10_0000_0000_0000
    requires e < d || (e == d && f < g)
    ensures Scaled(e, f) < Scaled(d, g)
  {
    hide Pow2;
    if e == d {
      if e > 0 { Larger(0x10_0000_0000_0000 + f, 0x10_0000_0000_0000 + g, Pow2(e - 1)); }
    } else if e == 0 {
      AtLeast(0x10_0000_0000_0000 + g, Pow2(d - 1));
    } else {
      PowMonotone(e, d - 1);
      PowNext(e - 1);
      Larger(0x10_0000_0000_0000 + f, 0x20_0000_0000_0000, Pow2(e - 1));
      Doubled(Pow2(e - 1), Pow2(e), Pow2(d - 1), 0x10_0000_0000_0000 + g);
    }
  }

  /** The weight's two fields as a magnitude. */
  function Scaled(exponent: nat, fraction: nat): nat {
    if exponent == 0 then fraction else (0x10_0000_0000_0000 + fraction) * Pow2(exponent - 1)
  }

  lemma Larger(a: nat, b: nat, p: nat)
    requires a < b && p > 0
    ensures a * p < b * p
  {
  }

  lemma AtLeast(a: nat, p: nat)
    requires p > 0
    ensures a <= a * p
  {
  }

  lemma PowNext(n: nat)
    ensures Pow2(n + 1) == 2 * Pow2(n)
  {
  }

  lemma Doubled(low: nat, next: nat, high: nat, m: nat)
    requires next == 2 * low && next <= high && m >= 0x10_0000_0000_0000
    ensures 0x20_0000_0000_0000 * low <= m * high
  {
    assert 0x20_0000_0000_0000 * low == 0x10_0000_0000_0000 * next;
    assert 0x10_0000_0000_0000 * next <= 0x10_0000_0000_0000 * high;
    assert 0x10_0000_0000_0000 * high <= m * high;
  }

  /** Ranking by place ranks the stronger weight first, whatever its sign. */
  lemma {:induction false} StrongerFirst(a: u64, b: u64)
    ensures WeightPlace(a) < WeightPlace(b) <==> Magnitude(a) > Magnitude(b)
  {
    var x, y := a % 0x8000_0000_0000_0000, b % 0x8000_0000_0000_0000;
    if x < y { MagnitudeGrows(a, b); }
    if y < x { MagnitudeGrows(b, a); }
  }

  function MatchRank(a: Association): Rank {
    Rank(WeightPlace(a.weight), [a.subject, a.relation, a.obj])
  }

  function CrossRank(context: Text, a: Association): Rank {
    Rank(WeightPlace(a.weight), [context, a.subject, a.relation, a.obj])
  }

  function ExploreRank(distance: nat, a: Association): Rank {
    Rank(distance, [a.subject, a.relation, a.obj])
  }

  predicate NamesLess(a: seq<Text>, b: seq<Text>) {
    if b == [] then false
    else if a == [] then true
    else if a[0] != b[0] then BytesLess(a[0], b[0])
    else NamesLess(a[1..], b[1..])
  }

  predicate RankLess(a: Rank, b: Rank) {
    a.place < b.place || (a.place == b.place && NamesLess(a.name, b.name))
  }

  predicate Before(a: Match, b: Match) {
    RankLess(a.rank, b.rank)
  }

  lemma {:induction false} NamesIrreflexive(a: seq<Text>)
    ensures !NamesLess(a, a)
  {
    if a != [] { NamesIrreflexive(a[1..]); }
  }

  lemma {:induction false} NamesTrichotomy(a: seq<Text>, b: seq<Text>)
    ensures NamesLess(a, b) || a == b || NamesLess(b, a)
  {
    if a != [] && b != [] {
      BytesTrichotomy(a[0], b[0]);
      if a[0] == b[0] {
        NamesTrichotomy(a[1..], b[1..]);
        assert a == [a[0]] + a[1..] && b == [b[0]] + b[1..];
      }
    }
  }

  lemma {:induction false} NamesTransitive(a: seq<Text>, b: seq<Text>, c: seq<Text>)
    requires NamesLess(a, b) && NamesLess(b, c)
    ensures NamesLess(a, c)
  {
    hide BytesLess;
    if a != [] {
      BytesTrichotomy(a[0], b[0]);
      BytesTrichotomy(b[0], c[0]);
      if a[0] == b[0] && b[0] == c[0] {
        NamesTransitive(a[1..], b[1..], c[1..]);
      } else if a[0] != b[0] && b[0] != c[0] {
        BytesTransitive(a[0], b[0], c[0]);
        BytesIrreflexive(a[0]);
      }
    }
  }

  lemma RankTransitive(a: Rank, b: Rank, c: Rank)
    requires RankLess(a, b) && RankLess(b, c)
    ensures RankLess(a, c)
  {
    hide NamesLess;
    if a.place == b.place == c.place { NamesTransitive(a.name, b.name, c.name); }
  }

  ghost predicate DistinctNames(s: seq<Match>) {
    forall i, j | 0 <= i < j < |s| :: s[i].rank.name != s[j].rank.name
  }

  /** Matches with distinct names are totally ordered by rank. */
  lemma {:induction false} DistinctTotal(s: seq<Match>)
    requires DistinctNames(s)
    ensures TotalOn(Before, Elements(s)) && NoDuplicates(s)
  {
    hide NamesLess;
    forall x | x in Elements(s) ensures !Before(x, x) { NamesIrreflexive(x.rank.name); }
    forall x, y | x in Elements(s) && y in Elements(s) && x != y ensures Before(x, y) || Before(y, x) {
      NamesTrichotomy(x.rank.name, y.rank.name);
    }
    forall x, y, z | x in Elements(s) && y in Elements(s) && z in Elements(s) && Before(x, y) && Before(y, z) ensures Before(x, z) {
      RankTransitive(x.rank, y.rank, z.rank);
    }
  }

  function Triple(a: Association): (Text, Text, Text) {
    (a.subject, a.relation, a.obj)
  }

  /** The matches of one context, of several, and of an exploration by distance. */
  function ContextMatches(found: seq<Association>): seq<Match> {
    seq(|found|, i requires 0 <= i < |found| => Match(MatchRank(found[i]), i))
  }

  function CrossMatches(found: seq<(Text, Association)>): seq<Match> {
    seq(|found|, i requires 0 <= i < |found| => Match(CrossRank(found[i].0, found[i].1), i))
  }

  function ExploreMatches(found: seq<(nat, Association)>): seq<Match> {
    seq(|found|, i requires 0 <= i < |found| => Match(ExploreRank(found[i].0, found[i].1), i))
  }

  /** Within a context an edge is identified by its triple, and across contexts by its
      context and triple: so the matches are distinct by name, and ranked totally. */
  lemma {:induction false} TriplesDistinct(found: seq<Association>)
    requires forall i, j | 0 <= i < j < |found| :: Triple(found[i]) != Triple(found[j])
    ensures DistinctNames(ContextMatches(found))
  {
    var s := ContextMatches(found);
    forall i, j | 0 <= i < j < |s| ensures s[i].rank.name != s[j].rank.name {
      SameTriple(found[i], found[j]);
    }
  }

  lemma {:induction false} CrossTriplesDistinct(found: seq<(Text, Association)>)
    requires forall i, j | 0 <= i < j < |found| :: found[i].0 != found[j].0 || Triple(found[i].1) != Triple(found[j].1)
    ensures DistinctNames(CrossMatches(found))
  {
    var s := CrossMatches(found);
    forall i, j | 0 <= i < j < |s| ensures s[i].rank.name != s[j].rank.name {
      assert s[i].rank.name[0] == found[i].0 && s[j].rank.name[0] == found[j].0;
      assert s[i].rank.name[1..] == MatchRank(found[i].1).name && s[j].rank.name[1..] == MatchRank(found[j].1).name;
      SameTriple(found[i].1, found[j].1);
    }
  }

  lemma {:induction false} ExploredTriplesDistinct(found: seq<(nat, Association)>)
    requires forall i, j | 0 <= i < j < |found| :: Triple(found[i].1) != Triple(found[j].1)
    ensures DistinctNames(ExploreMatches(found))
  {
    var s := ExploreMatches(found);
    forall i, j | 0 <= i < j < |s| ensures s[i].rank.name != s[j].rank.name {
      SameTriple(found[i].1, found[j].1);
    }
  }

  lemma SameTriple(a: Association, b: Association)
    ensures MatchRank(a).name == MatchRank(b).name <==> Triple(a) == Triple(b)
  {
    var x, y := MatchRank(a).name, MatchRank(b).name;
    assert x[0] == a.subject && x[1] == a.relation && x[2] == a.obj;
    assert y[0] == b.subject && y[1] == b.relation && y[2] == b.obj;
  }

  // ----------------------------------------------------------------------- pages

  /** A match still to come after the cursor: not the match it names, wherever that
      ranks now, and behind it. */
  predicate Follows(m: Match, after: Option<Rank>) {
    after.Some? ==> m.rank.name != after.value.name && RankLess(after.value, m.rank)
  }

  function Remaining(matches: seq<Match>, after: Option<Rank>): seq<Match> {
    if matches == [] then []
    else
      var last, init := matches[|matches| - 1], Remaining(matches[..|matches| - 1], after);
      if Follows(last, after) then init + [last] else init
  }

  /** The whole result in its order. */
  function Ranking(matches: seq<Match>): seq<Match> {
    Sort(matches, Before)
  }

  function Cut(s: seq<Match>, limit: nat): seq<Match> {
    s[..Min(limit, |s|)]
  }

  function PageOf(matches: seq<Match>, limit: nat, after: Option<Rank>): seq<Match> {
    Cut(Ranking(Remaining(matches, after)), limit)
  }

  /** One page: what follows the cursor, ranked and cut at the limit, and how many
      matches there are in all. */
  method PageBy(matches: seq<Match>, limit: Option<nat>, after: Option<Rank>) returns (total: nat, page: seq<Match>)
    ensures total == |matches|
    ensures page == PageOf(matches, Clamp(limit, DEFAULT_MATCH_LIMIT, MAX_MATCH_LIMIT), after)
  {
    total := |matches|;
    var bound := Clamp(limit, DEFAULT_MATCH_LIMIT, MAX_MATCH_LIMIT);
    page := [];
    for i := 0 to |matches|
      invariant page == Remaining(matches[..i], after)
    {
      assert matches[..i + 1][..i] == matches[..i];
      if Follows(matches[i], after) {
        page := page + [matches[i]];
      }
    }
    assert matches[..|matches|] == matches;
    page := Sort(page, Before);
    if |page| > bound {
      page := page[..bound];
    }
  }

  lemma {:induction false} RemainingElements(matches: seq<Match>, after: Option<Rank>)
    ensures forall m :: m in Remaining(matches, after) <==> m in matches && Follows(m, after)
  {
    hide Follows;
    if matches != [] {
      var n := |matches| - 1;
      RemainingElements(matches[..n], after);
      assert matches == matches[..n] + [matches[n]];
    }
  }

  lemma {:induction false} RemainingDistinct(matches: seq<Match>, after: Option<Rank>)
    requires DistinctNames(matches)
    ensures DistinctNames(Remaining(matches, after))
  {
    hide Follows;
    if matches != [] {
      var n := |matches| - 1;
      RemainingDistinct(matches[..n], after);
      RemainingElements(matches[..n], after);
      assert forall m | m in matches[..n] :: m.rank.name != matches[n].rank.name;
    }
  }

  lemma RankingSorts(matches: seq<Match>)
    requires DistinctNames(matches)
    ensures StrictlySorted(Ranking(matches), Before) && Elements(Ranking(matches)) == Elements(matches)
    ensures |Ranking(matches)| == |matches|
  {
    hide Before;
    DistinctTotal(matches);
    SortSorts(matches, Before);
  }

  /** Whatever the matches are, and however their weights moved since, the edge a
      cursor names is not on the page after it, which holds only matches behind the
      cursor's place. */
  lemma {:induction false} CursorNeverReturned(matches: seq<Match>, limit: nat, after: Rank)
    ensures forall m | m in PageOf(matches, limit, Some(after)) :: m in matches && m.rank.name != after.name && RankLess(after, m.rank)
  {
    hide NamesLess;
    var rest := Remaining(matches, Some(after));
    RemainingElements(matches, Some(after));
    SameElements(Ranking(rest), rest);
    forall m | m in PageOf(matches, limit, Some(after)) ensures m in rest {
      assert m in Elements(Ranking(rest));
    }
  }

  // ---------------------------------------------------------- following the pages

  /** After a cursor at the `k`-th match of the ranking, what remains ranked is the
      rest of the ranking. */
  lemma RemainingAfter(matches: seq<Match>, k: nat)
    requires DistinctNames(matches) && k < |matches|
    ensures |Ranking(matches)| == |matches|
    ensures Ranking(Remaining(matches, Some(Ranking(matches)[k].rank))) == Ranking(matches)[k + 1..]
  {
    hide NamesLess, RankLess;
    var all := Ranking(matches);
    RankingSorts(matches);
    var after := Some(all[k].rank);
    var rest := Remaining(matches, after);
    RemainingDistinct(matches, after);
    RankingSorts(rest);
    DistinctTotal(rest);
    forall m ensures m in Elements(rest) <==> m in Elements(all[k + 1..]) {
      RemainingElements(matches, after);
      BehindIsAfter(matches, k, m);
    }
    SortedUnique(Ranking(rest), all[k + 1..], Before);
  }

  lemma BehindIsAfter(matches: seq<Match>, k: nat, m: Match)
    requires DistinctNames(matches) && k < |Ranking(matches)|
    ensures m in matches && Follows(m, Some(Ranking(matches)[k].rank)) <==> m in Ranking(matches)[k + 1..]
  {
    hide NamesLess, RankLess;
    var all := Ranking(matches);
    RankingSorts(matches);
    DistinctTotal(matches);
    SameElements(all, matches);
    assert m in matches <==> m in Elements(matches);
    assert all[k] in Elements(all);
    if m in matches {
      assert m in Elements(all);
      var i :| 0 <= i < |all| && all[i] == m;
      if i < k { assert Before(all[i], all[k]); }
      if i > k { assert Before(all[k], all[i]) && all[k + 1..][i - k - 1] == m; NamesDiffer(matches, all[k], m); }
    }
    if m in all[k + 1..] {
      var j :| 0 <= j < |all| - k - 1 && all[k + 1..][j] == m;
      assert all[j + k + 1] == m && m in Elements(all);
    }
  }

  lemma NamesDiffer(matches: seq<Match>, a: Match, b: Match)
    requires DistinctNames(matches) && a in matches && b in matches && a != b
    ensures a.rank.name != b.rank.name
  {
  }

  lemma RemainingAll(matches: seq<Match>)
    ensures Remaining(matches, None) == matches
  {
    if matches != [] {
      RemainingAll(matches[..|matches| - 1]);
    }
  }

  /** The page after the first `k` matches of the ranking is the next stretch of it. */
  lemma {:induction false} NextPage(matches: seq<Match>, limit: nat, k: nat)
    requires DistinctNames(matches) && k <= |matches|
    ensures |Ranking(matches)| == |matches|
    ensures PageOf(matches, limit, if k == 0 then None else Some(Ranking(matches)[k - 1].rank)) == Cut(Ranking(matches)[k..], limit)
  {
    hide Sort, Remaining;
    RankingSorts(matches);
    if k == 0 {
      RemainingAll(matches);
      assert Ranking(matches)[0..] == Ranking(matches);
    } else {
      RemainingAfter(matches, k - 1);
    }
  }

  lemma ClampZero(limit: Option<nat>)
    ensures Clamp(limit, DEFAULT_MATCH_LIMIT, MAX_MATCH_LIMIT) == 0 <==> limit == Some(0)
  {
  }

  /** A client taking each page's last match as the next cursor until a page comes
      back empty: it receives the whole ranking once, in order, with the same total
      on every page, unless it asks for pages of nothing. */
  method FollowPages(matches: seq<Match>, limit: Option<nat>) returns (received: seq<Match>, totals: seq<nat>)
    requires DistinctNames(matches)
    ensures received == if limit == Some(0) then [] else Ranking(matches)
    ensures forall t | t in totals :: t == |matches|
  {
    ClampZero(limit);
    hide Sort, Remaining, DistinctNames, StrictlySorted, Before, PageOf, Clamp;
    ghost var all := Ranking(matches);
    ghost var bound := Clamp(limit, DEFAULT_MATCH_LIMIT, MAX_MATCH_LIMIT);
    RankingSorts(matches);
    var after := None;
    received, totals := [], [];
    while true
      invariant |received| <= |all| && received == all[..|received|] && (bound == 0 ==> received == [])
      invariant after == if received == [] then None else Some(all[|received| - 1].rank)
      invariant forall t | t in totals :: t == |matches|
      decreases |all| - |received|
    {
      NextPage(matches, bound, |received|);
      var total, page := PageBy(matches, limit, after);
      totals := totals + [total];
      if page == [] {
        break;
      }
      received := received + page;
      after := Some(page[|page| - 1].rank);
    }
    assert bound > 0 ==> |received| == |all|;
  }

  // ------------------------------------------------------ pools across contexts

  /** A strictly sorted list inside another starts no later than it. */
  lemma {:induction false} Earlier(inner: seq<Match>, outer: seq<Match>, j: nat) returns (i: nat)
    requires StrictlySorted(inner, Before) && StrictlySorted(outer, Before) && TotalOn(Before, Elements(outer))
    requires Elements(inner) <= Elements(outer) && j < |inner|
    ensures j <= i < |outer| && outer[i] == inner[j]
  {
    hide Before;
    assert inner[j] in Elements(outer);
    i :| 0 <= i < |outer| && outer[i] == inner[j];
    if j > 0 {
      var k := Earlier(inner, outer, j - 1);
      assert Before(outer[k], outer[i]);
      assert outer[k] in Elements(outer) && outer[i] in Elements(outer);
    }
  }

  /** Inserting something behind the first `k` leaves them. */
  lemma {:induction false} InsertBehind(x: Match, s: seq<Match>, k: nat)
    requires StrictlySorted(s, Before) && TotalOn(Before, Elements(s) + {x})
    requires k <= |s| && (k > 0 ==> Before(s[k - 1], x))
    ensures Insert(x, s, Before)[..k] == s[..k]
  {
    hide Before, StrictlySorted, TotalOn;
    if k > 0 {
      BehindHead(x, s, k);
      InsertBehind(x, s[1..], k - 1);
    }
  }

  lemma BehindHead(x: Match, s: seq<Match>, k: nat)
    requires StrictlySorted(s, Before) && TotalOn(Before, Elements(s) + {x})
    requires 0 < k <= |s| && Before(s[k - 1], x)
    ensures !Before(x, s[0])
    ensures StrictlySorted(s[1..], Before) && TotalOn(Before, Elements(s[1..]) + {x})
  {
    hide Before;
    assert s[0] in Elements(s) && s[k - 1] in Elements(s) && x in Elements(s) + {x};
    assert k > 1 ==> Before(s[0], s[k - 1]);
    forall y | y in Elements(s[1..]) + {x} ensures y in Elements(s) + {x} { }
  }

  lemma {:induction false} InsertOneBehind(best: seq<Match>, s: seq<Match>, d: Match, k: nat)
    requires StrictlySorted(best, Before) && |best| == k && StrictlySorted(s, Before)
    requires TotalOn(Before, Elements(s) + {d}) && Elements(best) <= Elements(s)
    requires k > 0 ==> Before(best[k - 1], d)
    ensures k <= |s| && Insert(d, s, Before)[..k] == s[..k]
  {
    hide Before;
    if k > 0 {
      forall x | x in Elements(s) ensures x in Elements(s) + {d} { }
      var i := Earlier(best, s, k - 1);
      assert s[k - 1] in Elements(s) && s[i] in Elements(s) && d in Elements(s) + {d};
      assert i > k - 1 ==> Before(s[k - 1], s[i]);
    }
    InsertBehind(d, s, k);
  }

  lemma DistinctTail(s: seq<Match>)
    requires s != [] && DistinctNames(s)
    ensures DistinctNames(s[1..])
  {
  }

  /** What ranks behind `k` others of a list has no part in its first `k`. */
  lemma {:induction false} BehindDropped(best: seq<Match>, dropped: seq<Match>, rest: seq<Match>, k: nat)
    requires DistinctNames(dropped + rest) && StrictlySorted(best, Before) && |best| == k
    requires Elements(best) <= Elements(rest) && forall d | d in dropped :: k > 0 ==> Before(best[k - 1], d)
    ensures k <= |Ranking(rest)|
    ensures k <= |Ranking(dropped + rest)| && Ranking(dropped + rest)[..k] == Ranking(rest)[..k]
  {
    hide Before, DistinctNames;
    if dropped == [] {
      assert dropped + rest == rest;
      RankingSorts(rest);
      DistinctTotal(rest);
      if k > 0 {
        var i := Earlier(best, Ranking(rest), k - 1);
      }
    } else {
      var d, fewer := dropped[0], dropped[1..];
      assert (dropped + rest)[1..] == fewer + rest;
      DistinctTail(dropped + rest);
      assert d in dropped && forall x | x in fewer :: x in dropped;
      BehindDropped(best, fewer, rest, k);
      RankingSorts(fewer + rest);
      DistinctTotal(dropped + rest);
      SplitElements(dropped, rest, d);
      assert Elements(rest) <= Elements(fewer + rest);
      InsertOneBehind(best, Ranking(fewer + rest), d, k);
    }
  }

  lemma SplitElements(dropped: seq<Match>, rest: seq<Match>, d: Match)
    requires dropped != [] && d == dropped[0]
    ensures Elements(dropped + rest) == Elements(dropped[1..] + rest) + {d}
  {
    assert dropped + rest == [d] + (dropped[1..] + rest);
  }

  lemma {:induction false} RemainingAppend(a: seq<Match>, b: seq<Match>, after: Option<Rank>)
    ensures Remaining(a + b, after) == Remaining(a, after) + Remaining(b, after)
  {
    if b == [] {
      assert a + b == a;
    } else {
      var n := |b| - 1;
      RemainingAppend(a, b[..n], after);
      assert (a + b)[..|a + b| - 1] == a + b[..n];
    }
  }

  lemma {:induction false} AllRemain(s: seq<Match>, after: Option<Rank>)
    requires forall m | m in s :: Follows(m, after)
    ensures Remaining(s, after) == s
  {
    if s != [] { AllRemain(s[..|s| - 1], after); }
  }

  /** The names of a list, some of whose elements are replaced by a selection of
      them without repeats, stay distinct. */
  lemma SelectedDistinct(a: seq<Match>, chosen: seq<Match>, b: seq<Match>)
    requires DistinctNames(a + b) && Elements(chosen) <= Elements(a) && NoDuplicates(chosen)
    ensures DistinctNames(chosen + b) && DistinctNames(a) && DistinctNames(b)
  {
    PartsDistinct(a, b);
    forall i, j | 0 <= i < j < |chosen + b| ensures (chosen + b)[i].rank.name != (chosen + b)[j].rank.name {
      if i < |chosen| {
        assert chosen[i] in Elements(chosen);
        if j < |chosen| {
          assert chosen[j] in Elements(chosen);
          NamesDiffer(a, chosen[i], chosen[j]);
        } else {
          NamesApart(a, b, chosen[i], b[j - |chosen|]);
        }
      } else {
        assert b[i - |chosen|].rank.name != b[j - |chosen|].rank.name;
      }
    }
  }

  lemma PartsDistinct(a: seq<Match>, b: seq<Match>)
    requires DistinctNames(a + b)
    ensures DistinctNames(a) && DistinctNames(b)
  {
    var all := a + b;
    forall i, j | 0 <= i < j < |a| ensures a[i].rank.name != a[j].rank.name {
      assert all[i].rank.name != all[j].rank.name;
    }
    forall i, j | 0 <= i < j < |b| ensures b[i].rank.name != b[j].rank.name {
      assert all[|a| + i].rank.name != all[|a| + j].rank.name;
    }
  }

  lemma NamesApart(a: seq<Match>, b: seq<Match>, x: Match, y: Match)
    requires DistinctNames(a + b) && x in a && y in b
    ensures x.rank.name != y.rank.name
  {
    var i :| 0 <= i < |a| && a[i] == x;
    var j :| 0 <= j < |b| && b[j] == y;
    assert (a + b)[i] == x && (a + b)[|a| + j] == y;
  }

  lemma PageIsSelection(pool: seq<Match>, limit: nat, after: Option<Rank>)
    requires DistinctNames(pool)
    ensures var page := PageOf(pool, limit, after);
      Elements(page) <= Elements(pool) && NoDuplicates(page) && (forall m | m in page :: Follows(m, after))
  {
    hide Follows, Before;
    var rest := Remaining(pool, after);
    var page := PageOf(pool, limit, after);
    RemainingDistinct(pool, after);
    RemainingElements(pool, after);
    RankingSorts(rest);
    DistinctTotal(rest);
    SortedNoDuplicates(Ranking(rest), Before);
    forall m | m in page ensures m in rest {
      assert m in Elements(Ranking(rest));
    }
    forall i, j | 0 <= i < j < |page| ensures page[i] != page[j] {
      assert Ranking(rest)[i] != Ranking(rest)[j];
    }
  }

  /** Cutting a pool to a page before adding to it loses nothing the final page
      holds: the cut is made by the same cursor and at the same limit. */
  lemma {:induction false} CutPoolKeeps(pool: seq<Match>, more: seq<Match>, limit: nat, after: Option<Rank>)
    requires DistinctNames(pool + more)
    ensures PageOf(PageOf(pool, limit, after) + more, limit, after) == PageOf(pool + more, limit, after)
    ensures DistinctNames(PageOf(pool, limit, after) + more)
  {
    hide Remaining, Follows, DistinctNames, NoDuplicates, Ranking;
    PartsDistinct(pool, more);
    PageIsSelection(pool, limit, after);
    var best := PageOf(pool, limit, after);
    SelectedDistinct(pool, best, more);
    AllRemain(best, after);
    RemainingAppend(best, more, after);
    RemainingAppend(pool, more, after);
    RemainingDistinct(pool + more, after);
    RemainingDistinct(best + more, after);
    FirstKept(Remaining(pool, after), Remaining(more, after), limit);
  }

  /** The first of a list and another are the first of its own first and the other. */
  lemma FirstKept(kept: seq<Match>, rest: seq<Match>, limit: nat)
    requires DistinctNames(kept + rest) && DistinctNames(Cut(Ranking(kept), limit) + rest)
    ensures Cut(Ranking(Cut(Ranking(kept), limit) + rest), limit) == Cut(Ranking(kept + rest), limit)
  {
    hide DistinctNames, Sort, StrictlySorted, Before;
    PartsDistinct(kept, rest);
    var ranked := Ranking(kept);
    RankingSorts(kept);
    var best := Cut(ranked, limit);
    var dropped := ranked[|best|..];
    assert ranked == best + dropped;
    Rejoined(kept, rest, best, dropped);
    BestFirst(ranked, |best|);
    BehindDropped(best, dropped, best + rest, |best|);
    RankingSorts(best + rest);
    RankingSorts(dropped + (best + rest));
    if dropped == [] {
      assert dropped + (best + rest) == best + rest;
    } else {
      assert |best| == limit;
    }
  }

  lemma BestFirst(ranked: seq<Match>, k: nat)
    requires StrictlySorted(ranked, Before) && k <= |ranked|
    ensures StrictlySorted(ranked[..k], Before)
    ensures forall d | d in ranked[k..] :: k > 0 ==> Before(ranked[..k][k - 1], d)
  {
    hide Before;
  }

  /** Putting what was cut back in front gives the same ranking. */
  lemma Rejoined(kept: seq<Match>, rest: seq<Match>, best: seq<Match>, dropped: seq<Match>)
    requires DistinctNames(kept + rest) && Ranking(kept) == best + dropped
    ensures DistinctNames(dropped + (best + rest))
    ensures Ranking(dropped + (best + rest)) == Ranking(kept + rest)
  {
    hide Before, DistinctNames, NoDuplicates;
    var shuffled := dropped + (best + rest);
    PartsDistinct(kept, rest);
    RankingSorts(kept);
    SameElements(Ranking(kept), kept);
    DistinctTotal(kept);
    SortedNoDuplicates(Ranking(kept), Before);
    TurnedOnce(best, dropped);
    SelectedDistinct(kept, dropped + best, rest);
    assert dropped + best + rest == shuffled;
    RankingSorts(shuffled);
    RankingSorts(kept + rest);
    DistinctTotal(shuffled);
    forall m ensures m in Elements(shuffled) <==> m in Elements(kept + rest) {
      assert m in kept <==> m in Elements(kept);
      assert m in Ranking(kept) <==> m in Elements(Ranking(kept));
      assert m in best + dropped <==> m in best || m in dropped;
    }
    SortedUnique(Ranking(shuffled), Ranking(kept + rest), Before);
  }

  lemma TurnedOnce(a: seq<Match>, b: seq<Match>)
    requires NoDuplicates(a + b)
    ensures NoDuplicates(b + a) && Elements(b + a) == Elements(a + b)
  {
    var ab, ba := a + b, b + a;
    forall i, j | 0 <= i < j < |ba| ensures ba[i] != ba[j] {
      var p := if i < |b| then |a| + i else i - |b|;
      var q := if j < |b| then |a| + j else j - |b|;
      assert ab[p] == ba[i] && ab[q] == ba[j] && p != q;
    }
  }

  function Flattened(found: seq<seq<Match>>): seq<Match> {
    if found == [] then [] else found[0] + Flattened(found[1..])
  }

  predicate NeedsTrim(size: nat, limit: nat) {
    size >= limit * 2
  }

  /** Pools the matches of every context, cutting the pool whenever it outgrows
      twice the limit: the page is that of all the matches together, and the total
      counts them all. */
  method PooledPage(found: seq<seq<Match>>, limit: Option<nat>, after: Option<Rank>) returns (total: nat, page: seq<Match>)
    requires DistinctNames(Flattened(found))
    ensures total == |Flattened(found)|
    ensures page == PageOf(Flattened(found), Clamp(limit, DEFAULT_MATCH_LIMIT, MAX_MATCH_LIMIT), after)
  {
    hide PageOf, DistinctNames, NeedsTrim;
    var bound := Clamp(limit, DEFAULT_MATCH_LIMIT, MAX_MATCH_LIMIT);
    var pool: seq<Match> := [];
    total := 0;
    assert pool + Flattened(found[0..]) == Flattened(found) by { assert found[0..] == found; }
    for i := 0 to |found|
      invariant total + |Flattened(found[i..])| == |Flattened(found)|
      invariant DistinctNames(pool + Flattened(found[i..]))
      invariant PageOf(pool + Flattened(found[i..]), bound, after) == PageOf(Flattened(found), bound, after)
    {
      ghost var rest := Flattened(found[i + 1..]);
      assert found[i..][1..] == found[i + 1..] && found[i..][0] == found[i];
      assert pool + Flattened(found[i..]) == (pool + found[i]) + rest;
      total := total + |found[i]|;
      pool := pool + found[i];
      if NeedsTrim(|pool|, bound) {
        CutPoolKeeps(pool, rest, bound, after);
        var _, cut := PageBy(pool, Some(bound), after);
        pool := cut;
      }
    }
    assert Flattened(found[|found|..]) == [] && pool + [] == pool;
    var _, last := PageBy(pool, Some(bound), after);
    page := last;
  }

  // ------------------------------------------------------------- what a page shows

  /** Pages come in rank order: what follows on a page, or on a later one, ranks after. */
  lemma {:induction false} PagesRise(matches: seq<Match>, limit: nat, after: Option<Rank>, i: nat, j: nat)
    requires DistinctNames(matches)
    requires i < j < |Ranking(Remaining(matches, after))|
    ensures var ranking := Ranking(Remaining(matches, after));
      && PageOf(matches, limit, after) == ranking[..Min(limit, |ranking|)]
      && RankLess(ranking[i].rank, ranking[j].rank)
  {
    RemainingDistinct(matches, after);
    RankingSorts(Remaining(matches, after));
    hide Ranking, Remaining, RankLess;
    var ranking := Ranking(Remaining(matches, after));
    assert Before(ranking[i], ranking[j]);
  }

  /** By subject, then relation, then object. */
  predicate TripleBefore(a: Association, b: Association) {
    || BytesLess(a.subject, b.subject)
    || (a.subject == b.subject && BytesLess(a.relation, b.relation))
    || (a.subject == b.subject && a.relation == b.relation && BytesLess(a.obj, b.obj))
  }

  lemma Three(a: seq<Text>, b: seq<Text>)
    requires |a| == |b| == 3
    ensures NamesLess(a, b) <==> BytesLess(a[0], b[0]) || (a[0] == b[0] && (BytesLess(a[1], b[1]) || (a[1] == b[1] && BytesLess(a[2], b[2]))))
  {
    BytesIrreflexive(a[0]);
    BytesIrreflexive(a[1]);
    BytesIrreflexive(a[2]);
    hide BytesLess, NamesLess;
    HeadDecides(a, b);
    HeadDecides(a[1..], b[1..]);
    HeadDecides(a[1..][1..], b[1..][1..]);
    var none: seq<Text> := [];
    assert a[1..][1..][1..] == none && b[1..][1..][1..] == none;
    NoneLess();
  }

  /** In a context the stronger association is first, equally strong ones by their
      triple; across contexts by the context before it; in an exploration the nearer
      one, whatever it weighs. */
  lemma {:induction false} RanksMean(a: Association, b: Association, context: Text, other: Text, near: nat, far: nat)
    ensures RankLess(MatchRank(a), MatchRank(b)) <==>
      Magnitude(a.weight) > Magnitude(b.weight) || (Magnitude(a.weight) == Magnitude(b.weight) && TripleBefore(a, b))
    ensures RankLess(CrossRank(context, a), CrossRank(other, b)) <==>
      Magnitude(a.weight) > Magnitude(b.weight)
      || (Magnitude(a.weight) == Magnitude(b.weight)
          && (BytesLess(context, other) || (context == other && TripleBefore(a, b))))
    ensures RankLess(ExploreRank(near, a), ExploreRank(far, b)) <==> near < far || (near == far && TripleBefore(a, b))
  {
    hide BytesLess, Magnitude, WeightPlace;
    StrongerFirst(a.weight, b.weight);
    StrongerFirst(b.weight, a.weight);
    Three(MatchRank(a).name, MatchRank(b).name);
    BytesIrreflexive(context);
    var x, y := CrossRank(context, a).name, CrossRank(other, b).name;
    assert x[1..] == MatchRank(a).name && y[1..] == MatchRank(b).name;
    hide NamesLess;
    HeadDecides(x, y);
  }

  lemma NoneLess()
    ensures !NamesLess([], [])
  {
  }

  lemma HeadDecides(x: seq<Text>, y: seq<Text>)
    requires x != [] && y != []
    ensures NamesLess(x, y) <==> if x[0] != y[0] then BytesLess(x[0], y[0]) else NamesLess(x[1..], y[1..])
  {
  }

  /** A page holds as many as were asked for, a hundred when nothing was said and never
      more than a thousand, as long as they last. */
  lemma {:induction false} PageSize(matches: seq<Match>, limit: Option<nat>, after: Option<Rank>)
    requires DistinctNames(matches)
    ensures var size := |PageOf(matches, Clamp(limit, DEFAULT_MATCH_LIMIT, MAX_MATCH_LIMIT), after)|;
      var left := |Remaining(matches, after)|;
      && size <= 1000 && size <= left && (limit.None? ==> size <= 100) && (limit.Some? ==> size <= limit.value)
      && (size < left ==> size == 1000 || Some(size) == limit || (limit.None? && size == 100))
  {
    RemainingDistinct(matches, after);
    RankingSorts(Remaining(matches, after));
    hide Ranking, Remaining;
  }
}
