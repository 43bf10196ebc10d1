/** Merging segment buckets into contexts, groups and the run, and what the roll-up
    keeps (`aggregate` in `scripts/extract_metrics.py`). */
module Rollup {
  import opened Common
  import opened Graph
  import opened Metrics
  import opened Orders

  datatype Entry = Entry(context: Option<string>, groups: seq<string>)

  function ContextOf(ledger: map<string, Entry>, s: Segment): string {
    if s.source in ledger && ledger[s.source].context.Some? then ledger[s.source].context.value else "(unassigned)"
  }

  function MembershipsOf(ledger: map<string, Entry>, s: Segment): seq<string> {
    if s.source in ledger && ledger[s.source].groups != [] then ledger[s.source].groups else [s.outDir]
  }

  /** A bucket to merge and the name to merge it under. */
  datatype Filing = Filing(name: string, metrics: Metrics)

  function At(store: map<string, Metrics>, name: string): Metrics {
    if name in store then store[name] else BLANK
  }

  function Put(store: map<string, Metrics>, f: Filing): map<string, Metrics> {
    store[f.name := Merged(At(store, f.name), f.metrics)]
  }

  /** The buckets by name after every filing. */
  function Filed(filings: seq<Filing>): map<string, Metrics> {
    if filings == [] then map[]
    else
      var last, store := filings[|filings| - 1], Filed(filings[..|filings| - 1]);
      Put(store, last)
  }

  /** Buckets merged one after the other into a blank one. */
  function MergedAll(buckets: seq<Metrics>): Metrics {
    if buckets == [] then BLANK else Merged(MergedAll(buckets[..|buckets| - 1]), buckets[|buckets| - 1])
  }

  /** Every filing merged, whatever its name. */
  function Total(filings: seq<Filing>): Metrics {
    MergedAll(seq(|filings|, i requires 0 <= i < |filings| => filings[i].metrics))
  }

  function ContextFilings(segments: seq<Segment>, ledger: map<string, Entry>): (r: seq<Filing>)
    ensures |r| == |segments|
  {
    seq(|segments|, i requires 0 <= i < |segments| => Filing(ContextOf(ledger, segments[i]), SegmentMetrics(segments[i])))
  }

  function UnderEach(names: seq<string>, m: Metrics): (r: seq<Filing>)
    ensures |r| == |names|
  {
    seq(|names|, i requires 0 <= i < |names| => Filing(names[i], m))
  }

  /** A segment is filed under each of its groups, as often as it is listed. */
  function GroupFilings(segments: seq<Segment>, ledger: map<string, Entry>): seq<Filing> {
    if segments == [] then []
    else
      var last := segments[|segments| - 1];
      GroupFilings(segments[..|segments| - 1], ledger) + UnderEach(MembershipsOf(ledger, last), SegmentMetrics(last))
  }

  function Buckets(segments: seq<Segment>): (r: seq<Metrics>)
    ensures |r| == |segments|
  {
    seq(|segments|, i requires 0 <= i < |segments| => SegmentMetrics(segments[i]))
  }

  /** The run: every segment's bucket merged. */
  function RunOf(segments: seq<Segment>): Metrics {
    MergedAll(Buckets(segments))
  }

  lemma FirstBuckets(segments: seq<Segment>, n: nat)
    requires n <= |segments|
    ensures Buckets(segments)[..n] == Buckets(segments[..n])
  {
    hide SegmentMetrics;
  }

  lemma TotalMore(filings: seq<Filing>)
    requires filings != []
    ensures Total(filings) == Merged(Total(filings[..|filings| - 1]), filings[|filings| - 1].metrics)
  {
    hide Merged;
    var n := |filings| - 1;
    assert seq(n, i requires 0 <= i < n => filings[..n][i].metrics)
        == seq(|filings|, i requires 0 <= i < |filings| => filings[i].metrics)[..n];
  }

  lemma FiledMore(filings: seq<Filing>, f: Filing)
    ensures Filed(filings + [f]) == Put(Filed(filings), f)
  {
    assert (filings + [f])[..|filings|] == filings;
  }

  // ---------------------------------------------------------- named buckets

  /** The store holds exactly the buckets of `m`, one object each, among `owned`. */
  ghost predicate Holding(store: map<string, Bucket>, m: map<string, Metrics>, owned: set<Bucket>)
    reads owned
  {
    && store.Keys == m.Keys
    && (forall n | n in store :: store[n] in owned && store[n].Contents() == m[n])
    && (forall a, b | a in store && b in store && a != b :: store[a] != store[b])
  }

  /** The store with a blank bucket under a new name. */
  method SetDefault(store: map<string, Bucket>, name: string, ghost m: map<string, Metrics>, ghost owned: set<Bucket>)
    returns (next: map<string, Bucket>, ghost all: set<Bucket>)
    requires Holding(store, m, owned)
    ensures name in next && fresh(all - owned) && owned <= all
    ensures Holding(next, m[name := At(m, name)], all)
  {
    next, all := store, owned;
    if name !in next {
      var blank := new Bucket();
      next, all := next[name := blank], all + {blank};
    }
  }

  /** Merges a bucket under a name, starting a blank one for a new name. */
  method MergeNamed(store: map<string, Bucket>, name: string, bucket: Bucket, ghost m: map<string, Metrics>, ghost owned: set<Bucket>)
    returns (next: map<string, Bucket>, ghost all: set<Bucket>)
    requires Holding(store, m, owned) && bucket !in owned
    modifies owned
    ensures fresh(all - owned) && owned <= all && bucket !in all
    ensures Holding(next, Put(m, Filing(name, bucket.Contents())), all)
    ensures bucket.Contents() == old(bucket.Contents())
  {
    hide Merged, Put;
    next, all := SetDefault(store, name, m, owned);
    ghost var before := m[name := At(m, name)];
    MergeAt(next, name, bucket, before, all);
    PutOver(m, Filing(name, bucket.Contents()));
  }

  /** Merges a bucket into the one under a name; the others keep what they hold. */
  method MergeAt(store: map<string, Bucket>, name: string, bucket: Bucket, ghost m: map<string, Metrics>, ghost owned: set<Bucket>)
    requires Holding(store, m, owned) && name in store && bucket !in owned
    modifies owned
    ensures Holding(store, m[name := Merged(m[name], bucket.Contents())], owned)
    ensures bucket.Contents() == old(bucket.Contents())
  {
    hide Merged;
    var target := store[name];
    target.MergeInto(bucket);
    assert forall n | n in store && n != name :: store[n] != target && store[n].Contents() == m[n];
    HoldingOver(store, m, owned, name, Merged(m[name], bucket.Contents()));
    hide Holding;
  }

  lemma HoldingOver(store: map<string, Bucket>, m: map<string, Metrics>, owned: set<Bucket>, name: string, changed: Metrics)
    requires store.Keys == m.Keys && name in store && store[name].Contents() == changed
    requires forall n | n in store :: store[n] in owned && (n != name ==> store[n].Contents() == m[n])
    requires forall a, b | a in store && b in store && a != b :: store[a] != store[b]
    ensures Holding(store, m[name := changed], owned)
  {
  }

  lemma PutOver(m: map<string, Metrics>, f: Filing)
    ensures Put(m, f) == m[f.name := At(m, f.name)][f.name := Merged(At(m, f.name), f.metrics)]
  {
    hide Merged;
  }

  method FileUnderEach(store: map<string, Bucket>, names: seq<string>, bucket: Bucket, ghost filings: seq<Filing>, ghost owned: set<Bucket>)
    returns (next: map<string, Bucket>, ghost all: set<Bucket>)
    requires Holding(store, Filed(filings), owned) && bucket !in owned
    modifies owned
    ensures fresh(all - owned) && owned <= all && bucket !in all
    ensures Holding(next, Filed(filings + UnderEach(names, bucket.Contents())), all)
    ensures bucket.Contents() == old(bucket.Contents())
  {
    hide Filed, Put, Holding;
    next, all := store, owned;
    ghost var m := bucket.Contents();
    ghost var filed := UnderEach(names, m);
    assert filings + filed[..0] == filings;
    for i := 0 to |names|
      invariant fresh(all - owned) && owned <= all && bucket !in all
      invariant Holding(next, Filed(filings + filed[..i]), all) && bucket.Contents() == m
    {
      assert filings + filed[..i + 1] == (filings + filed[..i]) + [Filing(names[i], m)];
      FiledMore(filings + filed[..i], Filing(names[i], m));
      next, all := MergeNamed(next, names[i], bucket, Filed(filings + filed[..i]), all);
    }
    assert filed[..|names|] == filed;
  }

  method NewBucket(s: Segment) returns (bucket: Bucket)
    ensures fresh(bucket) && bucket.Contents() == SegmentMetrics(s)
  {
    hide Merged, SegmentMetrics;
    bucket := new Bucket();
    bucket.AbsorbSegment(s);
    MergedIsAssociative(SegmentMetrics(s), BLANK, BLANK);
  }

  /** One segment, absorbed into a bucket of its own and merged everywhere. */
  method RollSegment(s: Segment, ledger: map<string, Entry>, run: Bucket, contexts: map<string, Bucket>, groups: map<string, Bucket>,
                     ghost byContext: seq<Filing>, ghost byGroup: seq<Filing>, ghost own: set<Bucket>, ghost others: set<Bucket>)
    returns (nextContexts: map<string, Bucket>, nextGroups: map<string, Bucket>, ghost nextOwn: set<Bucket>, ghost nextOthers: set<Bucket>)
    requires run !in own && run !in others && own !! others
    requires Holding(contexts, Filed(byContext), own) && Holding(groups, Filed(byGroup), others)
    modifies run, own, others
    ensures fresh(nextOwn - own) && fresh(nextOthers - others) && own <= nextOwn && others <= nextOthers
    ensures run !in nextOwn && run !in nextOthers && nextOwn !! nextOthers
    ensures run.Contents() == Merged(old(run.Contents()), SegmentMetrics(s))
    ensures Holding(nextContexts, Filed(byContext + [Filing(ContextOf(ledger, s), SegmentMetrics(s))]), nextOwn)
    ensures Holding(nextGroups, Filed(byGroup + UnderEach(MembershipsOf(ledger, s), SegmentMetrics(s))), nextOthers)
  {
    hide Filed, Put, Merged, SegmentMetrics, Holding, MembershipsOf, ContextOf;
    FiledMore(byContext, Filing(ContextOf(ledger, s), SegmentMetrics(s)));
    var bucket := NewBucket(s);
    nextContexts, nextOwn := MergeNamed(contexts, ContextOf(ledger, s), bucket, Filed(byContext), own);
    nextGroups, nextOthers := FileUnderEach(groups, MembershipsOf(ledger, s), bucket, byGroup, others);
    run.MergeInto(bucket);
  }

  /** One bucket for the run and one for every context and group. */
  method Aggregate(segments: seq<Segment>, ledger: map<string, Entry>)
    returns (run: Bucket, contexts: map<string, Bucket>, groups: map<string, Bucket>, ghost owned: set<Bucket>)
    ensures run.Contents() == RunOf(segments)
    ensures Holding(contexts, Filed(ContextFilings(segments, ledger)), owned)
    ensures Holding(groups, Filed(GroupFilings(segments, ledger)), owned)
  {
    hide Filed, Put, Merged, SegmentMetrics, Holding, MembershipsOf, ContextOf;
    run := new Bucket();
    contexts, groups := map[], map[];
    ghost var own, others := {}, {};
    ghost var byContext := ContextFilings(segments, ledger);
    StartRollup(ledger);
    for i := 0 to |segments|
      invariant fresh(run) && fresh(own) && fresh(others)
      invariant run !in own && run !in others && own !! others
      invariant run.Contents() == RunOf(segments[..i])
      invariant Holding(contexts, Filed(byContext[..i]), own)
      invariant Holding(groups, Filed(GroupFilings(segments[..i], ledger)), others)
    {
      var s := segments[i];
      assert segments[..i + 1][..i] == segments[..i];
      FirstBuckets(segments[..i + 1], i);
      assert byContext[..i + 1] == byContext[..i] + [Filing(ContextOf(ledger, s), SegmentMetrics(s))];
      contexts, groups, own, others :=
        RollSegment(s, ledger, run, contexts, groups, byContext[..i], GroupFilings(segments[..i], ledger), own, others);
    }
    assert segments[..|segments|] == segments && byContext[..|segments|] == byContext;
    owned := own + others;
    HoldingMore(contexts, Filed(byContext), own, owned);
    HoldingMore(groups, Filed(GroupFilings(segments, ledger)), others, owned);
  }

  lemma HoldingMore(store: map<string, Bucket>, m: map<string, Metrics>, owned: set<Bucket>, all: set<Bucket>)
    requires Holding(store, m, owned) && owned <= all
    ensures Holding(store, m, all)
  {
  }

  lemma StartRollup(ledger: map<string, Entry>)
    ensures Filed([]) == map[] && GroupFilings([], ledger) == [] && RunOf([]) == BLANK
    ensures Holding(map[], map[], {})
  {
  }

  // --------------------------------------------------------- what merging keeps

  /** Equal but for the order of the edges. */
  ghost predicate Similar(a: Metrics, b: Metrics) {
    a.(edges := []) == b.(edges := []) && multiset(a.edges) == multiset(b.edges)
  }

  lemma MergedSimilar(a: Metrics, b: Metrics, c: Metrics)
    requires Similar(a, b)
    ensures Similar(Merged(a, c), Merged(b, c))
  {
  }

  lemma SwapSimilar(a: Metrics, b: Metrics, c: Metrics)
    ensures Similar(Merged(Merged(a, b), c), Merged(Merged(a, c), b))
  {
  }

  lemma SimilarTransitive(a: Metrics, b: Metrics, c: Metrics)
    requires Similar(a, b) && Similar(b, c)
    ensures Similar(a, c)
  {
  }

  /** The buckets of the names, merged in the order of the names. */
  function MergedOver(store: map<string, Metrics>, names: seq<string>): Metrics {
    if names == [] then BLANK
    else Merged(MergedOver(store, names[..|names| - 1]), At(store, names[|names| - 1]))
  }

  lemma {:induction false} Untouched(store: map<string, Metrics>, names: seq<string>, f: Filing)
    requires f.name !in names
    ensures MergedOver(Put(store, f), names) == MergedOver(store, names)
  {
    if names != [] { Untouched(store, names[..|names| - 1], f); }
  }

  lemma PrefixOnce(names: seq<string>)
    requires names != [] && NoDuplicates(names)
    ensures NoDuplicates(names[..|names| - 1]) && names[|names| - 1] !in names[..|names| - 1]
  {
  }

  lemma {:induction false} OneBucketGrows(store: map<string, Metrics>, names: seq<string>, f: Filing)
    requires NoDuplicates(names) && f.name in names
    ensures Similar(MergedOver(Put(store, f), names), Merged(MergedOver(store, names), f.metrics))
  {
    hide Merged, NoDuplicates, Similar;
    var n := |names| - 1;
    var init, last, next := names[..n], names[n], Put(store, f);
    PrefixOnce(names);
    if last == f.name {
      Untouched(store, init, f);
      MergedIsAssociative(MergedOver(store, init), At(store, last), f.metrics);
      SimilarItself(MergedOver(next, names));
    } else {
      OneBucketGrows(store, init, f);
      MergedSimilar(MergedOver(next, init), Merged(MergedOver(store, init), f.metrics), At(store, last));
      SwapSimilar(MergedOver(store, init), f.metrics, At(store, last));
      SimilarTransitive(MergedOver(next, names), Merged(Merged(MergedOver(store, init), f.metrics), At(store, last)),
                        Merged(MergedOver(store, names), f.metrics));
    }
  }

  lemma SimilarItself(a: Metrics)
    ensures Similar(a, a)
  {
  }

  lemma {:induction false} NothingFiled(names: seq<string>)
    ensures MergedOver(map[], names) == BLANK
  {
    hide Merged;
    if names != [] {
      NothingFiled(names[..|names| - 1]);
      MergedIsAssociative(BLANK, BLANK, BLANK);
    }
  }

  /** Merging the named buckets in any order gives the merge of all filings, but
      for the order of the edges. */
  lemma {:induction false} FiledMergeToTotal(filings: seq<Filing>, names: seq<string>)
    requires NoDuplicates(names) && forall f | f in filings :: f.name in names
    ensures Similar(MergedOver(Filed(filings), names), Total(filings))
  {
    hide Merged, NoDuplicates, Similar, Put, MergedOver;
    if filings == [] {
      NothingFiled(names);
      SimilarItself(BLANK);
    } else {
      var n := |filings| - 1;
      var init, last := filings[..n], filings[n];
      FiledMergeToTotal(init, names);
      TotalMore(filings);
      OneBucketGrows(Filed(init), names, last);
      MergedSimilar(MergedOver(Filed(init), names), Total(init), last.metrics);
      SimilarTransitive(MergedOver(Filed(filings), names), Merged(MergedOver(Filed(init), names), last.metrics), Total(filings));
    }
  }

  /** The contexts' buckets, merged in any order of names that covers them, are the
      run's. */
  lemma {:induction false} ContextsMergeToRun(segments: seq<Segment>, ledger: map<string, Entry>, names: seq<string>)
    requires NoDuplicates(names) && forall s | s in segments :: ContextOf(ledger, s) in names
    ensures Similar(MergedOver(Filed(ContextFilings(segments, ledger)), names), RunOf(segments))
  {
    hide MergedOver, MergedAll, NoDuplicates, Similar, SegmentMetrics;
    var filings := ContextFilings(segments, ledger);
    FiledMergeToTotal(filings, names);
    assert seq(|filings|, i requires 0 <= i < |filings| => filings[i].metrics) == Buckets(segments);
  }

  /** Buckets equal but for the order of their edges have one graph shape. */
  lemma {:induction false} SimilarShape(a: Metrics, b: Metrics)
    requires Similar(a, b)
    ensures ShapeOf(a.edges) == ShapeOf(b.edges)
  {
    hide ShapeOf;
    ShapeIgnoresOrder(a.edges, b.edges);
  }

  // ------------------------------------------------------------------- replays

  /** The log without the records of replayed attempts. */
  function Erased(attempts: seq<AttemptRecord>): seq<AttemptRecord> {
    if attempts == [] then []
    else
      var last, before := attempts[|attempts| - 1], Erased(attempts[..|attempts| - 1]);
      if last.Attempt? && last.replayed then before else before + [last]
  }

  /** Equal but for the issues counted as answered by corrections. */
  ghost predicate SameButFlagged(a: Metrics, b: Metrics) {
    && a.(counts := multiset{}) == b.(counts := multiset{})
    && forall k | k != CorrectionKey("flagged") :: a.counts[k] == b.counts[k]
  }

  lemma SameMerged(a: Metrics, b: Metrics, c: Metrics, d: Metrics)
    requires SameButFlagged(a, b) && SameButFlagged(c, d)
    ensures SameButFlagged(Merged(a, c), Merged(b, d))
  {
  }

  lemma SameWorth(r: AttemptRecord, i: map<AttemptId, nat>, j: map<AttemptId, nat>)
    ensures SameButFlagged(AttemptWorth(r, i), AttemptWorth(r, j))
  {
    hide CallWorth, Flagged;
    if r.Attempt? { SameCorrection(r, i, j); }
  }

  lemma SameCorrection(r: AttemptRecord, i: map<AttemptId, nat>, j: map<AttemptId, nat>)
    requires r.Attempt?
    ensures forall k | k != CorrectionKey("flagged") :: CorrectionWorth(r, i)[k] == CorrectionWorth(r, j)[k]
  {
    hide Flagged;
  }

  /** Erasing the replayed attempts changes no attempt, second or token total,
      whatever issues the corrections are looked up in. */
  lemma {:induction false} ErasingReplays(attempts: seq<AttemptRecord>, i: map<AttemptId, nat>, j: map<AttemptId, nat>)
    ensures SameButFlagged(AttemptsTotal(attempts, i), AttemptsTotal(Erased(attempts), j))
  {
    hide Merged, AttemptWorth, SameButFlagged;
    if attempts == [] {
      SameItself(BLANK);
    } else {
      var n := |attempts| - 1;
      var init, last := attempts[..n], attempts[n];
      ErasingReplays(init, i, j);
      if last.Attempt? && last.replayed {
        ReplayedWorthless(last, i);
        MergedIsAssociative(AttemptsTotal(init, i), BLANK, BLANK);
      } else {
        assert (Erased(init) + [last])[..|Erased(init)|] == Erased(init);
        SameWorth(last, i, j);
        SameMerged(AttemptsTotal(init, i), AttemptsTotal(Erased(init), j), AttemptWorth(last, i), AttemptWorth(last, j));
      }
    }
  }

  lemma SameItself(a: Metrics)
    ensures SameButFlagged(a, a)
  {
  }

  lemma ReplayedWorthless(r: AttemptRecord, i: map<AttemptId, nat>)
    requires r.Attempt? && r.replayed
    ensures AttemptWorth(r, i) == BLANK
  {
  }

  /** No correction answers an attempt that a replay restates. */
  ghost predicate NoReplayCorrected(attempts: seq<AttemptRecord>) {
    forall a, b | a in attempts && b in attempts && a.Attempt? && b.Attempt? && a.replayed && b.corrects.Some? ::
      b.corrects.value != a.id
  }

  lemma {:induction false} IssuesErased(attempts: seq<AttemptRecord>, id: AttemptId)
    requires forall a | a in attempts && a.Attempt? && a.replayed :: a.id != id
    ensures Flagged(IssuesById(attempts), id) == Flagged(IssuesById(Erased(attempts)), id)
  {
    if attempts != [] {
      var n := |attempts| - 1;
      IssuesErased(attempts[..n], id);
      var kept := Erased(attempts[..n]);
      assert (kept + [attempts[n]])[..|kept|] == kept;
    }
  }

  lemma {:induction false} SameTotals(attempts: seq<AttemptRecord>, i: map<AttemptId, nat>, j: map<AttemptId, nat>)
    requires forall a | a in attempts && a.Attempt? && a.corrects.Some? :: Flagged(i, a.corrects.value) == Flagged(j, a.corrects.value)
    ensures AttemptsTotal(attempts, i) == AttemptsTotal(Erased(attempts), j)
  {
    hide Merged, Flagged;
    if attempts != [] {
      var n := |attempts| - 1;
      var init, last := attempts[..n], attempts[n];
      SameTotals(init, i, j);
      if last.Attempt? && last.replayed {
        MergedIsAssociative(AttemptsTotal(init, i), BLANK, BLANK);
      } else {
        assert (Erased(init) + [last])[..|Erased(init)|] == Erased(init);
      }
    }
  }

  /** A log is worth as much without its replayed attempts: all it was but for the
      flagged issues, and all it was when no correction answers a replay. */
  lemma {:induction false} ReplaysCostNothing(attempts: seq<AttemptRecord>)
    ensures var before := AttemptsTotal(attempts, IssuesById(attempts));
      var after := AttemptsTotal(Erased(attempts), IssuesById(Erased(attempts)));
      SameButFlagged(before, after) && (NoReplayCorrected(attempts) ==> before == after)
  {
    hide SameButFlagged, IssuesById, AttemptsTotal, Erased, Flagged;
    var i, j := IssuesById(attempts), IssuesById(Erased(attempts));
    ErasingReplays(attempts, i, j);
    if NoReplayCorrected(attempts) {
      forall a | a in attempts && a.Attempt? && a.corrects.Some?
        ensures Flagged(i, a.corrects.value) == Flagged(j, a.corrects.value)
      {
        IssuesErased(attempts, a.corrects.value);
      }
      SameTotals(attempts, i, j);
    }
  }

  function WithoutReplays(segments: seq<Segment>): (r: seq<Segment>)
    ensures |r| == |segments|
  {
    seq(|segments|, i requires 0 <= i < |segments| => segments[i].(attempts := Erased(segments[i].attempts)))
  }

  lemma {:induction false} SegmentWithoutReplays(s: Segment)
    ensures var t := s.(attempts := Erased(s.attempts));
      && SameButFlagged(SegmentMetrics(s), SegmentMetrics(t))
      && (NoReplayCorrected(s.attempts) ==> SegmentMetrics(s) == SegmentMetrics(t))
  {
    hide Merged, SameButFlagged, IssuesById, AttemptsTotal, Erased, NoReplayCorrected, TraceTotal;
    var before := Merged(if s.failed then BLANK.(failed := 1) else BLANK.(segments := 1), TraceTotal(s.trace));
    ReplaysCostNothing(s.attempts);
    SameItself(before);
    SameMerged(before, before, AttemptsTotal(s.attempts, IssuesById(s.attempts)),
               AttemptsTotal(Erased(s.attempts), IssuesById(Erased(s.attempts))));
  }

  /** The whole run without any log's replayed attempts: the same attempt, second and
      token totals, and the same bucket when no correction answers a replay. */
  lemma {:induction false} RunWithoutReplays(segments: seq<Segment>)
    ensures SameButFlagged(RunOf(segments), RunOf(WithoutReplays(segments)))
    ensures (forall s | s in segments :: NoReplayCorrected(s.attempts)) ==> RunOf(segments) == RunOf(WithoutReplays(segments))
  {
    hide Merged, SameButFlagged, SegmentMetrics, NoReplayCorrected, Erased;
    if segments == [] {
      SameItself(BLANK);
    } else {
      var n := |segments| - 1;
      var init, last := segments[..n], segments[n];
      var t := last.(attempts := Erased(last.attempts));
      RunWithoutReplays(init);
      SegmentWithoutReplays(last);
      assert WithoutReplays(segments)[..n] == WithoutReplays(init);
      FirstBuckets(segments, n);
      FirstBuckets(WithoutReplays(segments), n);
      SameMerged(RunOf(init), RunOf(WithoutReplays(init)), SegmentMetrics(last), SegmentMetrics(t));
    }
  }

  // ------------------------------------------------------- what every bucket keeps

  /** The counters agree with the lists and sums beside them. */
  ghost predicate Consistent(m: Metrics) {
    && m.counts[Kept("association")] == |m.edges|
    && m.lost.input <= m.spent.input && m.lost.output <= m.spent.output
    && m.counts[ParagraphKey("covered")] <= m.counts[ParagraphKey("total")]
    && m.counts[ParagraphKey("covered_bytes")] <= m.counts[ParagraphKey("bytes")]
    && m.counts[CorrectionKey("resolved")] + m.counts[CorrectionKey("unresolved")] == m.counts[CorrectionKey("total")]
    && m.counts[CorrectionKey("total")] <= m.counts[CorrectionKey("flagged")]
  }

  lemma MergedConsistent(a: Metrics, b: Metrics)
    requires Consistent(a) && Consistent(b)
    ensures Consistent(Merged(a, b))
  {
  }

  lemma {:induction false} TraceConsistent(r: TraceRecord)
    ensures Consistent(TraceWorth(r))
  {
    hide ParagraphWorth;
    if r.Paragraph? { ParagraphKeys(r.bytes, r.covered); }
  }

  lemma ParagraphKeys(bytes: nat, covered: bool)
    ensures var c := ParagraphWorth(bytes, covered);
      && (forall k: Key | !k.ParagraphKey? :: c[k] == 0)
      && c[ParagraphKey("covered")] <= c[ParagraphKey("total")]
      && c[ParagraphKey("covered_bytes")] <= c[ParagraphKey("bytes")]
  {
  }

  lemma CallKeys(state: string, retries: nat)
    ensures forall k: Key | !k.AttemptKey? :: CallWorth(state, retries)[k] == 0
  {
  }

  lemma CorrectionKeys(r: AttemptRecord, i: map<AttemptId, nat>)
    requires r.Attempt?
    ensures forall k: Key | !k.CorrectionKey? :: CorrectionWorth(r, i)[k] == 0
    ensures var c := CorrectionWorth(r, i);
      && c[CorrectionKey("resolved")] + c[CorrectionKey("unresolved")] == c[CorrectionKey("total")]
      && c[CorrectionKey("total")] <= c[CorrectionKey("flagged")]
  {
  }

  lemma {:induction false} AttemptConsistent(r: AttemptRecord, i: map<AttemptId, nat>)
    ensures Consistent(AttemptWorth(r, i))
  {
    hide CallWorth, CorrectionWorth;
    if r.Attempt? {
      CallKeys(r.state, r.retries);
      CorrectionKeys(r, i);
    }
  }

  lemma {:induction false} TraceTotalConsistent(trace: seq<TraceRecord>)
    ensures Consistent(TraceTotal(trace))
  {
    hide Merged, TraceWorth;
    if trace != [] {
      var n := |trace| - 1;
      TraceTotalConsistent(trace[..n]);
      TraceConsistent(trace[n]);
      MergedConsistent(TraceTotal(trace[..n]), TraceWorth(trace[n]));
    }
  }

  lemma {:induction false} AttemptsConsistent(attempts: seq<AttemptRecord>, i: map<AttemptId, nat>)
    ensures Consistent(AttemptsTotal(attempts, i))
  {
    hide Merged, AttemptWorth;
    if attempts != [] {
      var n := |attempts| - 1;
      AttemptsConsistent(attempts[..n], i);
      AttemptConsistent(attempts[n], i);
      MergedConsistent(AttemptsTotal(attempts[..n], i), AttemptWorth(attempts[n], i));
    }
  }

  lemma SegmentConsistent(s: Segment)
    ensures Consistent(SegmentMetrics(s))
  {
    hide Merged, TraceTotal, AttemptsTotal;
    var landed := if s.failed then BLANK.(failed := 1) else BLANK.(segments := 1);
    TraceTotalConsistent(s.trace);
    AttemptsConsistent(s.attempts, IssuesById(s.attempts));
    MergedConsistent(landed, TraceTotal(s.trace));
    MergedConsistent(Merged(landed, TraceTotal(s.trace)), AttemptsTotal(s.attempts, IssuesById(s.attempts)));
  }

  /** The run's bucket counts an association per edge, loses no more than it
      spends, and settles every correction one way. */
  lemma {:induction false} RunConsistent(segments: seq<Segment>)
    ensures Consistent(RunOf(segments))
  {
    hide Merged, SegmentMetrics;
    if segments != [] {
      var n := |segments| - 1;
      FirstBuckets(segments, n);
      RunConsistent(segments[..n]);
      SegmentConsistent(segments[n]);
      MergedConsistent(RunOf(segments[..n]), SegmentMetrics(segments[n]));
    }
  }

  // -------------------------------------------------------------- what the run counts

  function FailedPlaces(segments: seq<Segment>): set<nat> {
    set i: nat | i < |segments| && segments[i].failed
  }

  /** The run counts every segment once, as failed or not. */
  lemma {:induction false} RunSegments(segments: seq<Segment>)
    ensures RunOf(segments).failed == |FailedPlaces(segments)|
    ensures RunOf(segments).segments + RunOf(segments).failed == |segments|
  {
    hide SegmentMetrics;
    if segments != [] {
      var n := |segments| - 1;
      FirstBuckets(segments, n);
      RunSegments(segments[..n]);
      SegmentLands(segments[n]);
      assert FailedPlaces(segments) == FailedPlaces(segments[..n]) + if segments[n].failed then {n} else {};
    }
  }

  lemma SegmentLands(s: Segment)
    ensures SegmentMetrics(s).segments == (if s.failed then 0 else 1) && SegmentMetrics(s).failed == (if s.failed then 1 else 0)
  {
    hide TraceTotal, AttemptsTotal, IssuesById;
    TraceLandsNothing(s.trace);
    AttemptsLandNothing(s.attempts, IssuesById(s.attempts));
  }

  lemma {:induction false} TraceLandsNothing(trace: seq<TraceRecord>)
    ensures TraceTotal(trace).segments == 0 && TraceTotal(trace).failed == 0
  {
    hide TraceWorth;
    if trace != [] {
      TraceLandsNothing(trace[..|trace| - 1]);
      OneLands(trace[|trace| - 1]);
    }
  }

  lemma OneLands(r: TraceRecord)
    ensures TraceWorth(r).segments == 0 && TraceWorth(r).failed == 0
  {
    hide ParagraphWorth, Times;
  }

  lemma {:induction false} AttemptsLandNothing(attempts: seq<AttemptRecord>, issues: map<AttemptId, nat>)
    ensures AttemptsTotal(attempts, issues).segments == 0 && AttemptsTotal(attempts, issues).failed == 0
  {
    hide AttemptWorth;
    if attempts != [] {
      AttemptsLandNothing(attempts[..|attempts| - 1], issues);
      AttemptLands(attempts[|attempts| - 1], issues);
    }
  }

  lemma AttemptLands(r: AttemptRecord, issues: map<AttemptId, nat>)
    ensures AttemptWorth(r, issues).segments == 0 && AttemptWorth(r, issues).failed == 0
  {
    hide CallWorth, CorrectionWorth, Times;
  }

  // ------------------------------------------------------------- what is filed where

  lemma {:induction false} FiledNames(filings: seq<Filing>, name: string)
    ensures name in Filed(filings) <==> Names(filings, name)
  {
    hide Merged;
    if filings != [] { FiledNames(filings[..|filings| - 1], name); }
  }

  /** A context has a bucket when a segment of it is rolled up; a segment whose source
      the ledger assigns to none is under "(unassigned)". */
  lemma {:induction false} ContextNames(segments: seq<Segment>, ledger: map<string, Entry>, name: string)
    ensures name in Filed(ContextFilings(segments, ledger)) <==>
      exists i | 0 <= i < |segments| ::
        var placed := segments[i].source in ledger && ledger[segments[i].source].context.Some?;
        if placed then ledger[segments[i].source].context == Some(name) else name == "(unassigned)"
  {
    hide SegmentMetrics;
    var filings := ContextFilings(segments, ledger);
    FiledNames(filings, name);
    hide Filed;
    assert forall i | 0 <= i < |segments| :: filings[i].name == ContextOf(ledger, segments[i]);
  }

  /** A group has one when a segment is listed in it; a segment listed in none is under
      its output directory. */
  lemma {:induction false} GroupNames(segments: seq<Segment>, ledger: map<string, Entry>, name: string)
    ensures name in Filed(GroupFilings(segments, ledger)) <==>
      exists i | 0 <= i < |segments| ::
        var listed := segments[i].source in ledger && ledger[segments[i].source].groups != [];
        if listed then name in ledger[segments[i].source].groups else name == segments[i].outDir
  {
    hide SegmentMetrics, Filed;
    FiledNames(GroupFilings(segments, ledger), name);
    GroupFilingNames(segments, ledger, name);
  }

  /** Some filing has the name. */
  predicate Names(filings: seq<Filing>, name: string) {
    exists i | 0 <= i < |filings| :: filings[i].name == name
  }

  lemma {:induction false} GroupFilingNames(segments: seq<Segment>, ledger: map<string, Entry>, name: string)
    ensures Names(GroupFilings(segments, ledger), name)
       <==> exists i | 0 <= i < |segments| :: name in MembershipsOf(ledger, segments[i])
  {
    hide SegmentMetrics, MembershipsOf, Names;
    if segments == [] {
      NoNames(name);
    } else {
      var n := |segments| - 1;
      var init, last := segments[..n], segments[n];
      GroupFilingNames(init, ledger, name);
      UnderNames(MembershipsOf(ledger, last), SegmentMetrics(last), name);
      NamedIn(GroupFilings(init, ledger), UnderEach(MembershipsOf(ledger, last), SegmentMetrics(last)), name);
      assert forall i | 0 <= i < n :: init[i] == segments[i];
    }
  }

  lemma NoNames(name: string)
    ensures !Names([], name)
  {
  }

  lemma UnderNames(names: seq<string>, m: Metrics, name: string)
    ensures Names(UnderEach(names, m), name) <==> name in names
  {
    if name in names {
      var i :| 0 <= i < |names| && names[i] == name;
      assert UnderEach(names, m)[i].name == name;
    }
  }

  lemma NamedIn(a: seq<Filing>, b: seq<Filing>, name: string)
    ensures Names(a + b, name) <==> Names(a, name) || Names(b, name)
  {
    if i :| 0 <= i < |b| && b[i].name == name { assert (a + b)[|a| + i].name == name; }
    if i :| 0 <= i < |a| && a[i].name == name { assert (a + b)[i].name == name; }
  }
}
