/** Searching and explaining: the loops over postings, and the proof that they
    answer from the table. */
module Bm25Search {
  import opened Common
  import opened Floats
  import opened Orders
  import opened Bm25Table
  import opened Bm25State
  import opened Bm25Query

  // ---------------------------------------------------------------------- search

  /** What the search has accumulated after the terms `grams`: a score for every
      eligible live slot carrying one of them, and no other key. */
  ghost predicate Scored(sc: Scoring, v: State, grams: seq<u64>, eligible: Option<set<Name>>, scores: map<u32, Score>)
    requires Listed(v) && Posted(v)
  {
    && (forall i | i in scores :: Candidate(v, grams, eligible, i))
    && (forall i | 0 <= i < |v.slots| && Candidate(v, grams, eligible, i) :: i in scores)
    && (forall i | i in scores :: i < |v.slots| && scores[i] == DocScore(sc, TableOf(v), grams, RowOf(v, i)))
  }

  ghost predicate Candidate(v: State, grams: seq<u64>, eligible: Option<set<Name>>, i: nat)
    requires Listed(v) && Posted(v)
  {
    && i < |v.slots| && v.slots[i].alive
    && Eligible(eligible, v.sources[v.slots[i].sourceId])
    && Carries(TableOf(v), grams, RowOf(v, i))
  }

  lemma {:induction false} ScoreOfNone(sc: Scoring, t: Table, grams: seq<u64>, d: DocRow)
    requires !Carries(t, grams, d)
    ensures DocScore(sc, t, grams, d) == sc.zero
  {
    if grams != [] {
      var g := grams[|grams| - 1];
      assert g in grams && Tf(t, g, d) == ZERO;
      ScoreOfNone(sc, t, grams[..|grams| - 1], d);
    }
  }

  lemma CarriesMore(t: Table, grams: seq<u64>, g: u64, d: DocRow)
    ensures Carries(t, grams + [g], d) <==> Carries(t, grams, d) || Tf(t, g, d) != ZERO
  {
    assert g in grams + [g];
  }

  /** The live postings of a term. */
  method AlivePostings(v: State, list: seq<Posting>) returns (alive: seq<Posting>)
    requires PostingList(list, |v.slots|)
    ensures alive == AliveOf(v.slots, list)
  {
    alive := [];
    for k := 0 to |list|
      invariant alive == AliveOf(v.slots, list[..k])
    {
      assert list[..k + 1][..k] == list[..k];
      if v.slots[list[k].slot].alive {
        alive := alive + [list[k]];
      }
    }
    assert list[..|list|] == list;
  }

  /** The addend of one posting. */
  function PostingAddend(sc: Scoring, v: State, idf: Score, p: Posting): Score
    requires p.slot < |v.slots|
  {
    sc.contribution(idf, p.tf, v.slots[p.slot].length, sc.average(v.liveCount, v.liveTotalLength))
  }

  function ScoreOr(scores: map<u32, Score>, i: u32, default: Score): Score {
    if i in scores then scores[i] else default
  }

  /** Whether the filter, one membership bit a source, lets the slot through. */
  predicate Allowed(v: State, allowed: Option<seq<bool>>, i: nat)
    requires i < |v.slots|
    requires allowed.Some? ==> v.slots[i].sourceId < |allowed.value|
  {
    allowed.None? || allowed.value[v.slots[i].sourceId]
  }

  ghost predicate Bits(v: State, allowed: Option<seq<bool>>, eligible: Option<set<Name>>) {
    && (eligible.None? <==> allowed.None?)
    && (eligible.Some? ==> |allowed.value| == |v.sources|)
    && (eligible.Some? ==> forall id | 0 <= id < |v.sources| :: allowed.value[id] <==> v.sources[id] in eligible.value)
  }

  function SlotsOf(ps: seq<Posting>): set<u32> {
    set p | p in ps :: p.slot
  }

  /** The postings `ps` added to the scores. */
  ghost predicate Added(sc: Scoring, v: State, idf: Score, ps: seq<Posting>, scores: map<u32, Score>, after: map<u32, Score>)
    requires forall p | p in ps :: p.slot < |v.slots|
  {
    && after.Keys == scores.Keys + SlotsOf(ps)
    && (forall p | p in ps :: p.slot in after
          && after[p.slot] == sc.add(ScoreOr(scores, p.slot, sc.zero), PostingAddend(sc, v, idf, p)))
    && (forall i | i in scores && i !in SlotsOf(ps) :: after[i] == scores[i])
  }

  lemma AddedStep(sc: Scoring, v: State, idf: Score, ps: seq<Posting>, scores: map<u32, Score>, after: map<u32, Score>,
                  p: Posting)
    requires (forall q | q in ps :: q.slot < |v.slots|) && p.slot < |v.slots| && p.slot !in SlotsOf(ps)
    requires Added(sc, v, idf, ps, scores, after)
    ensures Added(sc, v, idf, ps + [p], scores,
                  after[p.slot := sc.add(ScoreOr(after, p.slot, sc.zero), PostingAddend(sc, v, idf, p))])
  {
    hide PostingAddend;
    assert SlotsOf(ps + [p]) == SlotsOf(ps) + {p.slot};
    forall q | q in ps ensures q.slot in SlotsOf(ps) { }
  }

  /** Adds one term's contributions to the slots it touches; the postings the
      filter lets through are `ps`. */
  method AddTerm(sc: Scoring, v: State, idf: Score, alive: seq<Posting>, allowed: Option<seq<bool>>,
                 scores: map<u32, Score>)
    returns (after: map<u32, Score>, ghost ps: seq<Posting>)
    requires Listed(v) && PostingList(alive, |v.slots|)
    requires allowed.Some? ==> |allowed.value| == |v.sources|
    ensures forall p :: p in ps <==> p in alive && Allowed(v, allowed, p.slot)
    ensures Added(sc, v, idf, ps, scores, after)
  {
    after, ps := scores, [];
    assert Added(sc, v, idf, ps, scores, after);
    hide Added, Positive, SlotList, PostingAddend, ScoreOr;
    for n := 0 to |alive|
      invariant forall p :: p in ps <==> p in alive[..n] && Allowed(v, allowed, p.slot)
      invariant Added(sc, v, idf, ps, scores, after)
    {
      var p := alive[n];
      assert alive[..n + 1] == alive[..n] + [p];
      if Allowed(v, allowed, p.slot) {
        AddedStep(sc, v, idf, ps, scores, after, p);
        after := after[p.slot := sc.add(ScoreOr(after, p.slot, sc.zero), PostingAddend(sc, v, idf, p))];
        ps := ps + [p];
      }
    }
    assert alive[..|alive|] == alive;
  }

  lemma {:induction false} SkippedSlot(sc: Scoring, v: State, grams: seq<u64>, g: u64, i: nat)
    requires Sound(v) && i < |v.slots| && v.slots[i].alive
    requires PostingList(Post(v.postings, g), |v.slots|) && AliveOf(v.slots, Post(v.postings, g)) == []
    ensures Carries(TableOf(v), grams + [g], RowOf(v, i)) <==> Carries(TableOf(v), grams, RowOf(v, i))
    ensures DocScore(sc, TableOf(v), grams + [g], RowOf(v, i)) == DocScore(sc, TableOf(v), grams, RowOf(v, i))
  {
    var list := Post(v.postings, g);
    forall k | 0 <= k < |list| ensures list[k].slot != i {
      AliveOfIn(v.slots, list, list[k]);
    }
    FindTfAt(list, i);
    TfAgrees(v, g, i);
    CarriesMore(TableOf(v), grams, g, RowOf(v, i));
    assert (grams + [g])[..|grams|] == grams;
    hide Sound, Interned, Listed, Posted, Tf, Carries, TableOf;
  }

  lemma {:induction false} SkipTerm(sc: Scoring, v: State, grams: seq<u64>, g: u64, eligible: Option<set<Name>>, scores: map<u32, Score>)
    requires Sound(v) && Scored(sc, v, grams, eligible, scores)
    requires PostingList(Post(v.postings, g), |v.slots|) && AliveOf(v.slots, Post(v.postings, g)) == []
    ensures Scored(sc, v, grams + [g], eligible, scores)
  {
    hide Interned, Posted, Distinct, Counted, SlotList, Positive, DocScore, Tf, Carries, TableOf, AliveOf;
    forall i: nat | i < |v.slots| && v.slots[i].alive
      ensures Candidate(v, grams + [g], eligible, i) <==> Candidate(v, grams, eligible, i)
      ensures DocScore(sc, TableOf(v), grams + [g], RowOf(v, i)) == DocScore(sc, TableOf(v), grams, RowOf(v, i))
    {
      SkippedSlot(sc, v, grams, g, i);
    }
  }

  /** The live posting of a slot carries its paragraph's frequency, and there is one
      exactly when the paragraph carries the term. */
  lemma AliveTf(v: State, g: u64, i: nat)
    requires Sound(v) && PostingList(Post(v.postings, g), |v.slots|) && i < |v.slots| && v.slots[i].alive
    ensures var alive, tf := AliveOf(v.slots, Post(v.postings, g)), Tf(TableOf(v), g, RowOf(v, i));
      && (tf != ZERO <==> exists p :: p in alive && p.slot == i)
      && (forall p | p in alive && p.slot == i :: tf == p.tf)
  {
    var list := Post(v.postings, g);
    TfAgrees(v, g, i);
    FindTfAt(list, i);
    hide Interned, Measured, Distinct, Posted, Counted, SlotList, TableOf, Tf, AliveOf, FindTf;
    forall p ensures p in AliveOf(v.slots, list) <==> p in list && v.slots[p.slot].alive {
      AliveOfIn(v.slots, list, p);
    }
  }

  /** One more term: what `AddTerm` computes is the score with that term. */
  lemma AddedTerm(sc: Scoring, v: State, grams: seq<u64>, g: u64, scores: map<u32, Score>, i: nat)
    requires Sound(v) && PostingList(Post(v.postings, g), |v.slots|) && i < |v.slots| && v.slots[i].alive
    requires i in scores ==> scores[i] == DocScore(sc, TableOf(v), grams, RowOf(v, i))
    requires i !in scores ==> !Carries(TableOf(v), grams, RowOf(v, i))
    ensures var alive := AliveOf(v.slots, Post(v.postings, g));
      && (Carries(TableOf(v), grams + [g], RowOf(v, i))
          <==> Carries(TableOf(v), grams, RowOf(v, i)) || exists p :: p in alive && p.slot == i)
      && (forall p | p in alive && p.slot == i ::
            (DocScore(sc, TableOf(v), grams + [g], RowOf(v, i))
             == sc.add(ScoreOr(scores, i, sc.zero), PostingAddend(sc, v, Idf(sc, TableOf(v), g), p))))
      && ((forall p | p in alive :: p.slot != i) ==>
            DocScore(sc, TableOf(v), grams + [g], RowOf(v, i)) == DocScore(sc, TableOf(v), grams, RowOf(v, i)))
  {
    hide Interned, Measured, Distinct, Posted, Counted, SlotList, TableOf, Tf, AliveOf, Carries, Positive, Idf;
    var t, d := TableOf(v), RowOf(v, i);
    AliveTf(v, g, i);
    CountersAgree(v);
    CarriesMore(t, grams, g, d);
    assert (grams + [g])[..|grams|] == grams;
    if i !in scores { ScoreOfNone(sc, t, grams, d); }
  }

  /** The score of every eligible paragraph the query touches. */
  method ScoreSlots(sc: Scoring, v: State, grams: seq<u64>, ghost eligible: Option<set<Name>>, allowed: Option<seq<bool>>)
    returns (scores: map<u32, Score>)
    requires Sound(v) && Bits(v, allowed, eligible)
    ensures Scored(sc, v, grams, eligible, scores)
  {
    hide Interned, Posted, Distinct, Counted, SlotList;
    scores := map[];
    NothingScored(sc, v, eligible);
    assert grams[..0] == [];
    for j := 0 to |grams|
      invariant Scored(sc, v, grams[..j], eligible, scores)
    {
      var g := grams[j];
      assert grams[..j + 1] == grams[..j] + [g];
      var list := Post(v.postings, g);
      CarriersAgree(v, g);
      CountersAgree(v);
      AliveOfSorted(v.slots, list, |v.slots|);
      var alive := AlivePostings(v, list);
      if alive == [] {
        SkipTerm(sc, v, grams[..j], g, eligible, scores);
      } else {
        var idf := sc.idf(v.liveCount, |alive|);
        ghost var ps;
        var after;
        after, ps := AddTerm(sc, v, idf, alive, allowed, scores);
        ScoredStep(sc, v, grams[..j], g, eligible, allowed, ps, scores, after);
        scores := after;
      }
    }
    assert grams[..|grams|] == grams;
  }

  lemma NothingScored(sc: Scoring, v: State, eligible: Option<set<Name>>)
    requires Sound(v)
    ensures Scored(sc, v, [], eligible, map[])
  {
  }

  lemma {:induction false} ScoredStep(sc: Scoring, v: State, grams: seq<u64>, g: u64, eligible: Option<set<Name>>,
                   allowed: Option<seq<bool>>, ps: seq<Posting>, scores: map<u32, Score>, after: map<u32, Score>)
    requires Sound(v) && Scored(sc, v, grams, eligible, scores) && Bits(v, allowed, eligible)
    requires PostingList(Post(v.postings, g), |v.slots|)
    requires forall p | p in AliveOf(v.slots, Post(v.postings, g)) :: p.slot < |v.slots|
    requires forall p :: p in ps <==> p in AliveOf(v.slots, Post(v.postings, g)) && Allowed(v, allowed, p.slot)
    requires Added(sc, v, Idf(sc, TableOf(v), g), ps, scores, after)
    ensures Scored(sc, v, grams + [g], eligible, after)
  {
    hide Interned, Posted, Distinct, Counted, SlotList, Positive, PostingAddend, DocScore, Tf, Carries, TableOf, Idf, AliveOf;
    forall p | p in ps ensures v.slots[p.slot].alive {
      AliveOfIn(v.slots, Post(v.postings, g), p);
    }
    forall i: nat | i < |v.slots| && v.slots[i].alive
      ensures Candidate(v, grams + [g], eligible, i) <==> i in after
      ensures i in after ==> after[i] == DocScore(sc, TableOf(v), grams + [g], RowOf(v, i))
    {
      ScoredSlot(sc, v, grams, g, eligible, allowed, ps, scores, after, i);
    }
    forall i | i in after ensures i < |v.slots| && v.slots[i].alive {
      if i in scores { assert Candidate(v, grams, eligible, i); }
    }
  }

  lemma ScoredSlot(sc: Scoring, v: State, grams: seq<u64>, g: u64, eligible: Option<set<Name>>,
                   allowed: Option<seq<bool>>, ps: seq<Posting>, scores: map<u32, Score>, after: map<u32, Score>, i: nat)
    requires Sound(v) && Scored(sc, v, grams, eligible, scores) && Bits(v, allowed, eligible)
    requires PostingList(Post(v.postings, g), |v.slots|)
    requires forall p | p in AliveOf(v.slots, Post(v.postings, g)) :: p.slot < |v.slots|
    requires forall p :: p in ps <==> p in AliveOf(v.slots, Post(v.postings, g)) && Allowed(v, allowed, p.slot)
    requires Added(sc, v, Idf(sc, TableOf(v), g), ps, scores, after)
    requires i < |v.slots| && v.slots[i].alive
    ensures Candidate(v, grams + [g], eligible, i) <==> i in after
    ensures i in after ==> after[i] == DocScore(sc, TableOf(v), grams + [g], RowOf(v, i))
  {
    hide Interned, Posted, Distinct, Counted, SlotList, Positive, PostingAddend, DocScore, Tf, Carries, TableOf, Idf, AliveOf;
    assert Candidate(v, grams, eligible, i) <==> i in scores;
    assert Allowed(v, allowed, i) <==> Eligible(eligible, v.sources[v.slots[i].sourceId]);
    if Allowed(v, allowed, i) {
      AddedTerm(sc, v, grams, g, scores, i);
      var alive := AliveOf(v.slots, Post(v.postings, g));
      if exists p :: p in alive && p.slot == i {
        var p :| p in alive && p.slot == i;
        assert p in ps;
      }
    }
  }

  // -------------------------------------------------------------------- ranking

  function SlotHit(v: State, i: nat, score: Score): Hit
    requires i < |v.slots| && v.slots[i].sourceId < |v.sources|
  {
    Hit(v.sources[v.slots[i].sourceId], v.slots[i].index, v.slots[i].hash, score)
  }

  /** The scored slots as hits, in whatever order the map yields them. */
  method CollectHits(v: State, scores: map<u32, Score>) returns (hits: seq<Hit>)
    requires Sound(v) && forall i | i in scores :: i < |v.slots| && v.slots[i].alive
    ensures Elements(hits) == set i | i in scores :: SlotHit(v, i, scores[i])
    ensures NoDuplicates(hits)
  {
    hide Interned, Distinct, Posted, Counted, SlotList;
    hits := [];
    var todo := scores.Keys;
    while todo != {}
      invariant todo <= scores.Keys
      invariant forall h :: h in hits <==> exists i :: i in scores && i !in todo && h == SlotHit(v, i, scores[i])
      invariant NoDuplicates(hits)
    {
      var i :| i in todo;
      var hit := SlotHit(v, i, scores[i]);
      forall j | j in scores && j !in todo ensures hit != SlotHit(v, j, scores[j]) {
        RowInjective(v, i, j);
      }
      assert hit !in hits;
      hits := hits + [hit];
      todo := todo - {i};
    }
  }

  /** The top `limit` live paragraphs for a query, whatever order the maps are
      walked in. */
  method Search(sc: Scoring, v: State, grams: seq<u64>, limit: nat, eligible: Option<set<Name>>) returns (hits: seq<Hit>)
    requires Sound(v)
    ensures Best(hits, Matches(sc, TableOf(v), grams, eligible), limit)
  {
    hide Interned, Listed, Measured, Distinct, Posted, Counted, TableOf, Matches, Best, Scored, SlotHit, HitOf, HitBefore, Keyed;
    CountersAgree(v);
    if v.liveCount == 0 || grams == [] {
      NoMatch(sc, TableOf(v), grams, eligible, limit);
      return [];
    }
    var allowed := None;
    if eligible.Some? {
      allowed := Some(seq(|v.sources|, id requires 0 <= id < |v.sources| => v.sources[id] in eligible.value));
    }
    var scores := ScoreSlots(sc, v, grams, eligible, allowed);
    ScoredAlive(sc, v, grams, eligible, scores);
    var found := CollectHits(v, scores);
    ScoredMatches(sc, v, grams, eligible, scores, found);
    TableKeyed(v);
    HitOrder(sc, TableOf(v), grams, Elements(found));
    var ranked := Sort(found, HitBefore);
    SortedBest(found, limit);
    hits := ranked[..Min(limit, |ranked|)];
  }

  lemma ScoredAlive(sc: Scoring, v: State, grams: seq<u64>, eligible: Option<set<Name>>, scores: map<u32, Score>)
    requires Sound(v) && Scored(sc, v, grams, eligible, scores)
    ensures forall i | i in scores :: i < |v.slots| && v.slots[i].alive && v.slots[i].sourceId < |v.sources|
  {
    hide Interned, Measured, Distinct, Posted, Counted, SlotList, TableOf, DocScore, Carries;
    forall i | i in scores ensures Candidate(v, grams, eligible, i) { }
  }

  lemma SortedBest(found: seq<Hit>, limit: nat)
    requires TotalOn(HitBefore, Elements(found)) && NoDuplicates(found)
    ensures var ranked := Sort(found, HitBefore); Best(ranked[..Min(limit, |ranked|)], Elements(found), limit)
  {
    hide HitBefore;
    SortSorts(found, HitBefore);
  }

  lemma NoMatch(sc: Scoring, t: Table, grams: seq<u64>, eligible: Option<set<Name>>, limit: nat)
    requires t.docs == {} || grams == []
    ensures Best([], Matches(sc, t, grams, eligible), limit)
  {
    var ranked: seq<Hit> := [];
    assert Elements(ranked) == Matches(sc, t, grams, eligible);
    assert [] == ranked[..Min(limit, |ranked|)];
  }

  lemma ScoredIsMatch(sc: Scoring, v: State, grams: seq<u64>, eligible: Option<set<Name>>, scores: map<u32, Score>, i: u32)
    requires Sound(v) && Scored(sc, v, grams, eligible, scores) && i in scores
    ensures i < |v.slots| && v.slots[i].alive && RowOf(v, i) in TableOf(v).docs
    ensures SlotHit(v, i, scores[i]) == HitOf(sc, TableOf(v), grams, RowOf(v, i))
    ensures SlotHit(v, i, scores[i]) in Matches(sc, TableOf(v), grams, eligible)
  {
    assert Candidate(v, grams, eligible, i);
    RowIn(v, i);
    hide Interned, Measured, Distinct, Posted, Counted, SlotList, DocScore, Carries, TableOf;
  }

  lemma MatchIsScored(sc: Scoring, v: State, grams: seq<u64>, eligible: Option<set<Name>>, scores: map<u32, Score>, h: Hit)
    returns (i: u32)
    requires Sound(v) && Scored(sc, v, grams, eligible, scores) && h in Matches(sc, TableOf(v), grams, eligible)
    ensures i in scores && i < |v.slots| && h == SlotHit(v, i, scores[i])
  {
    hide Interned, Measured, Distinct, Posted, Counted, SlotList, DocScore, Carries;
    var t := TableOf(v);
    var d :| d in t.docs && Carries(t, grams, d) && Eligible(eligible, d.source) && h == HitOf(sc, t, grams, d);
    var k: nat :| k < |v.slots| && v.slots[k].alive && RowOf(v, k) == d;
    assert Candidate(v, grams, eligible, k);
    i := k;
  }

  lemma {:induction false} ScoredMatches(sc: Scoring, v: State, grams: seq<u64>, eligible: Option<set<Name>>,
                      scores: map<u32, Score>, found: seq<Hit>)
    requires Sound(v) && Scored(sc, v, grams, eligible, scores)
    requires forall i | i in scores :: i < |v.slots| && v.slots[i].sourceId < |v.sources|
    requires Elements(found) == set i | i in scores :: SlotHit(v, i, scores[i])
    ensures Elements(found) == Matches(sc, TableOf(v), grams, eligible)
    ensures forall h | h in Elements(found) ::
              exists d :: d in TableOf(v).docs && h == HitOf(sc, TableOf(v), grams, d)
  {
    hide Interned, Listed, Measured, Distinct, Posted, Counted, Scored, TableOf, SlotHit, HitOf, Matches;
    forall i | i in scores
      ensures SlotHit(v, i, scores[i]) in Matches(sc, TableOf(v), grams, eligible)
      ensures exists d :: d in TableOf(v).docs && SlotHit(v, i, scores[i]) == HitOf(sc, TableOf(v), grams, d)
    {
      ScoredIsMatch(sc, v, grams, eligible, scores, i);
    }
    forall h | h in Matches(sc, TableOf(v), grams, eligible) ensures h in Elements(found) {
      var i := MatchIsScored(sc, v, grams, eligible, scores, h);
    }
  }

  // -------------------------------------------------------------------- explain

  /** The frequency of a slot under a term: the first posting that names it. */
  method PostedTf(list: seq<Posting>, i: nat) returns (tf: F32)
    ensures tf == FindTf(list, i)
  {
    for k := 0 to |list|
      invariant FindTf(list, i) == FindTf(list[k..], i)
    {
      if list[k].slot == i {
        return list[k].tf;
      }
      assert list[k..][1..] == list[k + 1..];
    }
    return ZERO;
  }

  /** One live paragraph's evidence against a query; nothing for a paragraph the
      index does not hold. */
  method Explain(sc: Scoring, v: State, grams: seq<u64>, source: Name, index: u32) returns (e: Option<IndexEvidence>)
    requires Sound(v) && sc.Lawful()
    ensures e.None? <==> forall d | d in TableOf(v).docs :: d.source != source || d.index != index
    ensures forall d | d in TableOf(v).docs && d.source == source && d.index == index ::
              e == Some(EvidenceOf(sc, TableOf(v), grams, d))
  {
    var found, i := FindSlot(v, source, index);
    if !found {
      return None;
    }
    RowIn(v, i);
    TableKeyed(v);
    var terms, score := ExplainSlot(sc, v, grams, i);
    return Some(IndexEvidence(v.slots[i].hash, score, terms));
  }

  /** The live slot of a paragraph, by its source's list. */
  method FindSlot(v: State, source: Name, index: u32) returns (found: bool, i: nat)
    requires Sound(v)
    ensures found ==> i < |v.slots| && v.slots[i].alive && RowOf(v, i).source == source && RowOf(v, i).index == index
    ensures !found ==> forall d | d in TableOf(v).docs :: d.source != source || d.index != index
  {
    if source in v.sourceIds && v.sourceIds[source] in v.bySource {
      var id := v.sourceIds[source];
      var list := v.bySource[id];
      assert SlotList(v, id, list);
      for k := 0 to |list|
        invariant forall j | 0 <= j < k :: v.slots[list[j]].index != index
      {
        if v.slots[list[k]].alive && v.slots[list[k]].index == index {
          return true, list[k];
        }
      }
    }
    NotListed(v, source, index);
    return false, 0;
  }

  lemma NotListed(v: State, source: Name, index: u32)
    requires Sound(v)
    requires source in v.sourceIds && v.sourceIds[source] in v.bySource ==>
               forall j | 0 <= j < |v.bySource[v.sourceIds[source]]| ::
                 v.bySource[v.sourceIds[source]][j] < |v.slots| && v.slots[v.bySource[v.sourceIds[source]][j]].index != index
    ensures forall d | d in TableOf(v).docs :: d.source != source || d.index != index
  {
    hide Distinct, Posted, Counted;
    forall i: nat | i < |v.slots| && v.slots[i].alive
      ensures RowOf(v, i).source != source || RowOf(v, i).index != index
    {
      assert v.sourceIds[v.sources[v.slots[i].sourceId]] == v.slots[i].sourceId;
      assert i in v.bySource[v.slots[i].sourceId];
    }
  }

  /** The per-term evidence of a live slot and its sum. */
  method ExplainSlot(sc: Scoring, v: State, grams: seq<u64>, i: nat) returns (terms: seq<TermEvidence>, score: Score)
    requires Sound(v) && sc.Lawful() && i < |v.slots| && v.slots[i].alive
    ensures terms == EvidenceOf(sc, TableOf(v), grams, RowOf(v, i)).terms
    ensures score == DocScore(sc, TableOf(v), grams, RowOf(v, i))
  {
    ghost var t, d := TableOf(v), RowOf(v, i);
    terms, score := [], sc.zero;
    hide Sound, TableOf, TermOf, DocScore, Scoring.Lawful, EvidenceOf;
    ExplainNone(sc, t, grams, d);
    for j := 0 to |grams|
      invariant terms == EvidenceOf(sc, t, grams[..j], d).terms
      invariant score == DocScore(sc, t, grams[..j], d) && score != sc.negativeZero
    {
      ExplainStep(sc, t, grams, j, d);
      EvidenceStep(sc, t, grams, j, d);
      var term := ExplainTerm(sc, v, grams[j], i);
      score := sc.add(score, term.contribution);
      terms := terms + [term];
    }
    assert grams[..|grams|] == grams;
  }

  lemma EvidenceStep(sc: Scoring, t: Table, grams: seq<u64>, j: nat, d: DocRow)
    requires j < |grams|
    ensures EvidenceOf(sc, t, grams[..j + 1], d).terms == EvidenceOf(sc, t, grams[..j], d).terms + [TermOf(sc, t, grams[j], d)]
  {
    hide TermOf, DocScore;
  }

  lemma ExplainNone(sc: Scoring, t: Table, grams: seq<u64>, d: DocRow)
    requires sc.Lawful()
    ensures DocScore(sc, t, grams[..0], d) == sc.zero != sc.negativeZero
    ensures EvidenceOf(sc, t, grams[..0], d).terms == []
  {
  }

  /** Adding 0.0 for a term the paragraph lacks leaves its score alone. */
  lemma ExplainStep(sc: Scoring, t: Table, grams: seq<u64>, j: nat, d: DocRow)
    requires sc.Lawful() && j < |grams| && DocScore(sc, t, grams[..j], d) != sc.negativeZero
    ensures DocScore(sc, t, grams[..j + 1], d)
         == sc.add(DocScore(sc, t, grams[..j], d), TermOf(sc, t, grams[j], d).contribution)
    ensures DocScore(sc, t, grams[..j + 1], d) != sc.negativeZero
  {
    hide Tf, Addend;
    assert grams[..j + 1][..j] == grams[..j];
  }

  method ExplainTerm(sc: Scoring, v: State, g: u64, i: nat) returns (term: TermEvidence)
    requires Sound(v) && i < |v.slots| && v.slots[i].alive
    ensures term == TermOf(sc, TableOf(v), g, RowOf(v, i))
  {
    var list := Post(v.postings, g);
    CarriersAgree(v, g);
    CountersAgree(v);
    TfAgrees(v, g, i);
    TfLegal(v, list, i);
    var tf := PostedTf(list, i);
    var alive := AlivePostings(v, list);
    var carriers := |alive|;
    var idf := if carriers == 0 then sc.zero else sc.idf(v.liveCount, carriers);
    var addend := sc.zero;
    if Positive(tf) {
      addend := sc.contribution(idf, tf, v.slots[i].length, sc.average(v.liveCount, v.liveTotalLength));
    }
    hide Sound, Interned, Distinct, Listed, Posted, Counted, Tf, TableOf, UsesOf, AliveOf, Positive;
    term := TermEvidence(tf, carriers, idf, addend);
  }

  /** A stored frequency is 0.0 or positive, and a positive one has a carrier. */
  lemma {:induction false} TfLegal(v: State, list: seq<Posting>, i: nat)
    requires PostingList(list, |v.slots|) && i < |v.slots| && v.slots[i].alive
    ensures Positive(FindTf(list, i)) <==> FindTf(list, i) != ZERO
    ensures FindTf(list, i) != ZERO ==> AliveOf(v.slots, list) != []
  {
    FindTfAt(list, i);
    if exists k :: 0 <= k < |list| && list[k].slot == i {
      var k :| 0 <= k < |list| && list[k].slot == i;
      AliveOfIn(v.slots, list, list[k]);
    }
  }

  /** Search and explain agree: a hit's score is its paragraph's evidence's score. */
  lemma {:induction false} HitsAreExplained(sc: Scoring, t: Table, grams: seq<u64>, eligible: Option<set<Name>>, limit: nat,
                         hits: seq<Hit>, h: Hit)
    requires Keyed(t) && Best(hits, Matches(sc, t, grams, eligible), limit) && h in hits
    ensures exists d :: d in t.docs && d.source == h.source && d.index == h.index
    ensures forall d | d in t.docs && d.source == h.source && d.index == h.index ::
              EvidenceOf(sc, t, grams, d).score == h.score && EvidenceOf(sc, t, grams, d).hash == h.hash
  {
    var all := Matches(sc, t, grams, eligible);
    var ranked :| StrictlySorted(ranked, HitBefore) && Elements(ranked) == all && hits == ranked[..Min(limit, |ranked|)];
    assert h in Elements(ranked);
    var d :| d in t.docs && h == HitOf(sc, t, grams, d);
  }

  /** The source filter selects hits; it re-weights none. */
  lemma {:induction false} FilterKeepsScores(sc: Scoring, t: Table, grams: seq<u64>, allowed: set<Name>)
    ensures Matches(sc, t, grams, Some(allowed))
         == set h | h in Matches(sc, t, grams, None) && h.source in allowed
  {
  }

  /** The hits of allowed sources, in order. */
  function HitsOf(hits: seq<Hit>, allowed: set<Name>): seq<Hit> {
    if hits == [] then []
    else
      var init, last := HitsOf(hits[..|hits| - 1], allowed), hits[|hits| - 1];
      if last.source in allowed then init + [last] else init
  }

  lemma {:induction false} HitsOfSorted(hits: seq<Hit>, allowed: set<Name>)
    requires StrictlySorted(hits, HitBefore)
    ensures forall h :: h in HitsOf(hits, allowed) <==> h in hits && h.source in allowed
    ensures StrictlySorted(HitsOf(hits, allowed), HitBefore)
  {
    hide HitBefore;
    if hits != [] {
      var n := |hits| - 1;
      HitsOfSorted(hits[..n], allowed);
      assert hits == hits[..n] + [hits[n]];
      assert forall h | h in hits[..n] :: HitBefore(h, hits[n]);
    }
  }

  /** A filtered search answers with the unfiltered ranking's hits of the allowed
      sources, in the same order and with the same scores, cut at its limit. */
  lemma {:induction false} FilteredSearch(sc: Scoring, t: Table, grams: seq<u64>, allowed: set<Name>, limit: nat,
                                          full: seq<Hit>, hits: seq<Hit>)
    requires Keyed(t) && Best(full, Matches(sc, t, grams, None), |full| + 1)
    requires Best(hits, Matches(sc, t, grams, Some(allowed)), limit)
    ensures hits == HitsOf(full, allowed)[..Min(limit, |HitsOf(full, allowed)|)]
  {
    hide Keyed, HitBefore, Matches;
    var all, some := Matches(sc, t, grams, None), Matches(sc, t, grams, Some(allowed));
    var ranked: seq<Hit> :| StrictlySorted(ranked, HitBefore) && Elements(ranked) == all && full == ranked[..Min(|full| + 1, |ranked|)];
    assert ranked == full;
    var chosen: seq<Hit> :| StrictlySorted(chosen, HitBefore) && Elements(chosen) == some && hits == chosen[..Min(limit, |chosen|)];
    HitsOfSorted(full, allowed);
    FilterKeepsScores(sc, t, grams, allowed);
    AllOrdered(sc, t, grams, Some(allowed));
    forall h ensures h in Elements(HitsOf(full, allowed)) <==> h in some {
      assert h in full <==> h in Elements(full);
    }
    SortedUnique(HitsOf(full, allowed), chosen, HitBefore);
  }

  lemma AllOrdered(sc: Scoring, t: Table, grams: seq<u64>, eligible: Option<set<Name>>)
    requires Keyed(t)
    ensures TotalOn(HitBefore, Matches(sc, t, grams, eligible))
  {
    HitOrder(sc, t, grams, Matches(sc, t, grams, eligible));
  }

  /** The contributions added up in query order. */
  function SumOf(sc: Scoring, terms: seq<TermEvidence>): Score {
    if terms == [] then sc.zero else sc.add(SumOf(sc, terms[..|terms| - 1]), terms[|terms| - 1].contribution)
  }

  /** The evidence accounts for the whole score, the terms the paragraph lacks included. */
  lemma {:induction false} EvidenceSums(sc: Scoring, t: Table, grams: seq<u64>, d: DocRow)
    requires sc.Lawful()
    ensures SumOf(sc, EvidenceOf(sc, t, grams, d).terms) == DocScore(sc, t, grams, d) == EvidenceOf(sc, t, grams, d).score
    ensures DocScore(sc, t, grams, d) != sc.negativeZero
  {
    hide TermOf, DocScore;
    var terms := EvidenceOf(sc, t, grams, d).terms;
    if grams == [] {
      ExplainNone(sc, t, grams, d);
      assert grams[..0] == grams;
    } else {
      var n := |grams| - 1;
      EvidenceSums(sc, t, grams[..n], d);
      ExplainStep(sc, t, grams, n, d);
      EvidenceStep(sc, t, grams, n, d);
      assert grams[..n + 1] == grams;
      assert terms[..n] == EvidenceOf(sc, t, grams[..n], d).terms;
    }
  }
}
