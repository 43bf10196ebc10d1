/** How the slots, postings and counters of an index answer questions about its
    table. */
module Bm25Query {
  import opened Common
  import opened Floats
  import opened Orders
  import opened Bm25Table
  import opened Bm25State

  /** What a term of the query adds to a paragraph, and from what. */
  datatype TermEvidence = TermEvidence(tf: F32, carriers: nat, idf: Score, contribution: Score)
  /** The account of one paragraph against one query. */
  datatype IndexEvidence = IndexEvidence(hash: u64, score: Score, terms: seq<TermEvidence>)

  ghost function TermOf(sc: Scoring, t: Table, gram: u64, d: DocRow): TermEvidence {
    var carriers := |UsesOf(t, gram)|;
    TermEvidence(Tf(t, gram, d), carriers, if carriers == 0 then sc.zero else Idf(sc, t, gram),
                 if Tf(t, gram, d) == ZERO then sc.zero else Addend(sc, t, gram, d))
  }

  ghost function EvidenceOf(sc: Scoring, t: Table, grams: seq<u64>, d: DocRow): IndexEvidence {
    IndexEvidence(d.hash, DocScore(sc, t, grams, d),
                  seq(|grams|, k requires 0 <= k < |grams| => TermOf(sc, t, grams[k], d)))
  }

  // ------------------------------------------------------------- counters and rows

  ghost function RowsTo(v: State, n: nat): set<DocRow>
    requires Listed(v) && n <= |v.slots|
  {
    set i | 0 <= i < n && v.slots[i].alive :: RowOf(v, i)
  }

  lemma RowsToNext(v: State, n: nat)
    requires Sound(v) && n < |v.slots|
    ensures v.slots[n].alive ==> RowOf(v, n) !in RowsTo(v, n) && RowsTo(v, n + 1) == RowsTo(v, n) + {RowOf(v, n)}
    ensures !v.slots[n].alive ==> RowsTo(v, n + 1) == RowsTo(v, n)
  {
    if v.slots[n].alive {
      forall i | 0 <= i < n && v.slots[i].alive ensures RowOf(v, i) != RowOf(v, n) {
        RowInjective(v, i, n);
      }
    }
    hide Interned, Distinct, Posted, Counted;
  }

  lemma LiveNext(slots: seq<Slot>, n: nat)
    requires n < |slots|
    ensures LiveCount(slots[..n + 1]) == LiveCount(slots[..n]) + if slots[n].alive then 1 else 0
    ensures LiveLength(slots[..n + 1]) == LiveLength(slots[..n]) + if slots[n].alive then Value(slots[n].length) else 0.0
  {
    hide Value;
    assert slots[..n + 1][..n] == slots[..n];
  }

  /** The counters count the rows of the first `n` slots. */
  ghost predicate CountsRows(v: State, n: nat)
    requires Listed(v) && n <= |v.slots|
  {
    |RowsTo(v, n)| == LiveCount(v.slots[..n]) && TotalLength(RowsTo(v, n)) == LiveLength(v.slots[..n])
  }

  lemma CountersStep(v: State, n: nat)
    requires Sound(v) && n < |v.slots| && CountsRows(v, n)
    ensures CountsRows(v, n + 1)
  {
    hide Interned, Measured, Distinct, Posted, Counted, SlotList, Value, TotalLength, RowsTo, LiveCount, LiveLength;
    RowsToNext(v, n);
    LiveNext(v.slots, n);
    if v.slots[n].alive {
      TotalLengthAdd(RowsTo(v, n), RowOf(v, n));
    }
  }

  lemma NoRows(v: State)
    requires Listed(v)
    ensures CountsRows(v, 0)
  {
    hide Listed, Value;
    assert RowsTo(v, 0) == {};
  }

  lemma {:induction false} CountersTo(v: State, n: nat)
    requires Sound(v) && n <= |v.slots|
    ensures CountsRows(v, n)
  {
    hide Interned, Listed, Measured, Distinct, Posted, Counted, CountsRows;
    if n == 0 {
      NoRows(v);
    } else {
      CountersTo(v, n - 1);
      CountersStep(v, n - 1);
    }
  }

  /** The counters count the rows. */
  lemma {:induction false} CountersAgree(v: State)
    requires Sound(v)
    ensures v.liveCount == |TableOf(v).docs|
    ensures v.liveTotalLength == TotalLength(TableOf(v).docs)
  {
    CountersTo(v, |v.slots|);
    assert v.slots[..|v.slots|] == v.slots;
    assert RowsTo(v, |v.slots|) == TableOf(v).docs;
  }

  /** A source has a row exactly when its slot list is not empty. */
  lemma LiveSource(v: State, s: Name)
    requires Sound(v)
    ensures (exists d :: d in TableOf(v).docs && d.source == s)
       <==> exists id :: id in v.bySource && v.bySource[id] != [] && v.sources[id] == s
  {
    hide Distinct, Counted;
    if d :| d in TableOf(v).docs && d.source == s {
      var i: nat :| i < |v.slots| && v.slots[i].alive && RowOf(v, i) == d;
      assert i in v.bySource[v.slots[i].sourceId];
    }
    if id :| id in v.bySource && v.bySource[id] != [] && v.sources[id] == s {
      assert SlotList(v, id, v.bySource[id]);
      RowIn(v, v.bySource[id][0]);
      assert RowOf(v, v.bySource[id][0]).source == s;
    }
  }

  // ---------------------------------------------------------------- posting lists

  /** The postings of live slots, in list order. */
  function AliveOf(slots: seq<Slot>, list: seq<Posting>): seq<Posting>
    requires forall k | 0 <= k < |list| :: list[k].slot < |slots|
  {
    if list == [] then []
    else
      var p := list[|list| - 1];
      AliveOf(slots, list[..|list| - 1]) + (if slots[p.slot].alive then [p] else [])
  }

  lemma {:induction false} AliveOfIn(slots: seq<Slot>, list: seq<Posting>, p: Posting)
    requires forall k | 0 <= k < |list| :: list[k].slot < |slots|
    ensures p in AliveOf(slots, list) <==> p in list && slots[p.slot].alive
  {
    if list != [] {
      AliveOfIn(slots, list[..|list| - 1], p);
      assert list == list[..|list| - 1] + [list[|list| - 1]];
    }
  }

  lemma {:induction false} AliveOfSorted(slots: seq<Slot>, list: seq<Posting>, n: nat)
    requires n == |slots| && PostingList(list, n)
    ensures PostingList(AliveOf(slots, list), n)
  {
    if list != [] {
      var init := list[..|list| - 1];
      AliveOfSorted(slots, init, n);
      forall k | 0 <= k < |AliveOf(slots, init)| ensures AliveOf(slots, init)[k].slot < list[|list| - 1].slot {
        AliveOfIn(slots, init, AliveOf(slots, init)[k]);
      }
    }
  }

  /** The rows behind the first `n` postings of a term. */
  ghost function UsesTo(v: State, g: u64, n: nat): set<UseRow>
    requires Listed(v) && PostingList(Post(v.postings, g), |v.slots|) && n <= |Post(v.postings, g)|
  {
    set k | 0 <= k < n && v.slots[Post(v.postings, g)[k].slot].alive :: UseOf(v, g, Post(v.postings, g)[k])
  }

  lemma ListOf(v: State, g: u64)
    requires Posted(v)
    ensures PostingList(Post(v.postings, g), |v.slots|)
  {
  }

  /** Two live postings of one row are one posting. */
  lemma PostingInjective(v: State, g: u64, j: nat, k: nat)
    requires Sound(v) && PostingList(Post(v.postings, g), |v.slots|)
    requires j < |Post(v.postings, g)| && k < |Post(v.postings, g)|
    requires var list := Post(v.postings, g);
      v.slots[list[j].slot].alive && v.slots[list[k].slot].alive
    ensures var list := Post(v.postings, g);
      (UseOf(v, g, list[j]).source == UseOf(v, g, list[k]).source
       && UseOf(v, g, list[j]).index == UseOf(v, g, list[k]).index) ==> j == k
  {
    var list := Post(v.postings, g);
    RowInjective(v, list[j].slot, list[k].slot);
    hide Sound;
    assert j < k ==> list[j].slot < list[k].slot;
    assert k < j ==> list[k].slot < list[j].slot;
  }

  lemma UsesToNext(v: State, g: u64, n: nat)
    requires Sound(v) && PostingList(Post(v.postings, g), |v.slots|) && n < |Post(v.postings, g)|
    ensures var p := Post(v.postings, g)[n];
      if v.slots[p.slot].alive then UseOf(v, g, p) !in UsesTo(v, g, n) && UsesTo(v, g, n + 1) == UsesTo(v, g, n) + {UseOf(v, g, p)}
      else UsesTo(v, g, n + 1) == UsesTo(v, g, n)
  {
    var list := Post(v.postings, g);
    if v.slots[list[n].slot].alive {
      forall k | 0 <= k < n && v.slots[list[k].slot].alive ensures UseOf(v, g, list[k]) != UseOf(v, g, list[n]) {
        PostingInjective(v, g, k, n);
      }
    }
    hide Interned, Distinct, Posted, Counted;
  }

  lemma AliveNext(slots: seq<Slot>, list: seq<Posting>, n: nat)
    requires n < |list| && forall k | 0 <= k < |list| :: list[k].slot < |slots|
    ensures AliveOf(slots, list[..n + 1]) == AliveOf(slots, list[..n]) + if slots[list[n].slot].alive then [list[n]] else []
  {
    assert list[..n + 1][..n] == list[..n];
  }

  lemma NoUses(v: State, g: u64)
    requires Listed(v) && PostingList(Post(v.postings, g), |v.slots|)
    ensures UsesTo(v, g, 0) == {}
  {
  }

  lemma {:induction false} CarriersTo(v: State, g: u64, n: nat)
    requires Sound(v) && PostingList(Post(v.postings, g), |v.slots|) && n <= |Post(v.postings, g)|
    ensures |AliveOf(v.slots, Post(v.postings, g)[..n])| == |UsesTo(v, g, n)|
  {
    hide Interned, Listed, Measured, Distinct, Posted, Counted, Positive, UsesTo, UseOf, Post;
    if n == 0 {
      NoUses(v, g);
    } else {
      CarriersTo(v, g, n - 1);
      UsesToNext(v, g, n - 1);
      AliveNext(v.slots, Post(v.postings, g), n - 1);
      hide AliveOf;
    }
  }

  /** The posting behind a row of the term `g`. */
  lemma PostingOf(v: State, g: u64, u: UseRow) returns (k: nat)
    requires Listed(v) && Posted(v) && PostingList(Post(v.postings, g), |v.slots|) && u in UsesOf(TableOf(v), g)
    ensures k < |Post(v.postings, g)| && v.slots[Post(v.postings, g)[k].slot].alive
    ensures UseOf(v, g, Post(v.postings, g)[k]) == u
  {
    var list := Post(v.postings, g);
    var p :| p in list && v.slots[p.slot].alive && UseOf(v, g, p) == u;
    k :| 0 <= k < |list| && list[k] == p;
  }

  lemma UseIn(v: State, g: u64, k: nat)
    requires Listed(v) && Posted(v) && PostingList(Post(v.postings, g), |v.slots|)
    requires k < |Post(v.postings, g)| && v.slots[Post(v.postings, g)[k].slot].alive
    ensures UseOf(v, g, Post(v.postings, g)[k]) in UsesOf(TableOf(v), g)
  {
    var p := Post(v.postings, g)[k];
    assert p in v.postings[g];
  }

  /** The live postings of a term are as many as the rows that use it. */
  lemma {:induction false} CarriersAgree(v: State, g: u64)
    requires Sound(v)
    ensures PostingList(Post(v.postings, g), |v.slots|)
    ensures |AliveOf(v.slots, Post(v.postings, g))| == |UsesOf(TableOf(v), g)|
  {
    var list := Post(v.postings, g);
    ListOf(v, g);
    CarriersTo(v, g, |list|);
    assert list[..|list|] == list;
    hide Interned, Distinct, Posted, Measured, Counted, AliveOf, UsesOf, TableOf, SlotList;
    forall u ensures u in UsesTo(v, g, |list|) <==> u in UsesOf(TableOf(v), g) {
      if u in UsesOf(TableOf(v), g) { var k := PostingOf(v, g, u); }
      if u in UsesTo(v, g, |list|) {
        var k :| 0 <= k < |list| && v.slots[list[k].slot].alive && UseOf(v, g, list[k]) == u;
        UseIn(v, g, k);
      }
    }
    assert UsesTo(v, g, |list|) == UsesOf(TableOf(v), g);
  }

  /** Carriers never outnumber the live paragraphs, so an idf stays where its
      formula is meant: on any sound index, an accepted image included. */
  lemma {:induction false} CarriersAtMostLive(v: State, g: u64)
    requires Sound(v)
    ensures |UsesOf(TableOf(v), g)| <= v.liveCount
  {
    CountersAgree(v);
    var t := TableOf(v);
    var keys := set d | d in t.docs :: (d.source, d.index);
    KeysOfDocs(t.docs, keys);
    UsesAreKeyed(v, g);
    KeysOfUses(UsesOf(t, g), keys);
  }

  lemma UsesAreKeyed(v: State, g: u64)
    requires Sound(v)
    ensures forall u | u in UsesOf(TableOf(v), g) ::
              exists d :: d in TableOf(v).docs && d.source == u.source && d.index == u.index
    ensures forall a, b | a in UsesOf(TableOf(v), g) && b in UsesOf(TableOf(v), g)
              && a.source == b.source && a.index == b.index :: a == b
  {
    ListOf(v, g);
    var list := Post(v.postings, g);
    hide Interned, Distinct, Posted, Counted, UsesOf, TableOf;
    forall u | u in UsesOf(TableOf(v), g)
      ensures exists d :: d in TableOf(v).docs && d.source == u.source && d.index == u.index
    {
      var k := PostingOf(v, g, u);
      RowIn(v, list[k].slot);
    }
    forall a, b | a in UsesOf(TableOf(v), g) && b in UsesOf(TableOf(v), g)
      && a.source == b.source && a.index == b.index
      ensures a == b
    {
      var j := PostingOf(v, g, a);
      var k := PostingOf(v, g, b);
      PostingInjective(v, g, j, k);
    }
  }

  lemma {:induction false} KeysOfDocs(docs: set<DocRow>, keys: set<(Name, u32)>)
    requires keys == set d | d in docs :: (d.source, d.index)
    ensures |keys| <= |docs|
  {
    if docs != {} {
      var d :| d in docs;
      var rest := set e | e in docs - {d} :: (e.source, e.index);
      KeysOfDocs(docs - {d}, rest);
      assert keys == rest + {(d.source, d.index)};
    }
  }

  lemma {:induction false} KeysOfUses(uses: set<UseRow>, keys: set<(Name, u32)>)
    requires forall u | u in uses :: (u.source, u.index) in keys
    requires forall a, b | a in uses && b in uses && a.source == b.source && a.index == b.index :: a == b
    ensures |uses| <= |keys|
  {
    if uses != {} {
      var u :| u in uses;
      KeysOfUses(uses - {u}, keys - {(u.source, u.index)});
    }
  }

  // ----------------------------------------------------------------- frequencies

  /** The frequency of the first posting of slot `i`, 0.0 without one. */
  function FindTf(list: seq<Posting>, i: nat): F32 {
    if list == [] then ZERO
    else if list[0].slot == i then list[0].tf
    else FindTf(list[1..], i)
  }

  lemma {:induction false} FindTfAt(list: seq<Posting>, i: nat)
    requires forall j, k | 0 <= j < k < |list| :: list[j].slot < list[k].slot
    ensures forall k | 0 <= k < |list| && list[k].slot == i :: FindTf(list, i) == list[k].tf
    ensures (forall k | 0 <= k < |list| :: list[k].slot != i) ==> FindTf(list, i) == ZERO
  {
    if list != [] {
      FindTfAt(list[1..], i);
      forall k | 0 <= k < |list| && list[k].slot == i ensures FindTf(list, i) == list[k].tf {
        if k > 0 { assert list[1..][k - 1] == list[k]; }
      }
      if forall k | 0 <= k < |list| :: list[k].slot != i {
        assert forall k | 0 <= k < |list| - 1 :: list[1..][k] == list[k + 1];
      }
    }
  }

  /** The posting of a live slot is its row's use of the term. */
  lemma TfAgrees(v: State, g: u64, i: nat)
    requires Sound(v) && i < |v.slots| && v.slots[i].alive
    ensures FindTf(Post(v.postings, g), i) == Tf(TableOf(v), g, RowOf(v, i))
  {
    ListOf(v, g);
    var list := Post(v.postings, g);
    FindTfAt(list, i);
    if exists k :: 0 <= k < |list| && list[k].slot == i {
      var k :| 0 <= k < |list| && list[k].slot == i;
      UseIn(v, g, k);
      UsesAreKeyed(v, g);
      TfFrom(TableOf(v), g, RowOf(v, i), UseOf(v, g, list[k]));
    } else {
      forall u | u in UsesOf(TableOf(v), g) ensures u.source != RowOf(v, i).source || u.index != RowOf(v, i).index {
        var k := PostingOf(v, g, u);
        RowInjective(v, list[k].slot, i);
      }
      NoTf(TableOf(v), g, RowOf(v, i));
    }
  }

  lemma TfFrom(t: Table, g: u64, d: DocRow, u: UseRow)
    requires u in UsesOf(t, g) && u.source == d.source && u.index == d.index
    requires forall a, b | a in UsesOf(t, g) && b in UsesOf(t, g) && a.source == b.source && a.index == b.index :: a == b
    ensures Tf(t, g, d) == u.tf
  {
    forall w | w in t.uses && w.gram == g && w.source == d.source && w.index == d.index ensures w == u {
      assert w in UsesOf(t, g);
    }
  }

  lemma NoTf(t: Table, g: u64, d: DocRow)
    requires forall u | u in UsesOf(t, g) :: u.source != d.source || u.index != d.index
    ensures Tf(t, g, d) == ZERO
  {
    forall w | w in t.uses && w.gram == g ensures w.source != d.source || w.index != d.index {
      assert w in UsesOf(t, g);
    }
  }
}
