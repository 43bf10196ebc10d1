/** Drift detection: the digest the index holds for a source is the digest of the
    record it holds. */
module Bm25Digest {
  import opened Common
  import opened Hash
  import opened Floats
  import opened Orders
  import opened Passages
  import opened Bm25Table
  import opened Bm25State
  import opened Bm25Query

  /** The fold over a run of rows. */
  function FoldRows(digest: u64, rows: seq<DocRow>): u64
    decreases |rows|
  {
    if rows == [] then digest
    else
      var d := rows[|rows| - 1];
      DigestFold(FoldRows(digest, rows[..|rows| - 1]), d.index, d.hash, d.questionHash)
  }

  predicate IndexBefore(a: DocRow, b: DocRow) { a.index < b.index }

  function RowsIn(t: Table, source: Name): set<DocRow> {
    set d | d in t.docs && d.source == source
  }

  /** The source's rows by ascending paragraph. */
  ghost predicate RowList(t: Table, source: Name, rows: seq<DocRow>) {
    StrictlySorted(rows, IndexBefore) && Elements(rows) == RowsIn(t, source)
  }

  /** A digest for every source with a live paragraph, folded upwards. */
  ghost predicate DigestsOf(t: Table, digests: map<Name, u64>) {
    && digests.Keys == (set d | d in t.docs :: d.source)
    && (forall s | s in digests :: exists rows :: RowList(t, s, rows) && digests[s] == FoldRows(FNV1A_OFFSET, rows))
  }

  lemma RowsTotal(t: Table, source: Name)
    requires Keyed(t)
    ensures TotalOn(IndexBefore, RowsIn(t, source))
  {
  }

  /** A table has one set of digests. */
  lemma {:induction false} DigestsUnique(t: Table, a: map<Name, u64>, b: map<Name, u64>)
    requires Keyed(t) && DigestsOf(t, a) && DigestsOf(t, b)
    ensures a == b
  {
    hide FoldRows;
    forall s | s in a ensures a[s] == b[s] {
      var x :| RowList(t, s, x) && a[s] == FoldRows(FNV1A_OFFSET, x);
      var y :| RowList(t, s, y) && b[s] == FoldRows(FNV1A_OFFSET, y);
      RowsTotal(t, s);
      SortedUnique(x, y, IndexBefore);
    }
  }

  // ------------------------------------------------------------------ the index's

  /** The rows behind a slot list. */
  ghost function ListRows(v: State, list: seq<u32>): seq<DocRow>
    requires Listed(v) && forall k | 0 <= k < |list| :: list[k] < |v.slots|
  {
    seq(|list|, k requires 0 <= k < |list| => RowOf(v, list[k]))
  }

  lemma ListedRow(v: State, id: u32, d: DocRow)
    requires Sound(v) && id in v.bySource && SlotList(v, id, v.bySource[id])
    ensures d in ListRows(v, v.bySource[id]) <==> d in RowsIn(TableOf(v), v.sources[id])
  {
    var list := v.bySource[id];
    var rows := ListRows(v, list);
    hide Distinct, Posted, Counted, Measured;
    if d in rows {
      var k :| 0 <= k < |rows| && rows[k] == d;
      RowIn(v, list[k]);
    }
    if d in RowsIn(TableOf(v), v.sources[id]) {
      var i: nat :| i < |v.slots| && v.slots[i].alive && RowOf(v, i) == d;
      assert v.sourceIds[v.sources[v.slots[i].sourceId]] == v.slots[i].sourceId;
      assert v.sourceIds[v.sources[id]] == id;
      assert i in v.bySource[v.slots[i].sourceId];
      var k :| 0 <= k < |list| && list[k] == i;
      assert rows[k] == d;
    }
  }

  lemma ListedRows(v: State, id: u32)
    requires Sound(v) && Ordered(v) && id in v.bySource && SlotList(v, id, v.bySource[id])
    ensures RowList(TableOf(v), v.sources[id], ListRows(v, v.bySource[id]))
  {
    forall d ensures d in ListRows(v, v.bySource[id]) <==> d in RowsIn(TableOf(v), v.sources[id]) {
      ListedRow(v, id, d);
    }
    hide Interned, Distinct, Posted, Counted, Measured, RowsIn, TableOf;
    assert StrictlySorted(ListRows(v, v.bySource[id]), IndexBefore);
  }

  /** One source's digest over its live slots, and whether it has any. */
  method ListDigest(v: State, list: seq<u32>) returns (digest: u64, any: bool)
    requires Listed(v) && forall k | 0 <= k < |list| :: list[k] < |v.slots| && v.slots[list[k]].alive
    ensures digest == FoldRows(FNV1A_OFFSET, ListRows(v, list)) && (any <==> list != [])
  {
    hide DigestFold, SlotList;
    digest, any := FNV1A_OFFSET, false;
    assert ListRows(v, list)[..0] == [];
    for k := 0 to |list|
      invariant digest == FoldRows(FNV1A_OFFSET, ListRows(v, list)[..k]) && (any <==> k > 0)
    {
      var slot := v.slots[list[k]];
      assert ListRows(v, list)[..k + 1][..k] == ListRows(v, list)[..k];
      if slot.alive {
        digest := DigestFold(digest, slot.index, slot.hash, slot.questionHash);
        any := true;
      }
    }
    assert ListRows(v, list)[..|list|] == ListRows(v, list);
  }

  /** A digest for every source with a live paragraph, folded in the order of its
      slot list. */
  ghost predicate ListedDigests(v: State, digests: map<Name, u64>)
    requires Sound(v)
  {
    && digests.Keys == (set d | d in TableOf(v).docs :: d.source)
    && forall id | id in v.bySource && v.bySource[id] != [] :: ListedDigest(v, id, digests)
  }

  ghost predicate ListedDigest(v: State, id: u32, digests: map<Name, u64>)
    requires Sound(v) && id in v.bySource
  {
    ListFacts(v, id);
    v.sources[id] in digests && digests[v.sources[id]] == FoldRows(FNV1A_OFFSET, ListRows(v, v.bySource[id]))
  }

  /** Walks every slot list; over lists that rise the fold is by ascending paragraph. */
  method SourceDigests(v: State) returns (digests: map<Name, u64>)
    requires Sound(v)
    ensures ListedDigests(v, digests)
    ensures Ordered(v) ==> DigestsOf(TableOf(v), digests)
  {
    digests := map[];
    var todo := v.bySource.Keys;
    hide DigestFold, FoldRows, Distinct, Posted, Counted, SlotList, TableOf, Ordered, ListRows;
    while todo != {}
      invariant todo <= v.bySource.Keys
      invariant forall s | s in digests :: exists id :: id in v.bySource && id !in todo && v.bySource[id] != [] && v.sources[id] == s
      invariant forall id | id in v.bySource && id !in todo && v.bySource[id] != [] :: ListedDigest(v, id, digests)
    {
      var id :| id in todo;
      ListFacts(v, id);
      NameNew(v, id);
      var digest, any := ListDigest(v, v.bySource[id]);
      if any {
        digests := digests[v.sources[id] := digest];
      }
      todo := todo - {id};
    }
    forall s ensures s in digests <==> exists d :: d in TableOf(v).docs && d.source == s {
      LiveSource(v, s);
    }
    if Ordered(v) { OrderedDigests(v, digests); }
  }

  lemma OrderedDigests(v: State, digests: map<Name, u64>)
    requires Sound(v) && Ordered(v) && ListedDigests(v, digests)
    ensures DigestsOf(TableOf(v), digests)
  {
    hide DigestFold, FoldRows, Interned, Distinct, Measured, Posted, Counted, SlotList, TableOf, Ordered, ListRows, RowList;
    forall s | s in digests
      ensures exists rows :: RowList(TableOf(v), s, rows) && digests[s] == FoldRows(FNV1A_OFFSET, rows)
    {
      LiveSource(v, s);
      var id :| id in v.bySource && v.bySource[id] != [] && v.sources[id] == s;
      assert ListedDigest(v, id, digests);
      ListFacts(v, id);
      ListedRows(v, id);
    }
  }

  lemma ListFacts(v: State, id: u32)
    requires Sound(v) && id in v.bySource
    ensures SlotList(v, id, v.bySource[id])
    ensures id < |v.sources|
    ensures forall k | 0 <= k < |v.bySource[id]| :: v.bySource[id][k] < |v.slots| && v.slots[v.bySource[id][k]].alive
  {
  }

  // ----------------------------------------------------------------- the store's

  function RowFor(source: Name, d: Doc): DocRow {
    DocRow(source, d.index, FromCount(|d.grams|), d.hash, d.questionHash)
  }

  function RowsFor(source: Name, docs: seq<Doc>): seq<DocRow> {
    seq(|docs|, k requires 0 <= k < |docs| => RowFor(source, docs[k]))
  }

  lemma {:induction false} FoldRowsFor(source: Name, docs: seq<Doc>)
    ensures FoldRows(FNV1A_OFFSET, RowsFor(source, docs)) == DigestDocs(FNV1A_OFFSET, docs)
  {
    hide DigestFold;
    if docs != [] {
      var init, last := docs[..|docs| - 1], docs[|docs| - 1];
      FoldRowsFor(source, init);
      assert RowsFor(source, docs)[..|docs| - 1] == RowsFor(source, init);
      assert docs == init + [last];
      DigestDocsAppend(FNV1A_OFFSET, init, last);
    }
  }

  lemma {:induction false} RowsForIn(source: Name, docs: seq<Doc>)
    ensures Elements(RowsFor(source, docs)) == DocsTable(source, docs).docs
  {
    if docs != [] {
      var init, last := docs[..|docs| - 1], docs[|docs| - 1];
      RowsForIn(source, init);
      assert RowsFor(source, docs) == RowsFor(source, init) + [RowFor(source, last)];
    }
  }

  /** The record's rows, listed by its own paragraph order, and their fold. */
  lemma {:induction false} RecordRows(corpus: map<Name, PassageRecord>, s: Name)
    requires s in corpus && WellFormed(corpus[s])
    ensures RowList(Rescan(corpus), s, RowsFor(s, Docs(corpus[s])))
    ensures FoldRows(FNV1A_OFFSET, RowsFor(s, Docs(corpus[s]))) == DigestDocs(FNV1A_OFFSET, Docs(corpus[s]))
  {
    var docs := Docs(corpus[s]);
    FoldRowsFor(s, docs);
    assert StrictlySorted(RowsFor(s, docs), IndexBefore);
    hide Rescan, FoldRows, DigestDocs, RowsFor, Docs, DocsTable;
    RowsForIn(s, docs);
    RowsOfRecord(corpus, s);
  }

  lemma RowsOfRecord(corpus: map<Name, PassageRecord>, s: Name)
    requires s in corpus
    ensures RowsIn(Rescan(corpus), s) == RecordTable(s, corpus[s]).docs
  {
    hide Rescan, RecordTable;
    RecordSource(s, corpus[s]);
    forall d ensures d in RowsIn(Rescan(corpus), s) <==> d in RecordTable(s, corpus[s]).docs {
      RescanDoc(corpus, d);
    }
  }

  lemma {:induction false} RescanKeyed(corpus: map<Name, PassageRecord>)
    requires forall s | s in corpus :: WellFormed(corpus[s])
    ensures Keyed(Rescan(corpus))
  {
    hide Rescan, FoldRows, DigestDocs;
    forall d, e | d in Rescan(corpus).docs && e in Rescan(corpus).docs && d.source == e.source && d.index == e.index
      ensures d == e
    {
      RescanDoc(corpus, d);
      RecordRows(corpus, d.source);
      var rows := RowsFor(d.source, Docs(corpus[d.source]));
      assert d in Elements(rows) && e in Elements(rows);
      var i :| 0 <= i < |rows| && rows[i] == d;
      var j :| 0 <= j < |rows| && rows[j] == e;
      assert rows[i].index == rows[j].index;
    }
  }

  /** The digests are the records' own, with no entry exactly for a record without
      paragraphs. */
  ghost predicate RecordDigests(corpus: map<Name, PassageRecord>, digests: map<Name, u64>) {
    && (forall s :: s in digests <==> s in corpus && DigestOf(corpus[s]).Some?)
    && (forall s | s in digests :: DigestOf(corpus[s]) == Some(digests[s]))
  }

  /** The digests of a rescan are the records' own. */
  lemma {:induction false} DigestsMatchRecords(corpus: map<Name, PassageRecord>, digests: map<Name, u64>)
    requires forall s | s in corpus :: WellFormed(corpus[s])
    requires DigestsOf(Rescan(corpus), digests)
    ensures RecordDigests(corpus, digests)
  {
    hide Rescan, FoldRows, DigestDocs;
    RescanKeyed(corpus);
    forall s ensures s in digests <==> s in corpus && DigestOf(corpus[s]).Some? {
      if s in digests {
        var d :| d in Rescan(corpus).docs && d.source == s;
        RescanDoc(corpus, d);
        RecordRows(corpus, s);
        assert d in Elements(RowsFor(s, Docs(corpus[s])));
      }
      if s in corpus && DigestOf(corpus[s]).Some? {
        RecordRows(corpus, s);
        assert RowsFor(s, Docs(corpus[s]))[0] in Elements(RowsFor(s, Docs(corpus[s])));
        assert RowsFor(s, Docs(corpus[s]))[0] in RowsIn(Rescan(corpus), s);
      }
    }
    forall s | s in digests ensures DigestOf(corpus[s]) == Some(digests[s]) {
      RecordRows(corpus, s);
      var rows :| RowList(Rescan(corpus), s, rows) && digests[s] == FoldRows(FNV1A_OFFSET, rows);
      RowsTotal(Rescan(corpus), s);
      SortedUnique(rows, RowsFor(s, Docs(corpus[s])), IndexBefore);
    }
  }
}
