/** What a BM25 index is about, without slots, tombstones or interning: one row a
    live paragraph and one row a term a live paragraph uses. A naive rescan of the
    stored records writes the same rows, and every answer of the index is an answer
    about them. */
module Bm25Table {
  import opened Common
  import opened Floats
  import opened Orders
  import opened Hash
  import opened Passages

  type Name = seq<byte>

  datatype DocRow = DocRow(source: Name, index: u32, length: F32, hash: u64, questionHash: u64)
  datatype UseRow = UseRow(gram: u64, source: Name, index: u32, tf: F32)
  datatype Table = Table(docs: set<DocRow>, uses: set<UseRow>)

  const EMPTY := Table({}, {})

  /** The rows of one document of `source`. */
  function DocTable(source: Name, d: Doc): Table {
    Table({DocRow(source, d.index, FromCount(|d.grams|), d.hash, d.questionHash)},
          set g | g in d.grams :: UseRow(g, source, d.index, FromCount(Count(d.grams, g))))
  }

  function Merge(a: Table, b: Table): Table {
    Table(a.docs + b.docs, a.uses + b.uses)
  }

  function Without(t: Table, source: Name): Table {
    Table(set d | d in t.docs && d.source != source, set u | u in t.uses && u.source != source)
  }

  /** The rows of the documents `docs` of `source`. */
  function DocsTable(source: Name, docs: seq<Doc>): Table {
    if docs == [] then EMPTY
    else Merge(DocsTable(source, docs[..|docs| - 1]), DocTable(source, docs[|docs| - 1]))
  }

  function RecordTable(source: Name, r: PassageRecord): Table {
    DocsTable(source, Docs(r))
  }

  /** A rescan of every stored record. */
  function Rescan(corpus: map<Name, PassageRecord>): Table {
    Table(set s, d | s in corpus && d in RecordTable(s, corpus[s]).docs :: d,
          set s, u | s in corpus && u in RecordTable(s, corpus[s]).uses :: u)
  }

  lemma {:induction false} DocsTableSource(source: Name, docs: seq<Doc>)
    ensures forall d | d in DocsTable(source, docs).docs :: d.source == source
    ensures forall u | u in DocsTable(source, docs).uses :: u.source == source
  {
    if docs != [] { DocsTableSource(source, docs[..|docs| - 1]); }
  }

  /** The rows of a run of documents, one by one. */
  lemma {:induction false} DocsTableRows(source: Name, docs: seq<Doc>, k: nat)
    requires k < |docs|
    ensures DocTable(source, docs[k]).docs <= DocsTable(source, docs).docs
    ensures DocTable(source, docs[k]).uses <= DocsTable(source, docs).uses
  {
    if k < |docs| - 1 { DocsTableRows(source, docs[..|docs| - 1], k); }
  }

  /** A row is in the rescan when the current record of its source wrote it. */
  lemma {:induction false} RescanDoc(corpus: map<Name, PassageRecord>, d: DocRow)
    ensures d in Rescan(corpus).docs <==> d.source in corpus && d in RecordTable(d.source, corpus[d.source]).docs
  {
    hide RecordTable;
    forall s | s in corpus ensures d in RecordTable(s, corpus[s]).docs ==> d.source == s {
      RecordSource(s, corpus[s]);
    }
  }

  lemma {:induction false} RescanUse(corpus: map<Name, PassageRecord>, u: UseRow)
    ensures u in Rescan(corpus).uses <==> u.source in corpus && u in RecordTable(u.source, corpus[u.source]).uses
  {
    hide RecordTable;
    forall s | s in corpus ensures u in RecordTable(s, corpus[s]).uses ==> u.source == s {
      RecordSource(s, corpus[s]);
    }
  }

  lemma {:induction false} RecordSource(source: Name, r: PassageRecord)
    ensures forall d | d in RecordTable(source, r).docs :: d.source == source
    ensures forall u | u in RecordTable(source, r).uses :: u.source == source
  {
    DocsTableSource(source, Docs(r));
  }

  /** Storing a record replaces its source's rows and no other row. */
  lemma {:induction false} RescanStore(corpus: map<Name, PassageRecord>, source: Name, r: PassageRecord)
    ensures Rescan(corpus[source := r]) == Merge(Without(Rescan(corpus), source), RecordTable(source, r))
  {
    hide RecordTable, Rescan;
    var next := corpus[source := r];
    var a, b := Rescan(next), Merge(Without(Rescan(corpus), source), RecordTable(source, r));
    RecordSource(source, r);
    forall d ensures d in a.docs <==> d in b.docs {
      RescanDoc(corpus, d);
      RescanDoc(next, d);
    }
    forall u ensures u in a.uses <==> u in b.uses {
      RescanUse(corpus, u);
      RescanUse(next, u);
    }
    assert a.docs == b.docs && a.uses == b.uses;
  }

  /** Retracting a record removes its source's rows and no other row. */
  lemma {:induction false} RescanRetract(corpus: map<Name, PassageRecord>, source: Name)
    ensures Rescan(corpus - {source}) == Without(Rescan(corpus), source)
  {
    hide RecordTable, Rescan;
    var next := corpus - {source};
    var a, b := Rescan(next), Without(Rescan(corpus), source);
    forall d ensures d in a.docs <==> d in b.docs {
      RescanDoc(corpus, d);
      RescanDoc(next, d);
    }
    forall u ensures u in a.uses <==> u in b.uses {
      RescanUse(corpus, u);
      RescanUse(next, u);
    }
    assert a.docs == b.docs && a.uses == b.uses;
  }

  // --------------------------------------------------------------- what a row says

  /** How often the questions attached to paragraph `p` use a term, and how many terms
      they have. */
  function Asked(qs: seq<Question>, p: u32, gram: u64): nat {
    if qs == [] then 0 else (if qs[0].paragraph == p then Count(qs[0].grams, gram) else 0) + Asked(qs[1..], p, gram)
  }

  function AskedTerms(qs: seq<Question>, p: u32): nat {
    if qs == [] then 0 else (if qs[0].paragraph == p then |qs[0].grams| else 0) + AskedTerms(qs[1..], p)
  }

  lemma {:induction false} QuestionsCounted(qs: seq<Question>, p: u32, gram: u64)
    ensures Count(QuestionGrams(QuestionsOf(qs, p)), gram) == Asked(qs, p, gram)
    ensures |QuestionGrams(QuestionsOf(qs, p))| == AskedTerms(qs, p)
  {
    hide Count;
    if qs == [] {
      CountNone(gram);
    } else {
      QuestionsCounted(qs[1..], p, gram);
      if qs[0].paragraph == p {
        var rest := QuestionsOf(qs[1..], p);
        assert ([qs[0]] + rest)[1..] == rest;
        CountAppend(qs[0].grams, QuestionGrams(rest), gram);
      }
    }
  }

  lemma CountNone(gram: u64)
    ensures Count([], gram) == 0
  {
  }

  /** How often a paragraph and its questions use a term. */
  function Uses(r: PassageRecord, k: nat, gram: u64): nat
    requires k < |r.paragraphs|
  {
    Count(r.paragraphs[k].grams, gram) + Asked(r.questions, r.paragraphs[k].index, gram)
  }

  lemma DocCounted(r: PassageRecord, k: nat, gram: u64)
    requires k < |r.paragraphs|
    ensures Count(Docs(r)[k].grams, gram) == Uses(r, k, gram)
    ensures |Docs(r)[k].grams| == |r.paragraphs[k].grams| + AskedTerms(r.questions, r.paragraphs[k].index)
  {
    hide Count;
    var p := r.paragraphs[k];
    QuestionsCounted(r.questions, p.index, gram);
    CountAppend(p.grams, QuestionGrams(QuestionsOf(r.questions, p.index)), gram);
  }

  lemma {:induction false} InDocsTable(source: Name, docs: seq<Doc>)
    ensures forall d :: d in DocsTable(source, docs).docs <==> exists k | 0 <= k < |docs| :: d in DocTable(source, docs[k]).docs
    ensures forall u :: u in DocsTable(source, docs).uses <==> exists k | 0 <= k < |docs| :: u in DocTable(source, docs[k]).uses
  {
    hide DocTable;
    if docs != [] {
      var n := |docs| - 1;
      InDocsTable(source, docs[..n]);
      assert forall k | 0 <= k < n :: docs[..n][k] == docs[k];
    }
  }

  /** The index's rows of terms are the records' own: a paragraph has one for each term
      that it or a question attached to it uses, with how often they do. */
  lemma {:induction false} UseMeans(corpus: map<Name, PassageRecord>, u: UseRow)
    ensures u in Rescan(corpus).uses <==> u.source in corpus && exists k: nat :: UsedAt(corpus[u.source], k, u)
  {
    RescanUse(corpus, u);
    hide Rescan, DocTable, UsedAt;
    if u.source in corpus {
      var r := corpus[u.source];
      InDocsTable(u.source, Docs(r));
      forall k: nat | k < |r.paragraphs| ensures u in DocTable(u.source, Docs(r)[k]).uses <==> UsedAt(r, k, u) {
        UsedAtMeans(u.source, r, k, u);
      }
      forall k: nat | UsedAt(r, k, u) ensures k < |r.paragraphs| { UsedAtInside(r, k, u); }
    }
  }

  ghost predicate UsedAt(r: PassageRecord, k: nat, u: UseRow) {
    k < |r.paragraphs| && u.index == r.paragraphs[k].index && Uses(r, k, u.gram) > 0 && u.tf == FromCount(Uses(r, k, u.gram))
  }

  lemma UsedAtInside(r: PassageRecord, k: nat, u: UseRow)
    requires UsedAt(r, k, u)
    ensures k < |r.paragraphs|
  {
  }

  lemma UsedAtMeans(source: Name, r: PassageRecord, k: nat, u: UseRow)
    requires k < |r.paragraphs| && u.source == source
    ensures u in DocTable(source, Docs(r)[k]).uses <==> UsedAt(r, k, u)
  {
    hide FromCount, Uses;
    DocCounted(r, k, u.gram);
    assert Docs(r)[k].index == r.paragraphs[k].index;
    hide Docs;
    assert u.gram in Docs(r)[k].grams <==> Count(Docs(r)[k].grams, u.gram) > 0;
    hide Count;
  }

  /** And a row for each paragraph, its length the terms of the text and its questions. */
  lemma {:induction false} DocMeans(corpus: map<Name, PassageRecord>, d: DocRow)
    ensures d in Rescan(corpus).docs <==> d.source in corpus && exists k: nat :: IndexedAt(corpus[d.source], k, d)
  {
    RescanDoc(corpus, d);
    hide Rescan, DocTable, IndexedAt;
    if d.source in corpus {
      var r := corpus[d.source];
      InDocsTable(d.source, Docs(r));
      forall k: nat | k < |r.paragraphs| ensures d in DocTable(d.source, Docs(r)[k]).docs <==> IndexedAt(r, k, d) {
        IndexedAtMeans(d.source, r, k, d);
      }
      forall k: nat | IndexedAt(r, k, d) ensures k < |r.paragraphs| { IndexedAtInside(r, k, d); }
    }
  }

  ghost predicate IndexedAt(r: PassageRecord, k: nat, d: DocRow) {
    k < |r.paragraphs| &&
    var p := r.paragraphs[k];
    && d.index == p.index && d.hash == p.hash
    && d.length == FromCount(|p.grams| + AskedTerms(r.questions, p.index))
    && d.questionHash == FnvFold(FNV1A_OFFSET, QuestionStream(QuestionsOf(r.questions, p.index)))
  }

  lemma IndexedAtInside(r: PassageRecord, k: nat, d: DocRow)
    requires IndexedAt(r, k, d)
    ensures k < |r.paragraphs|
  {
  }

  lemma IndexedAtMeans(source: Name, r: PassageRecord, k: nat, d: DocRow)
    requires k < |r.paragraphs| && d.source == source
    ensures d in DocTable(source, Docs(r)[k]).docs <==> IndexedAt(r, k, d)
  {
    hide FromCount, FnvFold;
    DocCounted(r, k, 0);
    FoldOfStream(FNV1A_OFFSET, QuestionsOf(r.questions, r.paragraphs[k].index));
  }

  // ------------------------------------------------------------------- histories

  datatype Change =
    | Store(source: Name, record: PassageRecord)
    | Retract(source: Name)
    | Rebuild(records: seq<(Name, PassageRecord)>)

  /** The store's own account of a history: a plain map. */
  function Stored(history: seq<Change>): map<Name, PassageRecord> {
    if history == [] then map[]
    else
      var before := Stored(history[..|history| - 1]);
      match history[|history| - 1]
      case Store(source, record) => before[source := record]
      case Retract(source) => before - {source}
      case Rebuild(_) => before
  }

  // --------------------------------------------------------------------- scoring

  /** An f32 score, named by its place in the order of `f32::total_cmp`. */
  type Score = int

  /** The score arithmetic, whose rounding is no part of the model. Adding 0.0
      changes nothing but -0.0, and a sum is -0.0 only when both addends are. */
  datatype Scoring = Scoring(
    idf: (nat, nat) -> Score,
    average: (nat, real) -> F32,
    contribution: (Score, F32, F32, F32) -> Score,
    add: (Score, Score) -> Score,
    zero: Score,
    negativeZero: Score)
  {
    ghost predicate Lawful() {
      && zero != negativeZero
      && (forall x: Score | x != negativeZero :: add(x, zero) == x)
      && (forall x: Score, y: Score | x != negativeZero :: add(x, y) != negativeZero)
    }
  }

  ghost function TotalLength(docs: set<DocRow>): real {
    if docs == {} then 0.0
    else
      var d :| d in docs;
      Value(d.length) + TotalLength(docs - {d})
  }

  lemma {:induction false} TotalLengthAdd(docs: set<DocRow>, d: DocRow)
    requires d !in docs
    ensures TotalLength(docs + {d}) == TotalLength(docs) + Value(d.length)
  {
    var all := docs + {d};
    var e :| e in all && TotalLength(all) == Value(e.length) + TotalLength(all - {e});
    if e == d {
      assert all - {e} == docs;
    } else {
      assert all - {e} == (docs - {e}) + {d};
      TotalLengthAdd(docs - {e}, d);
      assert docs == (docs - {e}) + {e};
      TotalLengthAdd(docs - {e}, e);
    }
  }

  function UsesOf(t: Table, gram: u64): set<UseRow> {
    set u | u in t.uses && u.gram == gram
  }

  /** How often the paragraph of `d` uses `gram`, 0.0 for not at all. */
  ghost function Tf(t: Table, gram: u64, d: DocRow): F32 {
    if exists u :: u in t.uses && u.gram == gram && u.source == d.source && u.index == d.index then
      var u :| u in t.uses && u.gram == gram && u.source == d.source && u.index == d.index;
      u.tf
    else ZERO
  }

  /** The term's weight: live paragraphs only count, whatever the filter. */
  ghost function Idf(sc: Scoring, t: Table, gram: u64): Score {
    sc.idf(|t.docs|, |UsesOf(t, gram)|)
  }

  ghost function Addend(sc: Scoring, t: Table, gram: u64, d: DocRow): Score {
    sc.contribution(Idf(sc, t, gram), Tf(t, gram, d), d.length,
                    sc.average(|t.docs|, TotalLength(t.docs)))
  }

  /** The paragraph's score: its terms' addends in query order. */
  ghost function DocScore(sc: Scoring, t: Table, grams: seq<u64>, d: DocRow): Score {
    if grams == [] then sc.zero
    else
      var before := DocScore(sc, t, grams[..|grams| - 1], d);
      var g := grams[|grams| - 1];
      if Tf(t, g, d) == ZERO then before else sc.add(before, Addend(sc, t, g, d))
  }

  ghost predicate Carries(t: Table, grams: seq<u64>, d: DocRow) {
    exists g :: g in grams && Tf(t, g, d) != ZERO
  }

  datatype Hit = Hit(source: Name, index: u32, hash: u64, score: Score)

  /** Best score first, ties by source name and paragraph index. */
  predicate HitBefore(a: Hit, b: Hit) {
    || a.score > b.score
    || (a.score == b.score && BytesLess(a.source, b.source))
    || (a.score == b.score && a.source == b.source && a.index < b.index)
  }

  ghost predicate Eligible(eligible: Option<set<Name>>, source: Name) {
    eligible.None? || source in eligible.value
  }

  ghost function HitOf(sc: Scoring, t: Table, grams: seq<u64>, d: DocRow): Hit {
    Hit(d.source, d.index, d.hash, DocScore(sc, t, grams, d))
  }

  /** Every eligible paragraph carrying a query term, with its corpus-wide score. */
  ghost function Matches(sc: Scoring, t: Table, grams: seq<u64>, eligible: Option<set<Name>>): set<Hit> {
    set d | d in t.docs && Carries(t, grams, d) && Eligible(eligible, d.source) :: HitOf(sc, t, grams, d)
  }

  /** `hits` are the first `limit` of `all` in hit order. */
  ghost predicate Best(hits: seq<Hit>, all: set<Hit>, limit: nat) {
    exists ranked: seq<Hit> ::
      StrictlySorted(ranked, HitBefore) && Elements(ranked) == all && hits == ranked[..Min(limit, |ranked|)]
  }

  /** The rows name a paragraph once. */
  ghost predicate Keyed(t: Table) {
    forall d, e | d in t.docs && e in t.docs && d.source == e.source && d.index == e.index :: d == e
  }

  lemma {:induction false} HitOrder(sc: Scoring, t: Table, grams: seq<u64>, hits: set<Hit>)
    requires Keyed(t)
    requires forall h | h in hits :: exists d :: d in t.docs && h == HitOf(sc, t, grams, d)
    ensures TotalOn(HitBefore, hits)
  {
    BytesTotal(set h | h in hits :: h.source);
    forall x, y | x in hits && y in hits && x != y ensures HitBefore(x, y) || HitBefore(y, x) {
      BytesTrichotomy(x.source, y.source);
    }
    forall x | x in hits ensures !HitBefore(x, x) { BytesIrreflexive(x.source); }
    forall x, y, z | x in hits && y in hits && z in hits && HitBefore(x, y) && HitBefore(y, z)
      ensures HitBefore(x, z)
    {
      if BytesLess(x.source, y.source) && BytesLess(y.source, z.source) {
        BytesTransitive(x.source, y.source, z.source);
      }
    }
  }

  /** One table, one ranking: the answer to a query is determined by the rows. */
  lemma {:induction false} BestUnique(sc: Scoring, t: Table, grams: seq<u64>, eligible: Option<set<Name>>, limit: nat,
                   a: seq<Hit>, b: seq<Hit>)
    requires Keyed(t)
    requires Best(a, Matches(sc, t, grams, eligible), limit)
    requires Best(b, Matches(sc, t, grams, eligible), limit)
    ensures a == b
  {
    var all := Matches(sc, t, grams, eligible);
    var x :| StrictlySorted(x, HitBefore) && Elements(x) == all && a == x[..Min(limit, |x|)];
    var y :| StrictlySorted(y, HitBefore) && Elements(y) == all && b == y[..Min(limit, |y|)];
    HitOrder(sc, t, grams, all);
    SortedUnique(x, y, HitBefore);
  }

  // ------------------------------------------------------------- what the ranking is

  /** Higher scores first; equal ones by the bytes of the source and then upwards. */
  lemma {:induction false} RankedByScore(hits: seq<Hit>, all: set<Hit>, limit: nat)
    requires Best(hits, all, limit)
    ensures forall i, j | 0 <= i < j < |hits| :: hits[i].score >= hits[j].score
    ensures forall i, j | 0 <= i < j < |hits| && hits[i].score == hits[j].score ::
      BytesLess(hits[i].source, hits[j].source) || (hits[i].source == hits[j].source && hits[i].index < hits[j].index)
  {
    var ranked: seq<Hit> :| StrictlySorted(ranked, HitBefore) && Elements(ranked) == all && hits == ranked[..Min(limit, |ranked|)];
    hide Best, Elements, BytesLess;
    forall i, j | 0 <= i < j < |hits| ensures HitBefore(hits[i], hits[j]) { }
  }

  /** A match left out is beaten by every hit, on score or on the tie rule. */
  lemma {:induction false} LeftOutIsWorse(hits: seq<Hit>, all: set<Hit>, limit: nat, h: Hit, m: Hit)
    requires Best(hits, all, limit) && h in hits && m in all && m !in hits
    ensures h.score >= m.score
    ensures h.score == m.score ==> BytesLess(h.source, m.source) || (h.source == m.source && h.index < m.index)
  {
    var ranked: seq<Hit> :| StrictlySorted(ranked, HitBefore) && Elements(ranked) == all && hits == ranked[..Min(limit, |ranked|)];
    hide Best, BytesLess;
    var i :| 0 <= i < |hits| && hits[i] == h;
    assert m in Elements(ranked);
    var j :| 0 <= j < |ranked| && ranked[j] == m;
    assert j >= |hits|;
    assert HitBefore(ranked[i], ranked[j]);
  }

  /** The hits are matches, each once, as many as the limit allows. */
  lemma {:induction false} HitsAreMatches(sc: Scoring, t: Table, grams: seq<u64>, eligible: Option<set<Name>>, limit: nat, hits: seq<Hit>)
    requires Keyed(t) && Best(hits, Matches(sc, t, grams, eligible), limit)
    ensures |hits| == Min(limit, |Matches(sc, t, grams, eligible)|) && NoDuplicates(hits)
    ensures forall h | h in hits :: h in Matches(sc, t, grams, eligible)
  {
    var all := Matches(sc, t, grams, eligible);
    HitOrder(sc, t, grams, all);
    var ranked: seq<Hit> :| StrictlySorted(ranked, HitBefore) && Elements(ranked) == all && hits == ranked[..Min(limit, |ranked|)];
    hide Matches, HitBefore, Keyed;
    SortedNoDuplicates(ranked, HitBefore);
    DistinctLength(ranked);
    forall h | h in hits ensures h in all { assert h in Elements(ranked); }
  }
}
