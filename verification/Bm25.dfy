/** The resident BM25 index: an incremental structure over the stored passage
    records, whose every answer is an answer about `Contents`. */
module Bm25 {
  import opened Common
  import opened Floats
  import opened Orders
  import opened Passages
  import opened Utf8
  import opened Bm25Table
  import opened Bm25State
  import opened Codec
  import opened Bm25Query
  import opened Bm25Digest
  import opened Bm25Image
  import opened Bm25Canon
  import QueryLoops = Bm25Search
  import Loader = Bm25Load
  import Saver = Bm25Save

  /** The terms of one document with their counts. */
  method CountGrams(grams: seq<u64>) returns (frequencies: map<u64, nat>, length: nat)
    ensures frequencies == map g | g in grams :: Count(grams, g)
    ensures length == |grams|
  {
    hide Count;
    frequencies, length := map[], 0;
    for i := 0 to |grams|
      invariant frequencies == map g | g in grams[..i] :: Count(grams[..i], g)
      invariant length == i
    {
      var g := grams[i];
      assert grams[..i + 1] == grams[..i] + [g];
      CountOneMore(grams[..i], g);
      frequencies := frequencies[g := (if g in frequencies then frequencies[g] else 0) + 1];
      length := length + 1;
    }
    assert grams[..|grams|] == grams;
  }

  lemma CountOneMore(grams: seq<u64>, g: u64)
    ensures forall h :: Count(grams + [g], h) == Count(grams, h) + if h == g then 1 else 0
  {
    forall h ensures Count(grams + [g], h) == Count(grams, h) + if h == g then 1 else 0 {
      CountAppend(grams, [g], h);
    }
  }

  class Bm25Index {
    var sources: seq<Name>
    var sourceIds: map<Name, u32>
    var bySource: map<u32, seq<u32>>
    var slots: seq<Slot>
    var postings: map<u64, seq<Posting>>
    var liveCount: nat
    var liveTotalLength: real
    var deadCount: nat

    function View(): State
      reads this
    {
      State(sources, sourceIds, bySource, slots, postings, liveCount, liveTotalLength, deadCount)
    }

    ghost predicate Valid()
      reads this
    {
      Sound(View())
    }

    /** Valid, with each source's paragraphs listed upwards: what every index built
        here or read back from its own bytes is. */
    ghost predicate InOrder()
      reads this
    {
      Sound(View()) && Ordered(View())
    }

    /** The live paragraphs and their terms. */
    ghost function Contents(): Table
      reads this
      requires Valid()
    {
      TableOf(View())
    }

    constructor Empty()
      ensures InOrder() && Contents() == EMPTY
      ensures View() == State([], map[], map[], [], map[], 0, 0.0, 0)
    {
      sources, sourceIds, bySource := [], map[], map[];
      slots, postings := [], map[];
      liveCount, liveTotalLength, deadCount := 0, 0.0, 0;
    }

    /** An index over given fields. */
    constructor Restore(v: State)
      requires Sound(v)
      ensures View() == v
    {
      sources, sourceIds, bySource := v.sources, v.sourceIds, v.bySource;
      slots, postings := v.slots, v.postings;
      liveCount, liveTotalLength, deadCount := v.liveCount, v.liveTotalLength, v.deadCount;
    }

    /** The id of a source name, registered on first sight. */
    method Intern(source: Name) returns (id: u32)
      requires Valid() && ValidUtf8(source)
      requires source !in sourceIds ==> |sources| < U32_LIMIT
      modifies this
      ensures Valid() && Contents() == old(Contents()) && (old(InOrder()) ==> InOrder())
      ensures source in sourceIds && sourceIds[source] == id
      ensures View() == if source in old(sourceIds) then old(View())
                        else old(View()).(sources := old(sources) + [source],
                                          sourceIds := old(sourceIds)[source := |old(sources)|])
    {
      if source in sourceIds {
        return sourceIds[source];
      }
      ghost var v := View();
      id := |sources|;
      sources := sources + [source];
      sourceIds := sourceIds[source := id];
      InternedSame(v, View(), source);
    }

    /** Marks the listed slots dead, keeping the counters. */
    method KillListed(list: seq<u32>) returns (changed: bool)
      requires forall k | 0 <= k < |list| :: list[k] < |slots| && slots[list[k]].alive
      requires forall j, k | 0 <= j < k < |list| :: list[j] < list[k]
      requires liveCount == LiveCount(slots) && liveTotalLength == LiveLength(slots)
      requires deadCount == |slots| - liveCount
      modifies `slots, `liveCount, `liveTotalLength, `deadCount
      ensures slots == Kill(old(slots), list)
      ensures liveCount == LiveCount(slots) && liveTotalLength == LiveLength(slots)
      ensures deadCount == |slots| - liveCount
      ensures changed <==> list != []
    {
      changed := false;
      hide Kill, LiveCount, LiveLength, Value;
      KillNone(slots);
      assert list[..0] == [];
      for k := 0 to |list|
        invariant slots == Kill(old(slots), list[..k])
        invariant liveCount == LiveCount(slots) && liveTotalLength == LiveLength(slots)
        invariant deadCount == |slots| - liveCount
        invariant changed <==> k > 0
      {
        KillStep(old(slots), list, k);
        LiveUpdate(slots, list[k]);
        if slots[list[k]].alive {
          liveTotalLength := liveTotalLength - Value(slots[list[k]].length);
          slots := slots[list[k] := slots[list[k]].(alive := false)];
          liveCount := liveCount - 1;
          deadCount := deadCount + 1;
          changed := true;
        }
      }
      assert list[..|list|] == list;
    }

    /** Marks a source's listed slots dead and empties the list. */
    method ClearList(id: u32) returns (changed: bool)
      requires Valid() && id in bySource
      modifies this
      ensures changed <==> old(bySource)[id] != []
      ensures View() == Tombstoned(old(View()), id)
    {
      ghost var v := View();
      KillableList(v, id);
      hide Sound, Listed, Posted, Interned, Distinct, Measured, Counted, Kill, LiveCount, LiveLength;
      changed := KillListed(bySource[id]);
      bySource := bySource[id := []];
    }

    /** Marks a source's live slots dead. */
    method Tombstone(id: u32) returns (changed: bool)
      requires Valid() && id < |sources|
      modifies this
      ensures Valid() && (old(InOrder()) ==> InOrder())
      ensures sources == old(sources) && sourceIds == old(sourceIds) && |slots| == |old(slots)|
      ensures Contents() == Without(old(Contents()), sources[id])
      ensures changed <==> exists d :: d in old(Contents()).docs && d.source == sources[id]
    {
      ghost var v := View();
      TombstoneChanged(v, id);
      changed := false;
      if id in bySource {
        TombstonedStep(v, id);
        hide Sound, Ordered, TableOf, Without, Tombstoned;
        changed := ClearList(id);
      } else {
        NothingListed(v, id);
      }
    }

    /** Files slot `slot` under each of a document's terms. */
    method FileTerms(slot: u32, frequencies: map<u64, nat>, ghost d: Doc)
      requires frequencies == map g | g in d.grams :: Count(d.grams, g)
      modifies `postings
      ensures postings == AddPostings(old(postings), slot, d)
    {
      hide FromCount, Count, AddPostings, PartAdded;
      AllAdded(postings, slot, d);
      var terms := frequencies.Keys;
      ghost var filed: set<u64> := {};
      while terms != {}
        invariant terms <= frequencies.Keys && filed == frequencies.Keys - terms
        invariant postings == PartAdded(old(postings), slot, d, filed)
      {
        var gram :| gram in terms;
        OneMoreAdded(old(postings), slot, d, filed, gram);
        postings := postings[gram := Post(postings, gram) + [Posting(slot, FromCount(frequencies[gram]))]];
        terms := terms - {gram};
        filed := filed + {gram};
      }
      assert filed == Elements(d.grams);
    }

    /** Appends one paragraph as a live slot and files it under its terms. */
    method Append(id: u32, p: Paragraph, questionHash: u64, grams: seq<u64>)
      requires Valid() && id < |sources| && |slots| < U32_LIMIT
      modifies this
      ensures View() == Appended(old(View()), id, Doc(p.index, p.hash, questionHash, grams))
    {
      hide Sound, Interned, Listed, Posted, Distinct, Measured, Counted, AddPostings, FromCount, Value;
      ghost var v := View();
      ghost var d := Doc(p.index, p.hash, questionHash, grams);
      var slot := |slots|;
      var frequencies, length := CountGrams(grams);
      slots := slots + [Slot(id, p.index, FromCount(length), p.hash, questionHash, true)];
      bySource := bySource[id := (if id in bySource then bySource[id] else []) + [slot]];
      FileTerms(slot, frequencies, d);
      liveCount := liveCount + 1;
      liveTotalLength := liveTotalLength + Value(FromCount(length));
    }

    /** The first `k` paragraphs of the record have joined the rows `base`. */
    ghost predicate Joined(id: u32, record: PassageRecord, k: nat, cursor: nat, base: Table)
      requires k <= |record.paragraphs|
      reads this
    {
      && Valid() && id < |sources|
      && CursorReady(record, cursor, k)
      && Below(View(), id, BoundAfter(record, k))
      && Contents() == PrefixTable(base, sources[id], record, k)
    }

    /** Appends paragraph `k` of a record with its own questions. */
    method AppendParagraph(id: u32, record: PassageRecord, k: nat, cursor: nat) returns (next: nat)
      requires Valid() && id < |sources| && WellFormed(record) && k < |record.paragraphs|
      requires |slots| < U32_LIMIT && CursorReady(record, cursor, k)
      requires Below(View(), id, Docs(record)[k].index)
      modifies this
      ensures Valid() && (old(InOrder()) ==> InOrder())
      ensures CursorReady(record, next, k + 1)
      ensures sources == old(sources) && sourceIds == old(sourceIds) && |slots| == |old(slots)| + 1
      ensures Below(View(), id, Docs(record)[k].index + 1)
      ensures Contents() == Merge(old(Contents()), DocTable(sources[id], Docs(record)[k]))
    {
      var p := record.paragraphs[k];
      var questionHash, questionGrams;
      questionHash, questionGrams, next := TakeParagraphQuestions(record, k, cursor);
      ghost var d := Docs(record)[k];
      hide Sound, Ordered, Below, Appended, TableOf, DocTable, Merge, Docs, CursorReady, WellFormed;
      AppendedStep(View(), id, d);
      Append(id, p, questionHash, p.grams + questionGrams);
    }

    /** One round of the record loop. */
    method JoinParagraph(id: u32, record: PassageRecord, k: nat, cursor: nat, ghost base: Table) returns (next: nat)
      requires WellFormed(record) && k < |record.paragraphs| && |slots| < U32_LIMIT
      requires Joined(id, record, k, cursor, base)
      modifies this
      ensures Joined(id, record, k + 1, next, base)
      ensures (old(InOrder()) ==> InOrder()) && |slots| == |old(slots)| + 1
      ensures sources == old(sources) && sourceIds == old(sourceIds)
    {
      PrefixStep(base, sources[id], record, k);
      BelowNext(View(), id, record, k);
      hide Sound, Ordered, Below, TableOf, DocTable, Merge, Docs, CursorReady, WellFormed, PrefixTable, BoundAfter;
      next := AppendParagraph(id, record, k, cursor);
    }

    /** Appends a record's paragraphs to a source that has nothing live. */
    method AppendRecord(id: u32, record: PassageRecord)
      requires Valid() && id < |sources| && WellFormed(record) && Below(View(), id, 0)
      requires |slots| + |record.paragraphs| <= U32_LIMIT
      modifies this
      ensures sources == old(sources) && sourceIds == old(sourceIds)
      ensures Valid() && (old(InOrder()) ==> InOrder())
      ensures |slots| == |old(slots)| + |record.paragraphs|
      ensures Contents() == Merge(old(Contents()), RecordTable(sources[id], record))
    {
      ghost var base := Contents();
      PrefixFacts(base, sources[id], record);
      assert CursorReady(record, 0, 0);
      var cursor := 0;
      hide Sound, Ordered, Below, TableOf, PrefixTable, CursorReady, WellFormed, RecordTable, Merge;
      for k := 0 to |record.paragraphs|
        invariant Joined(id, record, k, cursor, base)
        invariant (old(InOrder()) ==> InOrder()) && |slots| == |old(slots)| + k
        invariant sources == old(sources) && sourceIds == old(sourceIds)
      {
        cursor := JoinParagraph(id, record, k, cursor, base);
      }
    }

    /** Replaces a source's paragraphs with the record's. */
    method UpsertSource(source: Name, record: PassageRecord) returns (changed: bool)
      requires Valid() && ValidUtf8(source) && WellFormed(record)
      requires |slots| + |record.paragraphs| <= U32_LIMIT
      requires source !in sourceIds ==> |sources| < U32_LIMIT
      modifies this
      ensures Valid() && (old(InOrder()) ==> InOrder())
      ensures Contents() == Merge(Without(old(Contents()), source), RecordTable(source, record))
      ensures changed <==> record.paragraphs != [] || exists d :: d in old(Contents()).docs && d.source == source
      ensures |slots| == |old(slots)| + |record.paragraphs|
      ensures sources == if source in old(sourceIds) || record.paragraphs == [] then old(sources)
                         else old(sources) + [source]
    {
      var id: u32;
      ghost var before := Contents();
      if source in sourceIds {
        id := sourceIds[source];
      } else if record.paragraphs == [] {
        UnknownSource(View(), source);
        assert RecordTable(source, record) == EMPTY;
        return false;
      } else {
        UnknownSource(View(), source);
        id := Intern(source);
      }
      KnownSource(View(), source);
      changed := ReplaceParagraphs(id, record);
    }

    /** The part of an upsert behind the name lookup. */
    method ReplaceParagraphs(id: u32, record: PassageRecord) returns (changed: bool)
      requires Valid() && id < |sources| && WellFormed(record)
      requires |slots| + |record.paragraphs| <= U32_LIMIT
      modifies this
      ensures sources == old(sources) && sourceIds == old(sourceIds)
      ensures Valid() && (old(InOrder()) ==> InOrder())
      ensures |slots| == |old(slots)| + |record.paragraphs|
      ensures Contents() == Merge(Without(old(Contents()), sources[id]), RecordTable(sources[id], record))
      ensures changed <==> record.paragraphs != [] || exists d :: d in old(Contents()).docs && d.source == sources[id]
    {
      hide Interned, Listed, Distinct, Posted, Counted, Ordered, TableOf, Merge, RecordTable, Below;
      changed := Tombstone(id);
      if id !in bySource {
        EmptyEntry(View(), id);
        bySource := bySource[id := []];
      }
      NoneLive(View(), id);
      AppendRecord(id, record);
      changed := changed || record.paragraphs != [];
    }

    /** Retracts a source. */
    method RemoveSource(source: Name) returns (changed: bool)
      requires Valid()
      modifies this
      ensures sources == old(sources) && sourceIds == old(sourceIds)
      ensures Valid() && (old(InOrder()) ==> InOrder())
      ensures Contents() == Without(old(Contents()), source)
      ensures changed <==> exists d :: d in old(Contents()).docs && d.source == source
      ensures |slots| == |old(slots)|
    {
      if source !in sourceIds {
        UnknownSource(View(), source);
        return false;
      }
      changed := Tombstone(sourceIds[source]);
    }

    /** The best `limit` live paragraphs for a query: exactly those of the table. */
    method Search(sc: Scoring, grams: seq<u64>, limit: nat, eligible: Option<set<Name>>) returns (hits: seq<Hit>)
      requires Valid()
      ensures Best(hits, Matches(sc, Contents(), grams, eligible), limit)
    {
      hits := QueryLoops.Search(sc, View(), grams, limit, eligible);
    }

    /** One paragraph's evidence; nothing exactly for a paragraph not held. */
    method Explain(sc: Scoring, grams: seq<u64>, source: Name, index: u32) returns (e: Option<IndexEvidence>)
      requires Valid() && sc.Lawful()
      ensures e.None? <==> forall d | d in Contents().docs :: d.source != source || d.index != index
      ensures forall d | d in Contents().docs && d.source == source && d.index == index ::
                e == Some(EvidenceOf(sc, Contents(), grams, d))
    {
      e := QueryLoops.Explain(sc, View(), grams, source, index);
    }

    /** The per-source digests. */
    method SourceDigests() returns (digests: map<Name, u64>)
      requires Valid()
      ensures ListedDigests(View(), digests)
      ensures InOrder() ==> DigestsOf(Contents(), digests)
    {
      digests := Bm25Digest.SourceDigests(View());
    }

    /** Small enough for the sidecar's 32-bit counts. */
    ghost predicate Fits()
      reads this
    {
      |slots| < U32_LIMIT && |postings| < U32_LIMIT && forall n | n in sources :: |n| < U32_LIMIT
    }

    /** The sidecar bytes: those of the one canonical image of the contents. */
    method ToBytes() returns (bytes: Bytes, ghost image: Image)
      requires Valid() && Fits()
      ensures Canonical(image, Contents()) && Legal(image) && bytes == Write(image)
    {
      FitsStorable(View());
      bytes, image := Saver.SaveState(View());
      CanonicalLegal(image, Contents());
    }

    /** The index a sidecar holds; nothing exactly for bytes no legal image has. */
    static method FromBytes(bytes: Bytes) returns (index: Option<Bm25Index>)
      ensures index.Some? <==> Read(bytes).Some?
      ensures index.Some? ==> fresh(index.value) && index.value.Valid() && index.value.deadCount == 0
      ensures index.Some? ==> Legal(Read(bytes).value) && index.value.View() == Loaded(Read(bytes).value)
    {
      var v := Loader.LoadState(bytes);
      if v.None? {
        return None;
      }
      LoadedSound(Read(bytes).value);
      var i := new Bm25Index.Restore(v.value);
      return Some(i);
    }

    /** An index built from records, later ones winning. */
    static method Build(records: seq<(Name, PassageRecord)>) returns (index: Bm25Index)
      requires Buildable(records)
      ensures fresh(index) && index.InOrder() && index.Contents() == Rescan(Listing(records))
      ensures |index.slots| <= TotalParagraphs(records) && |index.sources| <= |records|
    {
      index := new Bm25Index.Empty();
      hide Sound, Ordered, Rescan, Merge, Without, RecordTable, TableOf, WellFormed;
      RescanNothing();
      assert records[..0] == [];
      for k := 0 to |records|
        invariant fresh(index) && index.InOrder() && index.Contents() == Rescan(Listing(records[..k]))
        invariant |index.slots| <= TotalParagraphs(records[..k]) && |index.sources| <= k
      {
        ListingStep(records, k);
        RescanStore(Listing(records[..k]), records[k].0, records[k].1);
        var _ := index.UpsertSource(records[k].0, records[k].1);
      }
      assert records[..|records|] == records;
    }
  }

  // --------------------------------------------------------------- one step's facts

  lemma KillableList(v: State, id: u32)
    requires Sound(v) && id in v.bySource
    ensures forall k | 0 <= k < |v.bySource[id]| :: v.bySource[id][k] < |v.slots| && v.slots[v.bySource[id][k]].alive
    ensures forall j, k | 0 <= j < k < |v.bySource[id]| :: v.bySource[id][j] < v.bySource[id][k]
    ensures v.liveCount == LiveCount(v.slots) && v.liveTotalLength == LiveLength(v.slots)
    ensures v.deadCount == |v.slots| - v.liveCount
  {
    assert SlotList(v, id, v.bySource[id]);
  }

  lemma {:induction false} TombstonedStep(v: State, id: u32)
    requires Sound(v) && id in v.bySource
    ensures Sound(Tombstoned(v, id)) && (Ordered(v) ==> Ordered(Tombstoned(v, id)))
    ensures TableOf(Tombstoned(v, id)) == Without(TableOf(v), v.sources[id])
    ensures Tombstoned(v, id).sources == v.sources && Tombstoned(v, id).sourceIds == v.sourceIds
    ensures |Tombstoned(v, id).slots| == |v.slots|
  {
    TombstonedSound(v, id);
    TombstonedTable(v, id);
    hide Sound, Ordered, TableOf, Without;
  }

  lemma KillNone(slots: seq<Slot>)
    ensures Kill(slots, []) == slots
  {
  }

  lemma KillStep(slots: seq<Slot>, list: seq<u32>, k: nat)
    requires k < |list| && list[k] < |slots|
    requires forall j | 0 <= j < k :: list[j] < list[k]
    ensures Kill(slots, list[..k])[list[k]] == slots[list[k]]
    ensures Kill(slots, list[..k + 1])
         == Kill(slots, list[..k])[list[k] := slots[list[k]].(alive := false)]
  {
    assert list[..k + 1] == list[..k] + [list[k]];
  }

  /** The postings once a document is filed under its terms in `filed`. */
  function PartAdded(postings: map<u64, seq<Posting>>, slot: u32, d: Doc, filed: set<u64>): map<u64, seq<Posting>> {
    map g | g in postings.Keys + filed ::
      Post(postings, g) + if g in filed then [Posting(slot, FromCount(Count(d.grams, g)))] else []
  }

  lemma AllAdded(postings: map<u64, seq<Posting>>, slot: u32, d: Doc)
    ensures PartAdded(postings, slot, d, {}) == postings
    ensures PartAdded(postings, slot, d, Elements(d.grams)) == AddPostings(postings, slot, d)
  {
    hide FromCount, Count;
    forall g | g in postings ensures PartAdded(postings, slot, d, {})[g] == postings[g] {
      assert postings[g] + [] == postings[g];
    }
  }

  lemma OneMoreAdded(postings: map<u64, seq<Posting>>, slot: u32, d: Doc, filed: set<u64>, g: u64)
    requires g !in filed
    ensures var part := PartAdded(postings, slot, d, filed);
      PartAdded(postings, slot, d, filed + {g})
      == part[g := Post(part, g) + [Posting(slot, FromCount(Count(d.grams, g)))]]
  {
    hide FromCount, Count;
    assert Post(PartAdded(postings, slot, d, filed), g) == Post(postings, g) by {
      assert g in postings ==> postings[g] + [] == postings[g];
    }
  }

  /** Every live paragraph of source `id` comes before index `bound`. */
  ghost predicate Below(v: State, id: u32, bound: nat) {
    forall i | 0 <= i < |v.slots| && v.slots[i].alive && v.slots[i].sourceId == id :: v.slots[i].index < bound
  }

  lemma {:induction false} AppendedStep(v: State, id: u32, d: Doc)
    requires Sound(v) && |v.slots| < U32_LIMIT && id < |v.sources| && Below(v, id, d.index)
    ensures Sound(Appended(v, id, d)) && (Ordered(v) ==> Ordered(Appended(v, id, d)))
    ensures Below(Appended(v, id, d), id, d.index + 1)
    ensures Appended(v, id, d).sources == v.sources && Appended(v, id, d).sourceIds == v.sourceIds
    ensures |Appended(v, id, d).slots| == |v.slots| + 1
    ensures TableOf(Appended(v, id, d)) == Merge(TableOf(v), DocTable(v.sources[id], d))
  {
    AppendedSound(v, id, d);
    AppendedTable(v, id, d);
    hide Interned, Listed, Distinct, Posted, Counted, AddPostings, TableOf, DocTable, Merge;
  }

  /** `base` with the rows of the record's first `k` paragraphs. */
  function PrefixTable(base: Table, source: Name, record: PassageRecord, k: nat): Table
    requires k <= |record.paragraphs|
  {
    Merge(base, DocsTable(source, Docs(record)[..k]))
  }

  /** Where the paragraphs after the first `k` may begin. */
  function BoundAfter(record: PassageRecord, k: nat): nat
    requires k <= |record.paragraphs|
  {
    if k == 0 then 0 else record.paragraphs[k - 1].index + 1
  }

  lemma BelowNext(v: State, id: u32, record: PassageRecord, k: nat)
    requires WellFormed(record) && k < |record.paragraphs| && Below(v, id, BoundAfter(record, k))
    ensures Below(v, id, Docs(record)[k].index)
    ensures Docs(record)[k].index + 1 == BoundAfter(record, k + 1)
  {
  }

  lemma PrefixFacts(base: Table, source: Name, record: PassageRecord)
    ensures PrefixTable(base, source, record, 0) == base
    ensures PrefixTable(base, source, record, |record.paragraphs|) == Merge(base, RecordTable(source, record))
  {
    assert Docs(record)[..|record.paragraphs|] == Docs(record);
  }

  lemma {:induction false} PrefixStep(base: Table, source: Name, record: PassageRecord, k: nat)
    requires k < |record.paragraphs| && WellFormed(record)
    ensures Merge(PrefixTable(base, source, record, k), DocTable(source, Docs(record)[k]))
         == PrefixTable(base, source, record, k + 1)
    ensures k > 0 ==> record.paragraphs[k - 1].index + 1 <= record.paragraphs[k].index
  {
    assert Docs(record)[..k + 1][..k] == Docs(record)[..k];
  }

  lemma {:induction false} InternedSame(v: State, w: State, source: Name)
    requires Sound(v) && source !in v.sourceIds && |v.sources| < U32_LIMIT && ValidUtf8(source)
    requires w == v.(sources := v.sources + [source], sourceIds := v.sourceIds[source := |v.sources|])
    ensures Sound(w) && TableOf(w) == TableOf(v) && (Ordered(v) ==> Ordered(w))
  {
    forall id | id in w.bySource ensures SlotList(w, id, w.bySource[id]) {
      assert SlotList(v, id, v.bySource[id]);
    }
    hide SlotList, PostingList, ValidUtf8;
    SameTable(v, w);
  }

  /** The rows are read from the slots, the postings and the names in use. */
  lemma SameTable(v: State, w: State)
    requires Listed(v) && Posted(v) && Listed(w) && Posted(w)
    requires w.slots == v.slots && w.postings == v.postings && v.sources <= w.sources
    ensures TableOf(w) == TableOf(v)
  {
    hide SlotList;
    forall i | 0 <= i < |v.slots| ensures RowOf(w, i) == RowOf(v, i) { }
    forall g, p | g in v.postings && p in v.postings[g] ensures UseOf(w, g, p) == UseOf(v, g, p) {
      assert PostingList(v.postings[g], |v.slots|);
    }
    assert TableOf(w).docs == TableOf(v).docs;
    assert TableOf(w).uses == TableOf(v).uses;
  }

  lemma KnownSource(v: State, source: Name)
    requires Sound(v) && source in v.sourceIds
    ensures v.sourceIds[source] < |v.sources| && v.sources[v.sourceIds[source]] == source
  {
  }

  /** A source without a row has no live slot. */
  lemma NoneLive(v: State, id: u32)
    requires Sound(v) && id < |v.sources| && forall d | d in TableOf(v).docs :: d.source != v.sources[id]
    ensures Below(v, id, 0)
  {
    forall i | 0 <= i < |v.slots| && v.slots[i].alive ensures v.slots[i].sourceId != id { RowIn(v, i); }
  }

  /** A source that was never interned has no row. */
  lemma UnknownSource(v: State, source: Name)
    requires Sound(v) && source !in v.sourceIds
    ensures forall d | d in TableOf(v).docs :: d.source != source
    ensures Without(TableOf(v), source) == TableOf(v)
  {
    assert forall i | 0 <= i < |v.sources| :: v.sources[i] != source;
  }

  /** A source without a slot list has no row. */
  lemma NothingListed(v: State, id: u32)
    requires Sound(v) && id < |v.sources| && id !in v.bySource
    ensures Without(TableOf(v), v.sources[id]) == TableOf(v)
  {
    forall i | 0 <= i < |v.slots| && v.slots[i].alive ensures v.sources[v.slots[i].sourceId] != v.sources[id] {
      assert v.sourceIds[v.sources[v.slots[i].sourceId]] == v.slots[i].sourceId;
    }
  }

  /** Rows of a source are there exactly when its slot list is not empty. */
  lemma TombstoneChanged(v: State, id: u32)
    requires Sound(v) && id < |v.sources|
    ensures (exists d :: d in TableOf(v).docs && d.source == v.sources[id])
       <==> id in v.bySource && v.bySource[id] != []
  {
    if id in v.bySource && v.bySource[id] != [] {
      assert SlotList(v, id, v.bySource[id]);
      assert RowOf(v, v.bySource[id][0]) in TableOf(v).docs;
    }
    if d :| d in TableOf(v).docs && d.source == v.sources[id] {
      var i :| 0 <= i < |v.slots| && v.slots[i].alive && RowOf(v, i) == d;
      assert v.sourceIds[v.sources[v.slots[i].sourceId]] == v.slots[i].sourceId;
      assert v.sourceIds[v.sources[id]] == id;
      assert i in v.bySource[id];
    }
  }

  lemma EmptyEntry(v: State, id: u32)
    requires Sound(v) && id < |v.sources| && id !in v.bySource
    ensures Sound(v.(bySource := v.bySource[id := []]))
    ensures TableOf(v.(bySource := v.bySource[id := []])) == TableOf(v)
    ensures Ordered(v) ==> Ordered(v.(bySource := v.bySource[id := []]))
  {
    var w := v.(bySource := v.bySource[id := []]);
    forall other | other in w.bySource ensures SlotList(w, other, w.bySource[other]) {
      assert other in v.bySource ==> SlotList(v, other, v.bySource[other]);
    }
    hide SlotList, PostingList, ValidUtf8;
    SameTable(v, w);
  }

  // ------------------------------------------------------------------- histories

  function Listing(records: seq<(Name, PassageRecord)>): map<Name, PassageRecord> {
    if records == [] then map[]
    else Listing(records[..|records| - 1])[records[|records| - 1].0 := records[|records| - 1].1]
  }

  function TotalParagraphs(records: seq<(Name, PassageRecord)>): nat {
    if records == [] then 0
    else TotalParagraphs(records[..|records| - 1]) + |records[|records| - 1].1.paragraphs|
  }

  ghost predicate Buildable(records: seq<(Name, PassageRecord)>) {
    && |records| <= U32_LIMIT && TotalParagraphs(records) <= U32_LIMIT
    && forall k | 0 <= k < |records| :: ValidUtf8(records[k].0) && WellFormed(records[k].1)
  }

  lemma RescanNothing()
    ensures Rescan(map[]) == EMPTY
  {
  }

  lemma ListingStep(records: seq<(Name, PassageRecord)>, k: nat)
    requires k < |records| && Buildable(records)
    ensures Listing(records[..k + 1]) == Listing(records[..k])[records[k].0 := records[k].1]
    ensures TotalParagraphs(records[..k + 1]) == TotalParagraphs(records[..k]) + |records[k].1.paragraphs| <= U32_LIMIT
  {
    assert records[..k + 1][..k] == records[..k];
    TotalGrows(records, k + 1);
  }

  lemma {:induction false} TotalGrows(records: seq<(Name, PassageRecord)>, k: nat)
    requires k <= |records|
    ensures TotalParagraphs(records[..k]) <= TotalParagraphs(records)
  {
    if k < |records| {
      TotalGrows(records[..|records| - 1], k);
      assert records[..|records| - 1][..k] == records[..k];
    } else {
      assert records[..k] == records;
    }
  }

  /** Room for every slot and name a history creates; a rebuild lists the current
      records, in any order. */
  ghost predicate Playable(history: seq<Change>) {
    history == [] ||
    (var before, last := history[..|history| - 1], history[|history| - 1];
     && Playable(before)
     && SlotsUsed(history) <= U32_LIMIT && NamesUsed(history) <= U32_LIMIT
     && match last
        case Store(source, record) => ValidUtf8(source) && WellFormed(record)
        case Retract(source) => true
        case Rebuild(records) => Buildable(records) && Listing(records) == Stored(before))
  }

  function SlotsUsed(history: seq<Change>): nat {
    if history == [] then 0
    else
      var before := SlotsUsed(history[..|history| - 1]);
      match history[|history| - 1]
      case Store(source, record) => before + |record.paragraphs|
      case Retract(source) => before
      case Rebuild(records) => TotalParagraphs(records)
  }

  function NamesUsed(history: seq<Change>): nat {
    if history == [] then 0
    else
      var before := NamesUsed(history[..|history| - 1]);
      match history[|history| - 1]
      case Store(source, record) => before + 1
      case Retract(source) => before
      case Rebuild(records) => |records|
  }

  lemma {:induction false} PlayablePrefix(history: seq<Change>, k: nat)
    requires Playable(history) && k <= |history|
    ensures Playable(history[..k])
  {
    if k < |history| {
      PlayablePrefix(history[..|history| - 1], k);
      assert history[..|history| - 1][..k] == history[..k];
    } else {
      assert history[..k] == history;
    }
  }

  /** Any history of upserts, retractions and rebuilds leaves an index whose
      contents are a rescan of the current records. */
  method Replay(history: seq<Change>) returns (index: Bm25Index)
    requires Playable(history)
    ensures index.InOrder() && index.Contents() == Rescan(Stored(history))
  {
    index := new Bm25Index.Empty();
    RescanNothing();
    assert history[..0] == [];
    hide Sound, Ordered, Rescan, Merge, Without, RecordTable, TableOf, WellFormed, Buildable, Listing, TotalParagraphs;
    for k := 0 to |history|
      invariant fresh(index) && index.InOrder() && index.Contents() == Rescan(Stored(history[..k]))
      invariant |index.slots| <= SlotsUsed(history[..k]) && |index.sources| <= NamesUsed(history[..k])
    {
      PlayablePrefix(history, k + 1);
      assert history[..k + 1][..k] == history[..k];
      match history[k] {
        case Store(source, record) =>
          RescanStore(Stored(history[..k]), source, record);
          var _ := index.UpsertSource(source, record);
        case Retract(source) =>
          RescanRetract(Stored(history[..k]), source);
          var _ := index.RemoveSource(source);
        case Rebuild(records) =>
          index := Bm25Index.Build(records);
      }
    }
    assert history[..|history|] == history;
  }

  /** What the index is for: after any history, a query is answered as a naive rescan
      of the records then stored would answer it. */
  method ReplayAndSearch(history: seq<Change>, sc: Scoring, grams: seq<u64>, limit: nat, eligible: Option<set<Name>>)
    returns (hits: seq<Hit>)
    requires Playable(history)
    ensures Best(hits, Matches(sc, Rescan(Stored(history)), grams, eligible), limit)
  {
    hide Best, Matches, Rescan, Stored;
    var index := Replay(history);
    hits := index.Search(sc, grams, limit, eligible);
  }

  /** What a history stores are records as their constructor makes them. */
  lemma {:induction false} StoredWellFormed(history: seq<Change>)
    requires Playable(history)
    ensures forall s | s in Stored(history) :: WellFormed(Stored(history)[s])
  {
    hide WellFormed, Buildable, Listing;
    if history != [] { StoredWellFormed(history[..|history| - 1]); }
  }

  /** After any history the digests are those of the records then stored: nothing has
      drifted. */
  method ReplayDigests(history: seq<Change>) returns (digests: map<Name, u64>)
    requires Playable(history)
    ensures RecordDigests(Stored(history), digests)
  {
    hide Rescan, Stored, Playable, DigestsOf, RecordDigests, ListedDigests;
    StoredWellFormed(history);
    var index := Replay(history);
    digests := index.SourceDigests();
    DigestsMatchRecords(Stored(history), digests);
  }

  // -------------------------------------------------------------------- round trip

  lemma SubsetSize<T>(a: set<T>, b: set<T>)
    requires a <= b
    ensures |a| <= |b|
  {
    assert b == a + (b - a);
  }

  /** A sound index within the 32-bit counts can be stored. */
  lemma FitsStorable(v: State)
    requires Sound(v) && |v.slots| < U32_LIMIT && |v.postings| < U32_LIMIT
    requires forall n | n in v.sources :: |n| < U32_LIMIT
    ensures Storable(TableOf(v))
  {
    hide TableOf, Keyed, ValidUtf8, Finite, Negative, Positive, Listed, Posted, Interned, Measured, Distinct;
    TableKeyed(v);
    CountersAgree(v);
    RowsFit(v);
    UsesFit(v);
    SubsetSize(set u | u in TableOf(v).uses :: u.gram, v.postings.Keys);
  }

  lemma RowsFit(v: State)
    requires Sound(v)
    ensures forall d | d in TableOf(v).docs :: d.source in v.sources && ValidUtf8(d.source) && Finite(d.length) && !Negative(d.length)
  {
    hide ValidUtf8, Finite, Negative, Distinct, Posted, Counted, SlotList;
  }

  lemma UsesFit(v: State)
    requires Sound(v)
    ensures forall u | u in TableOf(v).uses :: u.gram in v.postings && Positive(u.tf)
  {
    hide Positive, Interned, Measured, Distinct, Counted, SlotList;
    forall u | u in TableOf(v).uses ensures u.gram in v.postings && Positive(u.tf) {
      var g, p :| g in v.postings && p in v.postings[g] && v.slots[p.slot].alive && UseOf(v, g, p) == u;
      assert PostingList(v.postings[g], |v.slots|);
    }
  }

  /** The bytes of an index are read back as an index with the same contents and
      nothing dead; so every search, explain and digest answers alike. */
  lemma {:induction false} SavedLoads(image: Image, t: Table)
    requires Legal(image) && Canonical(image, t)
    ensures Read(Write(image)) == Some(image)
    ensures Sound(Loaded(image)) && Ordered(Loaded(image)) && TableOf(Loaded(image)) == t
  {
    ReadsWritten(image);
    LoadedSound(image);
    LoadedTable(image, t);
    LoadedOrdered(image, t);
  }

  lemma {:induction false} FewTerms(terms: seq<ImageTerm>)
    ensures |PostingsOf(terms)| <= |terms|
  {
    if terms != [] {
      var init := terms[..|terms| - 1];
      FewTerms(init);
      assert PostingsOf(terms).Keys == PostingsOf(init).Keys + {terms[|terms| - 1].gram};
    }
  }

  lemma {:induction false} LoadedFits(image: Image)
    requires Legal(image)
    ensures var v := Loaded(image);
      |v.slots| < U32_LIMIT && |v.postings| < U32_LIMIT && forall n | n in v.sources :: |n| < U32_LIMIT
  {
    FewTerms(image.terms);
  }

  /** Writing, reading back and writing again: the same contents, nothing dead,
      the same bytes. */
  method RoundTrip(index: Bm25Index) returns (again: Bm25Index, first: Bytes, second: Bytes)
    requires index.Valid() && index.Fits()
    ensures again.InOrder() && again.Contents() == index.Contents() && again.deadCount == 0
    ensures first == second
  {
    hide Sound, Legal, Canonical, Loaded, Read, Write, TableOf, Ordered, Keyed;
    TableKeyed(index.View());
    ghost var image, copy;
    first, image := index.ToBytes();
    SavedLoads(image, index.Contents());
    LoadedFits(image);
    var loaded := Bm25Index.FromBytes(first);
    again := loaded.value;
    second, copy := again.ToBytes();
    CanonicalUnique(image, copy, index.Contents());
  }

  /** So they are after a round trip through the sidecar, whatever order the index
      was in before. */
  method SavedDigests(index: Bm25Index, ghost corpus: map<Name, PassageRecord>) returns (digests: map<Name, u64>)
    requires index.Valid() && index.Fits() && index.Contents() == Rescan(corpus)
    requires forall s | s in corpus :: WellFormed(corpus[s])
    ensures RecordDigests(corpus, digests)
  {
    hide Rescan, DigestsOf, RecordDigests, WellFormed, ListedDigests;
    var again, first, second := RoundTrip(index);
    digests := again.SourceDigests();
    DigestsMatchRecords(corpus, digests);
  }

  /** Two histories that end in the same live content write the same bytes. */
  lemma {:induction false} SameContentsSameBytes(a: Image, b: Image, v: State, w: State)
    requires Sound(v) && Sound(w) && TableOf(v) == TableOf(w)
    requires Canonical(a, TableOf(v)) && Canonical(b, TableOf(w))
    ensures Write(a) == Write(b)
  {
    TableKeyed(v);
    CanonicalUnique(a, b, TableOf(v));
  }
}
