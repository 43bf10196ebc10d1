/** The canonical image of a table, and the index an image is loaded into. */
module Bm25Canon {
  import opened Common
  import opened Floats
  import opened Orders
  import opened Utf8
  import opened Codec
  import opened Bm25Table
  import opened Bm25State
  import opened Bm25Image

  // ------------------------------------------------------------- an image's rows

  function ImageRow(sources: seq<Name>, s: ImageSlot): DocRow
    requires s.sourceId < |sources|
  {
    DocRow(sources[s.sourceId], s.index, s.length, s.hash, s.questionHash)
  }

  function ImageRows(sources: seq<Name>, slots: seq<ImageSlot>): seq<DocRow>
    requires forall s | s in slots :: s.sourceId < |sources|
  {
    seq(|slots|, k requires 0 <= k < |slots| => ImageRow(sources, slots[k]))
  }

  function ImageUse(sources: seq<Name>, slots: seq<ImageSlot>, gram: u64, p: Posting): UseRow
    requires p.slot < |slots| && slots[p.slot].sourceId < |sources|
  {
    UseRow(gram, sources[slots[p.slot].sourceId], slots[p.slot].index, p.tf)
  }

  predicate RowBefore(a: DocRow, b: DocRow) {
    BytesLess(a.source, b.source) || (a.source == b.source && a.index < b.index)
  }

  predicate NumberBefore(a: u64, b: u64) { a < b }

  predicate SlotBefore(a: Posting, b: Posting) { a.slot < b.slot }

  function Grams(terms: seq<ImageTerm>): seq<u64> {
    seq(|terms|, k requires 0 <= k < |terms| => terms[k].gram)
  }

  /** The postings of one term list its rows by ascending slot. */
  ghost predicate CanonicalTerm(sources: seq<Name>, slots: seq<ImageSlot>, term: ImageTerm, t: Table)
    requires forall s | s in slots :: s.sourceId < |sources|
  {
    && (forall p | p in term.postings :: p.slot < |slots|)
    && StrictlySorted(term.postings, SlotBefore)
    && (set p | p in term.postings :: ImageUse(sources, slots, term.gram, p)) == UsesOf(t, term.gram)
  }

  ghost predicate CanonicalNames(sources: seq<Name>, t: Table) {
    StrictlySorted(sources, BytesLess) && Elements(sources) == set d | d in t.docs :: d.source
  }

  ghost predicate CanonicalRows(sources: seq<Name>, slots: seq<ImageSlot>, t: Table) {
    && (forall s | s in slots :: s.sourceId < |sources|)
    && StrictlySorted(ImageRows(sources, slots), RowBefore)
    && Elements(ImageRows(sources, slots)) == t.docs
  }

  ghost predicate CanonicalTerms(sources: seq<Name>, slots: seq<ImageSlot>, terms: seq<ImageTerm>, t: Table)
    requires forall s | s in slots :: s.sourceId < |sources|
  {
    && StrictlySorted(Grams(terms), NumberBefore)
    && Elements(Grams(terms)) == (set u | u in t.uses :: u.gram)
    && (forall term | term in terms :: CanonicalTerm(sources, slots, term, t))
  }

  /** Names, rows and terms each once, in order, and nothing else. */
  ghost predicate Canonical(img: Image, t: Table) {
    && CanonicalNames(img.sources, t)
    && CanonicalRows(img.sources, img.slots, t)
    && CanonicalTerms(img.sources, img.slots, img.terms, t)
  }

  lemma {:induction false} RowsTotal(docs: set<DocRow>)
    requires forall d, e | d in docs && e in docs && d.source == e.source && d.index == e.index :: d == e
    ensures TotalOn(RowBefore, docs)
  {
    hide RowBefore;
    forall x | x in docs ensures !RowBefore(x, x) { RowsCompare(x, x); }
    forall x, y | x in docs && y in docs && x != y ensures RowBefore(x, y) || RowBefore(y, x) {
      RowsCompare(x, y);
    }
    forall x, y, z | x in docs && y in docs && z in docs && RowBefore(x, y) && RowBefore(y, z)
      ensures RowBefore(x, z)
    {
      RowsTransitive(x, y, z);
    }
  }

  lemma RowsCompare(x: DocRow, y: DocRow)
    ensures !RowBefore(x, x)
    ensures RowBefore(x, y) || RowBefore(y, x) || (x.source == y.source && x.index == y.index)
  {
    hide BytesLess;
    BytesIrreflexive(x.source);
    BytesTrichotomy(x.source, y.source);
  }

  lemma RowsTransitive(x: DocRow, y: DocRow, z: DocRow)
    requires RowBefore(x, y) && RowBefore(y, z)
    ensures RowBefore(x, z)
  {
    hide BytesLess;
    if BytesLess(x.source, y.source) && BytesLess(y.source, z.source) {
      BytesTransitive(x.source, y.source, z.source);
    }
  }

  /** A row of the image stands at one slot. */
  lemma SlotOfRow(sources: seq<Name>, slots: seq<ImageSlot>, t: Table, i: nat, j: nat)
    requires CanonicalRows(sources, slots, t) && i < |slots| && j < |slots|
    ensures var rows := ImageRows(sources, slots);
      rows[i].source == rows[j].source && rows[i].index == rows[j].index ==> i == j
  {
    var rows := ImageRows(sources, slots);
    BytesIrreflexive(rows[i].source);
    hide BytesLess;
    assert i < j ==> RowBefore(rows[i], rows[j]);
    assert j < i ==> RowBefore(rows[j], rows[i]);
  }

  lemma NamesUnique(a: seq<Name>, b: seq<Name>, t: Table)
    requires CanonicalNames(a, t) && CanonicalNames(b, t)
    ensures a == b && NoDuplicates(a)
  {
    hide BytesLess;
    BytesTotal(Elements(a));
    SortedUnique(a, b, BytesLess);
    SortedNoDuplicates(a, BytesLess);
  }

  lemma SlotsUnique(names: seq<Name>, a: seq<ImageSlot>, b: seq<ImageSlot>, t: Table)
    requires Keyed(t) && NoDuplicates(names) && CanonicalRows(names, a, t) && CanonicalRows(names, b, t)
    ensures a == b
  {
    hide RowBefore;
    RowsTotal(t.docs);
    var rows := ImageRows(names, a);
    SortedUnique(rows, ImageRows(names, b), RowBefore);
    assert |a| == |rows| == |b|;
    forall k | 0 <= k < |a| ensures a[k] == b[k] {
      assert rows[k] == ImageRow(names, a[k]) == ImageRow(names, b[k]);
    }
  }

  lemma TermsUnique(names: seq<Name>, slots: seq<ImageSlot>, a: seq<ImageTerm>, b: seq<ImageTerm>, t: Table)
    requires CanonicalRows(names, slots, t) && CanonicalTerms(names, slots, a, t) && CanonicalTerms(names, slots, b, t)
    ensures a == b
  {
    SortedUnique(Grams(a), Grams(b), NumberBefore);
    assert |a| == |Grams(a)| == |b|;
    hide CanonicalRows, CanonicalTerm;
    forall k | 0 <= k < |a| ensures a[k] == b[k] {
      assert Grams(a)[k] == Grams(b)[k];
      TermUnique(names, slots, t, a[k], b[k]);
    }
  }

  /** Equal contents, equal images: the canonical form is one. */
  lemma {:induction false} CanonicalUnique(a: Image, b: Image, t: Table)
    requires Keyed(t) && Canonical(a, t) && Canonical(b, t)
    ensures a == b
  {
    hide CanonicalNames, CanonicalTerms;
    NamesUnique(a.sources, b.sources, t);
    SlotsUnique(a.sources, a.slots, b.slots, t);
    TermsUnique(a.sources, a.slots, a.terms, b.terms, t);
  }

  lemma TermUnique(names: seq<Name>, slots: seq<ImageSlot>, t: Table, a: ImageTerm, b: ImageTerm)
    requires CanonicalRows(names, slots, t) && a.gram == b.gram
    requires CanonicalTerm(names, slots, a, t) && CanonicalTerm(names, slots, b, t)
    ensures a == b
  {
    forall p ensures p in a.postings <==> p in b.postings {
      if p in a.postings { PostingShared(names, slots, t, a, b, p); }
      if p in b.postings { PostingShared(names, slots, t, b, a, p); }
    }
    hide CanonicalRows;
    assert Elements(a.postings) == Elements(b.postings);
    SlotOrder(a.postings);
    SortedUnique(a.postings, b.postings, SlotBefore);
  }

  lemma PostingShared(names: seq<Name>, slots: seq<ImageSlot>, t: Table, a: ImageTerm, b: ImageTerm, p: Posting)
    requires CanonicalRows(names, slots, t) && a.gram == b.gram && p in a.postings
    requires CanonicalTerm(names, slots, a, t) && CanonicalTerm(names, slots, b, t)
    ensures p in b.postings
  {
    hide RowBefore;
    var u := ImageUse(names, slots, a.gram, p);
    assert u in UsesOf(t, b.gram);
    var q :| q in b.postings && ImageUse(names, slots, b.gram, q) == u;
    SlotOfRow(names, slots, t, p.slot, q.slot);
  }

  lemma SlotOrder(postings: seq<Posting>)
    requires StrictlySorted(postings, SlotBefore)
    ensures TotalOn(SlotBefore, Elements(postings))
  {
    forall p, q | p in Elements(postings) && q in Elements(postings) && p != q ensures SlotBefore(p, q) || SlotBefore(q, p) {
      var i :| 0 <= i < |postings| && postings[i] == p;
      var j :| 0 <= j < |postings| && postings[j] == q;
    }
  }

  // ---------------------------------------------------------------- canon is legal

  /** A table small enough to count in 32 bits, of names and numbers the format
      can hold. */
  ghost predicate Storable(t: Table) {
    && Keyed(t) && |t.docs| < U32_LIMIT && |set u | u in t.uses :: u.gram| < U32_LIMIT
    && (forall d | d in t.docs :: ValidUtf8(d.source) && |d.source| < U32_LIMIT && Finite(d.length) && !Negative(d.length))
    && (forall u | u in t.uses :: Positive(u.tf))
  }

  lemma {:induction false} SourcesAtMostDocs(docs: set<DocRow>)
    ensures |set d | d in docs :: d.source| <= |docs|
  {
    if docs != {} {
      var e :| e in docs;
      SourcesAtMostDocs(docs - {e});
      assert (set d | d in docs :: d.source) == (set d | d in docs - {e} :: d.source) + {e.source};
    }
  }

  lemma {:induction false} AscendingLength(postings: seq<Posting>, n: nat)
    requires StrictlySorted(postings, SlotBefore) && forall p | p in postings :: p.slot < n
    ensures |postings| <= n
  {
    if postings != [] {
      var last := postings[|postings| - 1];
      var init := postings[..|postings| - 1];
      forall p | p in init ensures p.slot < last.slot {
        var i :| 0 <= i < |init| && init[i] == p;
        assert SlotBefore(postings[i], last);
      }
      AscendingLength(init, last.slot);
    }
  }

  /** The image of what an index holds is one it will accept. */
  lemma {:induction false} CanonicalLegal(img: Image, t: Table)
    requires Canonical(img, t) && Storable(t)
    ensures Legal(img)
  {
    hide CanonicalNames, CanonicalTerms, LegalNames, LegalSlots, LegalTerms;
    LegalCanonicalNames(img.sources, t);
    LegalCanonicalSlots(img.sources, img.slots, t);
    LegalCanonicalTerms(img.sources, img.slots, img.terms, t);
  }

  lemma LegalCanonicalNames(names: seq<Name>, t: Table)
    requires CanonicalNames(names, t) && Storable(t)
    ensures LegalNames(names)
  {
    hide ValidUtf8, BytesLess, Finite, Negative, Positive;
    NamesUnique(names, names, t);
    DistinctLength(names);
    SourcesAtMostDocs(t.docs);
    forall n | n in names ensures NameFits(n) && ValidUtf8(n) {
      assert n in Elements(names);
    }
  }

  lemma LegalCanonicalSlots(names: seq<Name>, slots: seq<ImageSlot>, t: Table)
    requires CanonicalRows(names, slots, t) && Storable(t)
    ensures LegalSlots(slots, |names|)
  {
    hide ValidUtf8, BytesLess, Finite, Negative, Positive;
    var rows := ImageRows(names, slots);
    RowsTotal(t.docs);
    SortedNoDuplicates(rows, RowBefore);
    DistinctLength(rows);
    forall k | 0 <= k < |slots| ensures SlotOk(|names|, slots[..k], slots[k]) {
      LegalCanonicalSlot(names, slots, t, k);
    }
  }

  lemma LegalCanonicalSlot(names: seq<Name>, slots: seq<ImageSlot>, t: Table, k: nat)
    requires CanonicalRows(names, slots, t) && Storable(t) && k < |slots|
    ensures SlotOk(|names|, slots[..k], slots[k])
  {
    hide ValidUtf8, BytesLess, Finite, Negative, Positive;
    var rows, s := ImageRows(names, slots), slots[k];
    assert rows[k] in Elements(rows);
    forall b | b in slots[..k] ensures b.sourceId != s.sourceId || b.index != s.index {
      var j :| 0 <= j < k && slots[j] == b;
      SlotOfRow(names, slots, t, j, k);
    }
    if k > 0 {
      BytesIrreflexive(rows[k].source);
      assert RowBefore(rows[k - 1], rows[k]);
    }
  }

  lemma LegalCanonicalTerms(names: seq<Name>, slots: seq<ImageSlot>, terms: seq<ImageTerm>, t: Table)
    requires CanonicalRows(names, slots, t) && CanonicalTerms(names, slots, terms, t) && Storable(t)
    ensures LegalTerms(terms, |slots|)
  {
    LegalCanonicalSlots(names, slots, t);
    hide ValidUtf8, BytesLess, Finite, Negative, Positive, CanonicalRows, CanonicalTerm, SlotOk;
    var grams := Grams(terms);
    SortedNoDuplicates(grams, NumberBefore);
    DistinctLength(grams);
    forall k | 0 <= k < |terms| ensures TermOk(terms[..k], terms[k]) {
      forall b | b in terms[..k] ensures b.gram != terms[k].gram {
        var j :| 0 <= j < k && terms[j] == b;
        assert grams[j] != grams[k];
      }
    }
    forall term | term in terms ensures TermFits(|slots|, term) {
      CanonicalTermFits(names, slots, term, t);
    }
  }

  lemma CanonicalTermFits(sources: seq<Name>, slots: seq<ImageSlot>, term: ImageTerm, t: Table)
    requires forall s | s in slots :: s.sourceId < |sources|
    requires CanonicalTerm(sources, slots, term, t) && |slots| < U32_LIMIT
    requires forall u | u in t.uses :: Positive(u.tf)
    ensures TermFits(|slots|, term)
  {
    AscendingLength(term.postings, |slots|);
    hide Positive;
    forall k | 0 <= k < |term.postings| ensures PostingOk(|slots|, term.postings[..k], term.postings[k]) {
      var p := term.postings[k];
      assert p in term.postings;
      assert ImageUse(sources, slots, term.gram, p) in UsesOf(t, term.gram);
      assert k > 0 ==> SlotBefore(term.postings[k - 1], p);
    }
  }

  // ------------------------------------------------------------------- loading

  function SourceIdsOf(names: seq<Name>): map<Name, u32>
    requires |names| < U32_LIMIT
  {
    if names == [] then map[]
    else SourceIdsOf(names[..|names| - 1])[names[|names| - 1] := |names| - 1]
  }

  function GroupOf(slots: seq<ImageSlot>): map<u32, seq<u32>>
    requires |slots| < U32_LIMIT
  {
    if slots == [] then map[]
    else
      var before, id := GroupOf(slots[..|slots| - 1]), slots[|slots| - 1].sourceId;
      before[id := (if id in before then before[id] else []) + [|slots| - 1]]
  }

  function LoadedSlot(s: ImageSlot): Slot {
    Slot(s.sourceId, s.index, s.length, s.hash, s.questionHash, true)
  }

  function LoadedSlots(slots: seq<ImageSlot>): (r: seq<Slot>)
    ensures |r| == |slots|
  {
    seq(|slots|, k requires 0 <= k < |slots| => LoadedSlot(slots[k]))
  }

  function PostingsOf(terms: seq<ImageTerm>): map<u64, seq<Posting>> {
    if terms == [] then map[]
    else PostingsOf(terms[..|terms| - 1])[terms[|terms| - 1].gram := terms[|terms| - 1].postings]
  }

  /** The index an image is loaded into: nothing dead. */
  function Loaded(img: Image): State
    requires |img.sources| < U32_LIMIT && |img.slots| < U32_LIMIT
  {
    var slots := LoadedSlots(img.slots);
    State(img.sources, SourceIdsOf(img.sources), GroupOf(img.slots), slots, PostingsOf(img.terms),
          |slots|, LiveLength(slots), 0)
  }

  lemma {:induction false} SourceIdsFacts(names: seq<Name>)
    requires |names| < U32_LIMIT && NoDuplicates(names)
    ensures SourceIdsOf(names).Keys == Elements(names)
    ensures forall k | 0 <= k < |names| :: SourceIdsOf(names)[names[k]] == k
  {
    if names != [] {
      SourceIdsFacts(names[..|names| - 1]);
    }
  }

  /** Slots of one source, oldest first. */
  ghost predicate Group(list: seq<u32>, id: u32, slots: seq<ImageSlot>) {
    && list != []
    && (forall k | 0 <= k < |list| :: list[k] < |slots| && slots[list[k]].sourceId == id)
    && (forall j, k | 0 <= j < k < |list| :: list[j] < list[k])
  }

  /** Each source's slots and no other slot. */
  ghost predicate Grouped(groups: map<u32, seq<u32>>, slots: seq<ImageSlot>) {
    && (forall id | id in groups :: Group(groups[id], id, slots))
    && (forall i | 0 <= i < |slots| :: slots[i].sourceId in groups && i in groups[slots[i].sourceId])
  }

  /** Another slot joins its source's group and leaves the others. */
  lemma {:induction false} GroupGrown(list: seq<u32>, id: u32, slots: seq<ImageSlot>, s: ImageSlot)
    requires |slots| < U32_LIMIT - 1 && (list == [] || Group(list, id, slots))
    ensures Group(list, id, slots) ==> Group(list, id, slots + [s])
    ensures s.sourceId == id ==> Group(list + [|slots|], id, slots + [s])
  {
  }

  lemma {:induction false} GroupStep(groups: map<u32, seq<u32>>, slots: seq<ImageSlot>, s: ImageSlot)
    requires |slots| < U32_LIMIT - 1 && Grouped(groups, slots)
    ensures Grouped(groups[s.sourceId := (if s.sourceId in groups then groups[s.sourceId] else []) + [|slots|]], slots + [s])
  {
    hide Group;
    var list := (if s.sourceId in groups then groups[s.sourceId] else []) + [|slots|];
    var all, next := slots + [s], groups[s.sourceId := list];
    forall id | id in next ensures Group(next[id], id, all) {
      GroupGrown(if id in groups then groups[id] else [], id, slots, s);
    }
    assert list[|list| - 1] == |slots|;
    forall i | 0 <= i < |all| ensures all[i].sourceId in next && i in next[all[i].sourceId] {
      if i < |slots| { assert i in groups[slots[i].sourceId]; }
    }
  }

  lemma {:induction false} GroupFacts(slots: seq<ImageSlot>)
    requires |slots| < U32_LIMIT
    ensures Grouped(GroupOf(slots), slots)
  {
    if slots != [] {
      var init := slots[..|slots| - 1];
      GroupFacts(init);
      GroupStep(GroupOf(init), init, slots[|slots| - 1]);
      assert slots == init + [slots[|slots| - 1]];
      hide Grouped;
    }
  }

  lemma {:induction false} PostingsListed(terms: seq<ImageTerm>)
    requires AllOk(terms, 0, TermOk)
    ensures forall k | 0 <= k < |terms| :: terms[k].gram in PostingsOf(terms) && PostingsOf(terms)[terms[k].gram] == terms[k].postings
  {
    if terms != [] {
      var init, last := terms[..|terms| - 1], terms[|terms| - 1];
      FirstTermsOk(terms);
      PostingsListed(init);
      assert TermOk(init, last);
      assert PostingsOf(terms) == PostingsOf(init)[last.gram := last.postings];
      hide PostingsOf, AllOk;
      forall k | 0 <= k < |init|
        ensures terms[k].gram in PostingsOf(terms) && PostingsOf(terms)[terms[k].gram] == terms[k].postings
      {
        assert terms[k] == init[k] && init[k] in init;
      }
    }
  }

  lemma {:induction false} PostingsKnown(terms: seq<ImageTerm>, g: u64)
    requires g in PostingsOf(terms)
    ensures exists k :: 0 <= k < |terms| && terms[k].gram == g && terms[k].postings == PostingsOf(terms)[g]
  {
    var init, last := terms[..|terms| - 1], terms[|terms| - 1];
    if g == last.gram {
      assert terms[|terms| - 1].gram == g;
    } else {
      PostingsKnown(init, g);
      var k :| 0 <= k < |init| && init[k].gram == g && init[k].postings == PostingsOf(init)[g];
      assert terms[k] == init[k];
    }
  }

  lemma {:induction false} PostingsFacts(terms: seq<ImageTerm>)
    requires AllOk(terms, 0, TermOk)
    ensures forall k | 0 <= k < |terms| :: terms[k].gram in PostingsOf(terms) && PostingsOf(terms)[terms[k].gram] == terms[k].postings
    ensures forall g | g in PostingsOf(terms) :: exists k :: 0 <= k < |terms| && terms[k].gram == g && terms[k].postings == PostingsOf(terms)[g]
  {
    hide PostingsOf;
    PostingsListed(terms);
    forall g | g in PostingsOf(terms)
      ensures exists k :: 0 <= k < |terms| && terms[k].gram == g && terms[k].postings == PostingsOf(terms)[g]
    {
      PostingsKnown(terms, g);
    }
  }

  lemma FirstTermsOk(terms: seq<ImageTerm>)
    requires terms != [] && AllOk(terms, 0, TermOk)
    ensures AllOk(terms[..|terms| - 1], 0, TermOk)
  {
    hide TermOk;
    var init := terms[..|terms| - 1];
    forall k | 0 <= k < |init| ensures TermOk(init[..k], init[k]) {
      assert init[..k] == terms[..k];
    }
  }

  lemma {:induction false} AllLive(slots: seq<ImageSlot>)
    ensures LiveCount(LoadedSlots(slots)) == |slots|
  {
    if slots != [] {
      AllLive(slots[..|slots| - 1]);
      assert LoadedSlots(slots)[..|slots| - 1] == LoadedSlots(slots[..|slots| - 1]);
    }
  }

  lemma LegalDistinct(img: Image)
    requires Legal(img)
    ensures NoDuplicates(img.sources)
    ensures forall n | n in img.sources :: ValidUtf8(n)
  {
    hide ValidUtf8;
    var names := img.sources;
    forall i, j | 0 <= i < j < |names| ensures names[i] != names[j] {
      assert NameOk(names[..j], names[j]);
      assert names[..j][i] == names[i];
    }
    forall n | n in names ensures ValidUtf8(n) {
      var k :| 0 <= k < |names| && names[k] == n;
      assert NameOk(names[..k], names[k]);
    }
  }

  lemma {:induction false} LoadedListed(img: Image)
    requires LegalSlots(img.slots, |img.sources|) && |img.sources| < U32_LIMIT
    ensures Listed(Loaded(img))
  {
    GroupFacts(img.slots);
    forall i | 0 <= i < |img.slots| ensures img.slots[i].sourceId < |img.sources| {
      assert SlotOk(|img.sources|, img.slots[..i], img.slots[i]);
    }
    hide GroupOf, LiveLength, PostingsOf, SourceIdsOf, SlotOk, LegalSlots, Group, SlotList;
    var w := Loaded(img);
    forall id | id in w.bySource ensures id < |w.sources| && SlotList(w, id, w.bySource[id]) {
      GroupIsList(img, id, GroupOf(img.slots)[id]);
    }
  }

  lemma GroupIsList(img: Image, id: u32, list: seq<u32>)
    requires |img.sources| < U32_LIMIT && |img.slots| < U32_LIMIT && Group(list, id, img.slots)
    requires forall i | 0 <= i < |img.slots| :: img.slots[i].sourceId < |img.sources|
    ensures id < |img.sources| && SlotList(Loaded(img), id, list)
  {
    hide GroupOf, LiveLength, PostingsOf, SourceIdsOf;
    assert img.slots[list[0]].sourceId == id;
  }

  lemma LoadedDistinct(img: Image)
    requires LegalSlots(img.slots, |img.sources|) && |img.sources| < U32_LIMIT
    ensures Distinct(Loaded(img)) && Measured(Loaded(img))
  {
    hide GroupOf, LiveLength, PostingsOf, SourceIdsOf, Finite, Negative;
    var w := Loaded(img);
    forall i, j | 0 <= i < j < |w.slots|
      ensures w.slots[i].sourceId != w.slots[j].sourceId || w.slots[i].index != w.slots[j].index
    {
      assert SlotOk(|img.sources|, img.slots[..j], img.slots[j]);
      assert img.slots[..j][i] == img.slots[i];
    }
    forall i | 0 <= i < |w.slots| ensures Finite(w.slots[i].length) && !Negative(w.slots[i].length) {
      assert SlotOk(|img.sources|, img.slots[..i], img.slots[i]);
    }
  }

  lemma {:induction false} LoadedPosted(img: Image)
    requires LegalTerms(img.terms, |img.slots|) && |img.slots| < U32_LIMIT && |img.sources| < U32_LIMIT
    ensures Posted(Loaded(img))
  {
    PostingsFacts(img.terms);
    hide GroupOf, LiveLength, PostingsOf, SourceIdsOf, LoadedSlots, Positive;
    forall g | g in Loaded(img).postings ensures PostingList(Loaded(img).postings[g], |img.slots|) {
      var k :| 0 <= k < |img.terms| && img.terms[k].gram == g && img.terms[k].postings == PostingsOf(img.terms)[g];
      assert TermFits(|img.slots|, img.terms[k]);
      FittingPostings(img.terms[k].postings, |img.slots|);
    }
  }

  lemma PostingListPush(init: seq<Posting>, p: Posting, n: nat)
    requires PostingList(init, n) && PostingOk(n, init, p)
    ensures PostingList(init + [p], n)
  {
    hide Positive;
  }

  lemma {:induction false} FittingPostings(postings: seq<Posting>, n: nat)
    requires AllOk(postings, 0, PostingRule(n))
    ensures PostingList(postings, n)
  {
    if postings != [] {
      var last := |postings| - 1;
      var init := postings[..last];
      hide PostingList, PostingOk;
      assert PostingRule(n)(postings[..last], postings[last]);
      forall k | 0 <= k < |init| ensures PostingRule(n)(init[..k], init[k]) {
        assert init[..k] == postings[..k];
      }
      FittingPostings(init, n);
      PostingListPush(init, postings[last], n);
      assert postings == init + [postings[last]];
    }
  }

  lemma LoadedInterned(names: seq<Name>, w: State)
    requires LegalNames(names) && w.sources == names && w.sourceIds == SourceIdsOf(names)
    requires NoDuplicates(names) && forall n | n in names :: ValidUtf8(n)
    ensures Interned(w)
  {
    SourceIdsFacts(names);
    hide ValidUtf8, SourceIdsOf;
    forall s | s in w.sourceIds ensures w.sourceIds[s] < |w.sources| && w.sources[w.sourceIds[s]] == s {
      assert s in Elements(names);
      var k :| 0 <= k < |names| && names[k] == s;
    }
  }

  /** Whatever is accepted loads into a sound index: distinct live paragraphs,
      ascending postings in range, positive frequencies. */
  lemma {:induction false} LoadedSound(img: Image)
    requires Legal(img)
    ensures Sound(Loaded(img)) && Loaded(img).deadCount == 0
  {
    LegalDistinct(img);
    LoadedInterned(img.sources, Loaded(img));
    LoadedListed(img);
    LoadedDistinct(img);
    LoadedPosted(img);
    AllLive(img.slots);
    hide Legal, Listed, Distinct, Measured, Posted, Interned, GroupOf, PostingsOf, SourceIdsOf, LiveCount, LiveLength;
  }

  /** The canonical image of a table loads into an index with that table. */
  lemma {:induction false} LoadedTable(img: Image, t: Table)
    requires Legal(img) && Canonical(img, t) && Sound(Loaded(img))
    ensures TableOf(Loaded(img)) == t
  {
    forall d ensures d in TableOf(Loaded(img)).docs <==> d in t.docs { LoadedDoc(img, t, d); }
    forall u ensures u in TableOf(Loaded(img)).uses <==> u in t.uses { LoadedUse(img, t, u); }
    hide Canonical, TableOf, LegalSlots, LegalTerms, Interned, Listed, Measured, Distinct, Counted, Posted;
    assert TableOf(Loaded(img)).docs == t.docs && TableOf(Loaded(img)).uses == t.uses;
  }

  lemma LoadedDoc(img: Image, t: Table, d: DocRow)
    requires Legal(img) && Canonical(img, t) && Listed(Loaded(img)) && Posted(Loaded(img))
    ensures d in TableOf(Loaded(img)).docs <==> d in t.docs
  {
    hide LegalTerms, GroupOf, PostingsOf, SourceIdsOf, LiveLength, CanonicalTerms, CanonicalNames, RowBefore, SlotList, PostingList, ValidUtf8;
    var w, rows := Loaded(img), ImageRows(img.sources, img.slots);
    forall i | 0 <= i < |rows| ensures RowOf(w, i) == rows[i] && w.slots[i].alive { }
    if d in TableOf(w).docs {
      var i: nat :| i < |w.slots| && RowOf(w, i) == d;
      assert rows[i] in Elements(rows);
    }
    if d in t.docs {
      assert d in Elements(rows);
      var i :| 0 <= i < |rows| && rows[i] == d;
      RowIn(w, i);
    }
  }

  lemma {:induction false} LoadedUse(img: Image, t: Table, u: UseRow)
    requires Legal(img) && Canonical(img, t) && Listed(Loaded(img)) && Posted(Loaded(img))
    ensures u in TableOf(Loaded(img)).uses <==> u in t.uses
  {
    PostingsFacts(img.terms);
    assert u in t.uses ==> u.gram in Elements(Grams(img.terms));
    hide GroupOf, PostingsOf, SourceIdsOf, LiveLength, RowBefore, SlotList, TermFits, CanonicalNames, ValidUtf8, PostingList;
    if u in TableOf(Loaded(img)).uses { LoadedUseBack(img, t, u); }
    if u in t.uses { LoadedUseForth(img, t, u); }
  }

  lemma LoadedUseBack(img: Image, t: Table, u: UseRow)
    requires Legal(img) && Canonical(img, t) && Listed(Loaded(img)) && Posted(Loaded(img))
    requires u in TableOf(Loaded(img)).uses
    ensures u in t.uses
  {
    hide Loaded, TableOf, Canonical, LegalTerms, Listed, Posted, ValidUtf8;
    var g, p := UseFound(Loaded(img), u);
    PostingOfUse(img, t, g, p);
    LoadedUseIs(img, g, p);
  }

  /** The posting a use is read from. */
  lemma UseFound(v: State, u: UseRow) returns (g: u64, p: Posting)
    requires Listed(v) && Posted(v) && u in TableOf(v).uses
    ensures g in v.postings && p in v.postings[g]
    ensures p.slot < |v.slots| && v.slots[p.slot].sourceId < |v.sources| && UseOf(v, g, p) == u
  {
    hide SlotList, Positive;
    assert forall g, p | g in v.postings && p in v.postings[g] ::
      PostingList(v.postings[g], |v.slots|) && p.slot < |v.slots| && v.slots[p.slot].sourceId < |v.sources|;
    g, p :| g in v.postings && p in v.postings[g] && UseOf(v, g, p) == u;
  }

  lemma PostingOfUse(img: Image, t: Table, g: u64, p: Posting)
    requires Legal(img) && Canonical(img, t) && Posted(Loaded(img))
    requires g in Loaded(img).postings && p in Loaded(img).postings[g]
    ensures p.slot < |img.slots| && img.slots[p.slot].sourceId < |img.sources|
    ensures ImageUse(img.sources, img.slots, g, p) in t.uses
  {
    PostingsFacts(img.terms);
    hide GroupOf, PostingsOf, SourceIdsOf, LiveLength, RowBefore, TermFits, CanonicalNames, ValidUtf8, PostingList, LegalSlots;
    var k :| 0 <= k < |img.terms| && img.terms[k].gram == g && img.terms[k].postings == Loaded(img).postings[g];
    hide Posted, Loaded;
    assert CanonicalTerm(img.sources, img.slots, img.terms[k], t);
    hide CanonicalTerms, CanonicalRows;
    assert ImageUse(img.sources, img.slots, g, p) in UsesOf(t, g);
  }

  /** A posting stands for the same row in the image and in the index. */
  lemma LoadedUseIs(img: Image, g: u64, p: Posting)
    requires |img.sources| < U32_LIMIT && |img.slots| < U32_LIMIT && Listed(Loaded(img))
    requires p.slot < |img.slots| && img.slots[p.slot].sourceId < |img.sources|
    ensures Loaded(img).slots[p.slot].alive
    ensures UseOf(Loaded(img), g, p) == ImageUse(img.sources, img.slots, g, p)
  {
    hide GroupOf, PostingsOf, SourceIdsOf, LiveLength, SlotList;
  }

  lemma {:induction false} LoadedUseForth(img: Image, t: Table, u: UseRow)
    requires Legal(img) && Canonical(img, t) && Listed(Loaded(img)) && Posted(Loaded(img))
    requires u in t.uses
    ensures u in TableOf(Loaded(img)).uses
  {
    PostingsFacts(img.terms);
    assert u.gram in Elements(Grams(img.terms));
    hide GroupOf, PostingsOf, SourceIdsOf, LiveLength, RowBefore, SlotList, TermFits, CanonicalNames, ValidUtf8, PostingList, LegalSlots;
    var w := Loaded(img);
    var k :| 0 <= k < |img.terms| && Grams(img.terms)[k] == u.gram;
    assert w.postings[u.gram] == img.terms[k].postings;
    assert CanonicalTerm(img.sources, img.slots, img.terms[k], t);
    hide Loaded, CanonicalTerms, CanonicalRows, Grams, AllOk;
    assert u in UsesOf(t, u.gram);
    var p :| p in img.terms[k].postings && ImageUse(img.sources, img.slots, u.gram, p) == u;
    LoadedUseIs(img, u.gram, p);
  }

  /** The canonical image lists each source's paragraphs upwards. */
  lemma {:induction false} LoadedOrdered(img: Image, t: Table)
    requires Legal(img) && Canonical(img, t) && Listed(Loaded(img))
    ensures Ordered(Loaded(img))
  {
    GroupFacts(img.slots);
    hide LegalTerms, GroupOf, PostingsOf, SourceIdsOf, LiveLength, CanonicalTerms, CanonicalNames, SlotList, RowBefore;
    var w := Loaded(img);
    hide Listed;
    forall id, j, k | id in w.bySource && 0 <= j < k < |w.bySource[id]|
      ensures w.slots[w.bySource[id][j]].index < w.slots[w.bySource[id][k]].index
    {
      IndexGrows(img.sources, img.slots, t, w.bySource[id][j], w.bySource[id][k]);
    }
  }

  lemma IndexGrows(sources: seq<Name>, slots: seq<ImageSlot>, t: Table, a: nat, b: nat)
    requires CanonicalRows(sources, slots, t) && a < b < |slots| && slots[a].sourceId == slots[b].sourceId
    ensures slots[a].index < slots[b].index
  {
    hide BytesLess;
    var rows := ImageRows(sources, slots);
    assert RowBefore(rows[a], rows[b]);
    BytesIrreflexive(rows[a].source);
  }

  /** In the image, each source's paragraphs come upwards, others between or not. */
  ghost predicate SlotsRise(slots: seq<ImageSlot>) {
    forall i, j | 0 <= i < j < |slots| && slots[i].sourceId == slots[j].sourceId :: slots[i].index < slots[j].index
  }

  /** An accepted image loads into lists that rise exactly when its slots do. The
      reader compares neighbours alone, so not every accepted image is one. */
  lemma {:induction false} OrderedExactly(img: Image)
    requires Legal(img)
    ensures Listed(Loaded(img)) && (Ordered(Loaded(img)) <==> SlotsRise(img.slots))
  {
    assert |img.sources| < U32_LIMIT && |img.slots| < U32_LIMIT;
    LoadedListed(img);
    GroupFacts(img.slots);
    hide LegalTerms, LegalNames, LegalSlots, GroupOf, PostingsOf, SourceIdsOf, LiveLength, SlotList, Group, Grouped, Listed, SlotsRise;
    var w := Loaded(img);
    assert forall i | 0 <= i < |img.slots| :: w.slots[i].index == img.slots[i].index;
    hide Loaded;
    if Ordered(w) { ListsRise(img.slots, w); }
    if SlotsRise(img.slots) { SlotsRiseInLists(img.slots, w); }
  }

  lemma ListsRise(slots: seq<ImageSlot>, w: State)
    requires Listed(w) && Ordered(w) && Grouped(w.bySource, slots) && |w.slots| == |slots|
    requires forall i | 0 <= i < |slots| :: w.slots[i].index == slots[i].index
    ensures SlotsRise(slots)
  {
    hide Listed;
    forall i, j | 0 <= i < j < |slots| && slots[i].sourceId == slots[j].sourceId ensures slots[i].index < slots[j].index {
      var list := w.bySource[slots[i].sourceId];
      assert Group(list, slots[i].sourceId, slots);
      var a :| 0 <= a < |list| && list[a] == i;
      var b :| 0 <= b < |list| && list[b] == j;
      assert a < b;
    }
  }

  lemma SlotsRiseInLists(slots: seq<ImageSlot>, w: State)
    requires Listed(w) && SlotsRise(slots) && Grouped(w.bySource, slots) && |w.slots| == |slots|
    requires forall i | 0 <= i < |slots| :: w.slots[i].index == slots[i].index
    ensures Ordered(w)
  {
    hide Listed;
    forall id, j, k | id in w.bySource && 0 <= j < k < |w.bySource[id]|
      ensures w.slots[w.bySource[id][j]].index < w.slots[w.bySource[id][k]].index
    {
      assert Group(w.bySource[id], id, slots);
    }
  }

  /** Three paragraphs of two sources, one source's scattered around the other's. */
  function Scattered(hashes: seq<u64>): Image
    requires |hashes| == 6
  {
    Image([[0x61], [0x62]],
          [ImageSlot(0, 5, 0, hashes[0], hashes[1]), ImageSlot(1, 0, 0, hashes[2], hashes[3]), ImageSlot(0, 3, 0, hashes[4], hashes[5])],
          [])
  }

  /** It passes every check of the reader, and loads out of order. */
  lemma {:induction false} InterleavedAccepted(hashes: seq<u64>)
    requires |hashes| == 6
    ensures var img := Scattered(hashes);
      Legal(img) && Read(Write(img)) == Some(img) && Sound(Loaded(img)) && !Ordered(Loaded(img))
  {
    var img := Scattered(hashes);
    ScatteredLegal(hashes);
    hide Legal, Read, Write, Loaded, Sound, Listed;
    ReadsWritten(img);
    LoadedSound(img);
    OrderedExactly(img);
    assert img.slots[0].sourceId == img.slots[2].sourceId && img.slots[2].index < img.slots[0].index;
  }

  lemma ScatteredLegal(hashes: seq<u64>)
    requires |hashes| == 6
    ensures Legal(Scattered(hashes))
  {
    var img := Scattered(hashes);
    assert ValidUtf8([0x61]) && ValidUtf8([0x62]);
    hide ValidUtf8;
    assert LegalNames(img.sources);
    assert LegalSlots(img.slots, 2);
  }
}
