/** Writing the sidecar: sort, renumber, write; tombstones never reach it. */
module Bm25Save {
  import opened Common
  import opened Floats
  import opened Orders
  import opened Codec
  import opened Bm25Table
  import opened Bm25State
  import opened Bm25Query
  import opened Bm25Image
  import opened Bm25Canon

  // --------------------------------------------------------------------- sources

  lemma NamesTotal(names: set<Name>)
    ensures TotalOn(BytesLess, names)
  {
    BytesTotal(names);
  }

  /** Whether a slot list has a live slot. */
  method AnyAlive(v: State, list: seq<u32>) returns (any: bool)
    requires forall k | 0 <= k < |list| :: list[k] < |v.slots| && v.slots[list[k]].alive
    ensures any <==> list != []
  {
    any := false;
    for k := 0 to |list|
      invariant any <==> k > 0
    {
      if v.slots[list[k]].alive { any := true; }
    }
  }

  /** The live sources' names in order. */
  method LiveSources(v: State) returns (names: seq<Name>)
    requires Sound(v)
    ensures CanonicalNames(names, TableOf(v))
  {
    var found: seq<Name> := [];
    var todo := v.bySource.Keys;
    assert forall id | id in v.bySource :: id < |v.sources|;
    hide Listed, Measured, Distinct, Posted, Counted, Interned, BytesLess;
    while todo != {}
      invariant todo <= v.bySource.Keys
      invariant forall n :: n in found <==> exists id :: id in v.bySource && id !in todo && v.bySource[id] != [] && v.sources[id] == n
      invariant NoDuplicates(found)
    {
      var id :| id in todo;
      LiveList(v, id);
      var any := AnyAlive(v, v.bySource[id]);
      if any {
        NameNew(v, id);
        assert v.sources[id] !in found;
        found := found + [v.sources[id]];
      }
      todo := todo - {id};
    }
    NamesTotal(Elements(found));
    SortSorts(found, BytesLess);
    names := Sort(found, BytesLess);
    forall s ensures s in Elements(names) <==> s in set d | d in TableOf(v).docs :: d.source {
      LiveSource(v, s);
    }
  }

  lemma LiveList(v: State, id: u32)
    requires Sound(v) && id in v.bySource
    ensures forall k | 0 <= k < |v.bySource[id]| :: v.bySource[id][k] < |v.slots| && v.slots[v.bySource[id][k]].alive
  {
    assert SlotList(v, id, v.bySource[id]);
  }

  /** The new number of each name: its place. */
  method NumberNames(names: seq<Name>) returns (ids: map<Name, u32>)
    requires NoDuplicates(names) && |names| < U32_LIMIT
    ensures ids.Keys == Elements(names)
    ensures forall k | 0 <= k < |names| :: ids[names[k]] == k
  {
    ids := map[];
    for k := 0 to |names|
      invariant ids.Keys == Elements(names[..k])
      invariant forall j | 0 <= j < k :: ids[names[j]] == j
    {
      assert names[..k + 1] == names[..k] + [names[k]];
      ids := ids[names[k] := k];
    }
    assert names[..|names|] == names;
  }

  // ----------------------------------------------------------------------- slots

  /** The sort key of a slot: its source's name, then its paragraph. */
  predicate KeyBefore(v: State, a: u32, b: u32) {
    && a < |v.slots| && b < |v.slots| && v.slots[a].sourceId < |v.sources| && v.slots[b].sourceId < |v.sources|
    && RowBefore(RowOf(v, a), RowOf(v, b))
  }

  function KeyOrder(v: State): (u32, u32) -> bool {
    (a: u32, b: u32) => KeyBefore(v, a, b)
  }

  ghost predicate LiveOrder(v: State, order: seq<u32>)
    requires Listed(v)
  {
    && |order| <= U32_LIMIT
    && (forall k | 0 <= k < |order| :: order[k] < |v.slots| && v.slots[order[k]].alive)
    && (forall i: nat | i < |v.slots| && v.slots[i].alive :: i in order)
    && (forall j, k | 0 <= j < k < |order| :: RowBefore(RowOf(v, order[j]), RowOf(v, order[k])))
  }

  lemma {:induction false} KeyTotal(v: State, ids: set<u32>)
    requires Sound(v) && forall i | i in ids :: i < |v.slots| && v.slots[i].alive
    ensures TotalOn(KeyOrder(v), ids)
  {
    hide Measured, Distinct, Posted, Counted, Interned, RowBefore, SlotList;
    var less := KeyOrder(v);
    forall i | i in ids ensures !less(i, i) { RowsCompare(RowOf(v, i), RowOf(v, i)); }
    forall i, j | i in ids && j in ids && i != j ensures less(i, j) || less(j, i) {
      RowInjective(v, i, j);
      RowsCompare(RowOf(v, i), RowOf(v, j));
    }
    forall i, j, k | i in ids && j in ids && k in ids && less(i, j) && less(j, k) ensures less(i, k) {
      RowsTransitive(RowOf(v, i), RowOf(v, j), RowOf(v, k));
    }
  }

  /** The live slots, oldest first. */
  method LiveSlots(v: State) returns (live: seq<u32>)
    requires Listed(v)
    ensures forall k | 0 <= k < |live| :: live[k] < |v.slots| && v.slots[live[k]].alive
    ensures forall j: nat | j < |v.slots| && v.slots[j].alive :: j in live
    ensures NoDuplicates(live) && |live| <= |v.slots|
  {
    live := [];
    for i := 0 to |v.slots|
      invariant forall k | 0 <= k < |live| :: live[k] < i && v.slots[live[k]].alive
      invariant forall j: nat | j < i && v.slots[j].alive :: j in live
      invariant NoDuplicates(live) && |live| <= i
    {
      if v.slots[i].alive {
        live := live + [i];
      }
    }
  }

  /** The live slots, sorted by source name and paragraph. */
  method OrderSlots(v: State) returns (order: seq<u32>)
    requires Sound(v)
    ensures LiveOrder(v, order) && NoDuplicates(order) && |order| <= |v.slots|
  {
    var live := LiveSlots(v);
    hide Measured, Distinct, Posted, Counted, Interned, RowBefore, SlotList;
    assert forall i | i in Elements(live) :: i < |v.slots| && v.slots[i].alive;
    KeyTotal(v, Elements(live));
    SortSorts(live, KeyOrder(v));
    order := Sort(live, KeyOrder(v));
    SortedNoDuplicates(order, KeyOrder(v));
    OrderedLive(v, live, order);
  }

  lemma OrderedLive(v: State, live: seq<u32>, order: seq<u32>)
    requires Listed(v) && Elements(order) == Elements(live) && StrictlySorted(order, KeyOrder(v)) && |order| <= U32_LIMIT
    requires forall k | 0 <= k < |live| :: live[k] < |v.slots| && v.slots[live[k]].alive
    requires forall j: nat | j < |v.slots| && v.slots[j].alive :: j in live
    ensures LiveOrder(v, order)
  {
    hide RowBefore, SlotList;
    forall k | 0 <= k < |order| ensures order[k] < |v.slots| && v.slots[order[k]].alive {
      assert order[k] in Elements(live);
    }
    forall i: nat | i < |v.slots| && v.slots[i].alive ensures i in order {
      assert i in Elements(live);
    }
    forall j, k | 0 <= j < k < |order| ensures RowBefore(RowOf(v, order[j]), RowOf(v, order[k])) {
      assert KeyOrder(v)(order[j], order[k]);
    }
  }

  /** The new number of each live slot: its place in the order. */
  method NumberSlots(order: seq<u32>) returns (ids: map<u32, u32>)
    requires NoDuplicates(order) && |order| <= U32_LIMIT
    ensures ids.Keys == Elements(order)
    ensures forall k | 0 <= k < |order| :: ids[order[k]] == k
  {
    ids := map[];
    for k := 0 to |order|
      invariant ids.Keys == Elements(order[..k])
      invariant forall j | 0 <= j < k :: ids[order[j]] == j
    {
      assert order[..k + 1] == order[..k] + [order[k]];
      ids := ids[order[k] := k];
    }
    assert order[..|order|] == order;
  }

  /** The slot records behind an order. */
  function SavedSlot(v: State, ids: map<Name, u32>, i: u32): ImageSlot
    requires i < |v.slots| && v.slots[i].sourceId < |v.sources| && v.sources[v.slots[i].sourceId] in ids
  {
    var s := v.slots[i];
    ImageSlot(ids[v.sources[s.sourceId]], s.index, s.length, s.hash, s.questionHash)
  }

  ghost predicate Numbered(names: seq<Name>, ids: map<Name, u32>) {
    ids.Keys == Elements(names) && forall k | 0 <= k < |names| :: ids[names[k]] == k
  }

  lemma NumberedName(names: seq<Name>, ids: map<Name, u32>, n: Name)
    requires Numbered(names, ids) && n in ids
    ensures ids[n] < |names| && names[ids[n]] == n
  {
    assert n in Elements(names);
    var k :| 0 <= k < |names| && names[k] == n;
  }

  /** The records `slots` are the rows of `order`. */
  ghost predicate SavedAs(v: State, names: seq<Name>, order: seq<u32>, slots: seq<ImageSlot>)
    requires Listed(v) && LiveOrder(v, order)
  {
    && |slots| == |order|
    && forall k | 0 <= k < |order| :: slots[k].sourceId < |names| && ImageRow(names, slots[k]) == RowOf(v, order[k])
  }

  /** Writes the slot records in order. */
  method WriteSlots(v: State, names: seq<Name>, ids: map<Name, u32>, order: seq<u32>, prefix: Bytes)
    returns (out: Bytes, ghost slots: seq<ImageSlot>)
    requires Sound(v) && LiveOrder(v, order) && CanonicalNames(names, TableOf(v)) && Numbered(names, ids)
    ensures out == prefix + WriteAll(slots, WriteSlot) && SavedAs(v, names, order, slots)
  {
    out, slots := prefix, [];
    hide Measured, Distinct, Posted, Counted, Interned, RowBefore, BytesLess, WriteSlot, SlotList, Numbered, TableOf;
    assert prefix == prefix + WriteAll(slots, WriteSlot);
    for k := 0 to |order|
      invariant out == prefix + WriteAll(slots, WriteSlot) && |slots| == k
      invariant forall j | 0 <= j < k :: slots[j].sourceId < |names| && ImageRow(names, slots[j]) == RowOf(v, order[j])
    {
      NameOfSlot(v, names, ids, order[k]);
      var s := SavedSlot(v, ids, order[k]);
      WriteAllAppend(slots, s, WriteSlot);
      out := out + WriteSlot(s);
      slots := slots + [s];
    }
  }

  lemma NameOfSlot(v: State, names: seq<Name>, ids: map<Name, u32>, i: u32)
    requires Sound(v) && CanonicalNames(names, TableOf(v)) && Numbered(names, ids)
    requires i < |v.slots| && v.slots[i].alive
    ensures v.slots[i].sourceId < |v.sources| && v.sources[v.slots[i].sourceId] in ids
    ensures SavedSlot(v, ids, i).sourceId < |names| && ImageRow(names, SavedSlot(v, ids, i)) == RowOf(v, i)
  {
    RowIn(v, i);
    hide Measured, Distinct, Posted, Counted, Interned, BytesLess;
    assert RowOf(v, i).source in Elements(names);
    NumberedName(names, ids, v.sources[v.slots[i].sourceId]);
  }

  /** The records are the canonical rows. */
  lemma SavedRows(v: State, names: seq<Name>, order: seq<u32>, slots: seq<ImageSlot>)
    requires Sound(v) && LiveOrder(v, order) && SavedAs(v, names, order, slots)
    ensures CanonicalRows(names, slots, TableOf(v))
  {
    hide Measured, Distinct, Counted, Interned, Posted, RowBefore, SlotList;
    SavedRow(v, names, order, slots);
    var rows := ImageRows(names, slots);
    forall j, k | 0 <= j < k < |rows| ensures RowBefore(rows[j], rows[k]) {
      assert rows[j] == RowOf(v, order[j]) && rows[k] == RowOf(v, order[k]);
    }
    hide LiveOrder, SavedAs, Listed, TableOf, ImageRows;
    forall d ensures d in Elements(rows) <==> d in TableOf(v).docs {
      SavedOrNot(v, names, order, slots, d);
    }
  }

  lemma SavedRow(v: State, names: seq<Name>, order: seq<u32>, slots: seq<ImageSlot>)
    requires Listed(v) && LiveOrder(v, order) && SavedAs(v, names, order, slots)
    ensures forall s | s in slots :: s.sourceId < |names|
    ensures |ImageRows(names, slots)| == |order|
    ensures forall k | 0 <= k < |order| :: ImageRows(names, slots)[k] == RowOf(v, order[k])
  {
    hide RowBefore, SlotList;
    forall s | s in slots ensures s.sourceId < |names| {
      var k :| 0 <= k < |slots| && slots[k] == s;
    }
  }

  lemma SavedOrNot(v: State, names: seq<Name>, order: seq<u32>, slots: seq<ImageSlot>, d: DocRow)
    requires Sound(v) && LiveOrder(v, order) && forall s | s in slots :: s.sourceId < |names|
    requires |ImageRows(names, slots)| == |order|
    requires forall k | 0 <= k < |order| :: ImageRows(names, slots)[k] == RowOf(v, order[k])
    ensures d in Elements(ImageRows(names, slots)) <==> d in TableOf(v).docs
  {
    hide Measured, Distinct, Counted, Interned, RowBefore, SlotList, PostingList, ImageRows;
    var rows := ImageRows(names, slots);
    if d in Elements(rows) {
      var k :| 0 <= k < |rows| && rows[k] == d;
      RowIn(v, order[k]);
    }
    if d in TableOf(v).docs {
      var i: nat :| i < |v.slots| && v.slots[i].alive && RowOf(v, i) == d;
      var k :| 0 <= k < |order| && order[k] == i;
      assert rows[k] == d;
    }
  }

  // ----------------------------------------------------------------------- terms

  /** The terms with a live posting, in order. */
  method LiveTerms(v: State) returns (terms: seq<u64>)
    requires Sound(v)
    ensures StrictlySorted(terms, NumberBefore)
    ensures Elements(terms) == (set u | u in TableOf(v).uses :: u.gram)
  {
    var found: seq<u64> := [];
    var todo := v.postings.Keys;
    hide Measured, Distinct, Counted, Interned, Posted, Listed, TableOf, UsesOf, AliveOf, PostingList;
    while todo != {}
      invariant todo <= v.postings.Keys
      invariant forall g :: g in found <==> g in v.postings && g !in todo && exists u :: u in TableOf(v).uses && u.gram == g
      invariant NoDuplicates(found)
    {
      var g :| g in todo;
      CarriersAgree(v, g);
      var alive := LivePosting(v, v.postings[g]);
      TermLive(v, g);
      if alive {
        found := found + [g];
      }
      todo := todo - {g};
    }
    SortSorts(found, NumberBefore);
    terms := Sort(found, NumberBefore);
    forall u | u in TableOf(v).uses ensures u.gram in v.postings { UsedTerm(v, u); }
  }

  lemma UsedTerm(v: State, u: UseRow)
    requires Sound(v) && u in TableOf(v).uses
    ensures u.gram in v.postings
  {
  }

  lemma TermLive(v: State, g: u64)
    requires Sound(v) && PostingList(Post(v.postings, g), |v.slots|)
    ensures AliveOf(v.slots, Post(v.postings, g)) != [] <==> exists u :: u in TableOf(v).uses && u.gram == g
  {
    CarriersAgree(v, g);
    if u :| u in TableOf(v).uses && u.gram == g {
      assert u in UsesOf(TableOf(v), g);
    }
    if AliveOf(v.slots, Post(v.postings, g)) != [] {
      assert UsesOf(TableOf(v), g) != {};
      var u :| u in UsesOf(TableOf(v), g);
    }
  }

  method LivePosting(v: State, list: seq<Posting>) returns (any: bool)
    requires PostingList(list, |v.slots|)
    ensures any <==> AliveOf(v.slots, list) != []
  {
    hide Positive;
    any := false;
    for k := 0 to |list|
      invariant any <==> AliveOf(v.slots, list[..k]) != []
    {
      assert list[..k + 1][..k] == list[..k];
      if v.slots[list[k].slot].alive { any := true; }
    }
    assert list[..|list|] == list;
  }

  /** `live` are the postings `list` whose slots the order knows, renumbered. */
  ghost predicate Renumbered(list: seq<Posting>, order: seq<u32>, live: seq<Posting>) {
    && (forall q :: q in live <==> q.slot < |order| && Posting(order[q.slot], q.tf) in list)
    && (forall j, k | 0 <= j < k < |live| :: live[j].slot != live[k].slot)
  }

  lemma RenumberOne(list: seq<Posting>, order: seq<u32>, live: seq<Posting>, p: Posting, m: u32)
    requires Renumbered(list, order, live) && NoDuplicates(order) && m < |order| && order[m] == p.slot
    requires forall q | q in list :: q.slot != p.slot
    ensures Renumbered(list + [p], order, live + [Posting(m, p.tf)])
  {
    forall r | r in live ensures r.slot != m {
      assert Posting(order[r.slot], r.tf) in list;
    }
  }

  lemma RenumberSkip(list: seq<Posting>, order: seq<u32>, live: seq<Posting>, p: Posting)
    requires Renumbered(list, order, live) && p.slot !in order
    ensures Renumbered(list + [p], order, live)
  {
  }

  lemma SortRenumbered(list: seq<Posting>, order: seq<u32>, live: seq<Posting>)
    requires Renumbered(list, order, live)
    ensures StrictlySorted(Sort(live, SlotBefore), SlotBefore)
    ensures forall q :: q in Sort(live, SlotBefore) <==> q in live
  {
    forall p, q | p in Elements(live) && q in Elements(live) && p != q ensures SlotBefore(p, q) || SlotBefore(q, p) {
      var j :| 0 <= j < |live| && live[j] == p;
      var k :| 0 <= k < |live| && live[k] == q;
    }
    SortSorts(live, SlotBefore);
    forall q ensures q in Sort(live, SlotBefore) <==> q in live {
      assert q in Sort(live, SlotBefore) <==> q in Elements(Sort(live, SlotBefore));
    }
  }

  /** A term's live postings under the new slot numbers, in order. */
  method SavedPostings(v: State, list: seq<Posting>, ids: map<u32, u32>, order: seq<u32>) returns (saved: seq<Posting>)
    requires Sound(v) && PostingList(list, |v.slots|) && LiveOrder(v, order) && NoDuplicates(order)
    requires ids.Keys == Elements(order) && forall k | 0 <= k < |order| :: ids[order[k]] == k
    ensures StrictlySorted(saved, SlotBefore)
    ensures forall q :: q in saved <==> q.slot < |order| && Posting(order[q.slot], q.tf) in list
  {
    var live: seq<Posting> := [];
    hide Measured, Distinct, Counted, Interned, Posted, RowBefore, Positive, Renumbered, SlotList;
    NoneRenumbered(order);
    for n := 0 to |list|
      invariant Renumbered(list[..n], order, live)
    {
      var p := list[n];
      assert list[..n + 1] == list[..n] + [p];
      if v.slots[p.slot].alive {
        ghost var m :| 0 <= m < |order| && order[m] == p.slot;
        assert ids[p.slot] == m;
        RenumberOne(list[..n], order, live, p, m);
        live := live + [Posting(ids[p.slot], p.tf)];
      } else {
        RenumberSkip(list[..n], order, live, p);
      }
    }
    assert list[..|list|] == list;
    SortRenumbered(list, order, live);
    saved := Sort(live, SlotBefore);
    RenumberedIn(list, order, live);
  }

  lemma NoneRenumbered(order: seq<u32>)
    ensures Renumbered([], order, [])
  {
  }

  lemma RenumberedIn(list: seq<Posting>, order: seq<u32>, live: seq<Posting>)
    requires Renumbered(list, order, live)
    ensures forall q :: q in live <==> q.slot < |order| && Posting(order[q.slot], q.tf) in list
  {
  }

  /** The renumbered postings are the canonical ones. */
  lemma {:induction false} SavedTerm(v: State, g: u64, names: seq<Name>, order: seq<u32>, slots: seq<ImageSlot>, saved: seq<Posting>)
    requires Sound(v) && LiveOrder(v, order) && PostingList(Post(v.postings, g), |v.slots|)
    requires SavedAs(v, names, order, slots) && forall s | s in slots :: s.sourceId < |names|
    requires StrictlySorted(saved, SlotBefore)
    requires forall q :: q in saved <==> q.slot < |order| && Posting(order[q.slot], q.tf) in Post(v.postings, g)
    ensures CanonicalTerm(names, slots, ImageTerm(g, saved), TableOf(v))
  {
    hide Interned, Listed, Posted, Measured, Distinct, Counted, LiveOrder, TableOf, UsesOf, StrictlySorted, PostingList;
    assert |slots| == |order|;
    forall s | s in saved ensures s.slot < |slots| { }
    hide SavedAs;
    forall u | u in UsesOf(TableOf(v), g) ensures exists q :: q in saved && ImageUse(names, slots, g, q) == u {
      var q := SavedUse(v, g, names, order, slots, saved, u);
    }
    forall q | q in saved ensures ImageUse(names, slots, g, q) in UsesOf(TableOf(v), g) {
      SavedFrom(v, g, names, order, slots, saved, q);
    }
    assert (set q | q in saved :: ImageUse(names, slots, g, q)) == UsesOf(TableOf(v), g);
  }

  lemma {:induction false} SavedUse(v: State, g: u64, names: seq<Name>, order: seq<u32>, slots: seq<ImageSlot>, saved: seq<Posting>, u: UseRow)
    returns (q: Posting)
    requires Sound(v) && LiveOrder(v, order) && PostingList(Post(v.postings, g), |v.slots|)
    requires SavedAs(v, names, order, slots)
    requires forall q :: q in saved <==> q.slot < |order| && Posting(order[q.slot], q.tf) in Post(v.postings, g)
    requires u in UsesOf(TableOf(v), g)
    ensures q in saved && q.slot < |slots| && ImageUse(names, slots, g, q) == u
  {
    var list := Post(v.postings, g);
    var k := PostingOf(v, g, u);
    hide Sound, Posted, RowBefore, SlotList, TableOf, UsesOf, Positive;
    var m :| 0 <= m < |order| && order[m] == list[k].slot;
    q := Posting(m, list[k].tf);
    assert Posting(order[m], q.tf) == list[k];
    assert ImageRow(names, slots[m]) == RowOf(v, order[m]);
  }

  lemma SavedFrom(v: State, g: u64, names: seq<Name>, order: seq<u32>, slots: seq<ImageSlot>, saved: seq<Posting>, q: Posting)
    requires Sound(v) && LiveOrder(v, order) && PostingList(Post(v.postings, g), |v.slots|)
    requires SavedAs(v, names, order, slots)
    requires q in saved && q.slot < |order| && Posting(order[q.slot], q.tf) in Post(v.postings, g)
    ensures ImageUse(names, slots, g, q) in UsesOf(TableOf(v), g)
  {
    var list := Post(v.postings, g);
    hide Measured, Distinct, Counted, Interned, RowBefore, SlotList, TableOf, UsesOf;
    var k :| 0 <= k < |list| && list[k] == Posting(order[q.slot], q.tf);
    UseIn(v, g, k);
  }

  /** One term's block: its live postings under the new numbers. */
  method TermImage(v: State, g: u64, names: seq<Name>, order: seq<u32>, ids: map<u32, u32>, ghost slots: seq<ImageSlot>)
    returns (t: ImageTerm)
    requires Sound(v) && LiveOrder(v, order) && NoDuplicates(order)
    requires ids.Keys == Elements(order) && forall k | 0 <= k < |order| :: ids[order[k]] == k
    requires SavedAs(v, names, order, slots) && forall s | s in slots :: s.sourceId < |names|
    ensures t.gram == g && CanonicalTerm(names, slots, t, TableOf(v))
  {
    hide Measured, Distinct, Counted, Interned, SlotList, CanonicalTerm, TableOf, LiveOrder, SavedAs;
    ListOf(v, g);
    hide Listed, Posted, PostingList, StrictlySorted;
    var saved := SavedPostings(v, Post(v.postings, g), ids, order);
    SavedTerm(v, g, names, order, slots, saved);
    t := ImageTerm(g, saved);
  }

  lemma GramsMore(terms: seq<ImageTerm>, t: ImageTerm)
    ensures Grams(terms + [t]) == Grams(terms) + [t.gram]
  {
  }

  lemma NoTerms()
    ensures Grams([]) == [] && WriteAll([], WriteTerm) == []
  {
  }

  /** Writes the terms' blocks in order. */
  method WriteTerms(v: State, names: seq<Name>, order: seq<u32>, ids: map<u32, u32>, terms: seq<u64>,
                    ghost slots: seq<ImageSlot>, prefix: Bytes)
    returns (out: Bytes, ghost image: seq<ImageTerm>)
    requires Sound(v) && LiveOrder(v, order) && NoDuplicates(order)
    requires ids.Keys == Elements(order) && forall k | 0 <= k < |order| :: ids[order[k]] == k
    requires SavedAs(v, names, order, slots) && forall s | s in slots :: s.sourceId < |names|
    ensures out == prefix + WriteAll(image, WriteTerm) && Grams(image) == terms
    ensures forall t | t in image :: CanonicalTerm(names, slots, t, TableOf(v))
  {
    out, image := prefix, [];
    hide Measured, Distinct, Posted, Counted, Interned, Grams, WriteAll, WriteTerm, Listed, CanonicalTerm, TableOf, LiveOrder, SavedAs;
    NoTerms();
    assert prefix == prefix + WriteAll(image, WriteTerm);
    for k := 0 to |terms|
      invariant out == prefix + WriteAll(image, WriteTerm) && Grams(image) == terms[..k]
      invariant forall t | t in image :: CanonicalTerm(names, slots, t, TableOf(v))
    {
      var t := TermImage(v, terms[k], names, order, ids, slots);
      WriteAllAppend(image, t, WriteTerm);
      GramsMore(image, t);
      assert terms[..k + 1] == terms[..k] + [terms[k]];
      out := out + WriteTerm(t);
      image := image + [t];
    }
    assert terms[..|terms|] == terms;
  }

  method WriteNames(names: seq<Name>, prefix: Bytes) returns (out: Bytes)
    ensures out == prefix + WriteAll(names, WriteName)
  {
    out := prefix;
    hide WriteName;
    assert prefix == prefix + WriteAll(names[..0], WriteName);
    for k := 0 to |names|
      invariant out == prefix + WriteAll(names[..k], WriteName)
    {
      assert names[..k + 1] == names[..k] + [names[k]];
      WriteAllAppend(names[..k], names[k], WriteName);
      out := out + WriteName(names[k]);
    }
    assert names[..|names|] == names;
  }

  // ------------------------------------------------------------------ the sidecar

  /** The live slots in canonical order: the bytes are those of the one canonical
      image of the table. */
  method SaveState(v: State) returns (out: Bytes, ghost image: Image)
    requires Sound(v) && Storable(TableOf(v))
    ensures Canonical(image, TableOf(v)) && out == Write(image)
  {
    hide Interned, Listed, Measured, Distinct, Posted, Counted, Storable, CanonicalRows, BytesLess, RowBefore,
         WriteAll, LittleEndian, TableOf, StrictlySorted, CanonicalTerm, SlotList;
    var names := LiveSources(v);
    CanonicalCounts(v, names);
    NamesUnique(names, names, TableOf(v));
    var nameIds := NumberNames(names);
    var order := OrderSlots(v);
    var slotIds := NumberSlots(order);
    out := INDEX_MAGIC + LittleEndian(|names|, 4);
    out := WriteNames(names, out);
    out := out + LittleEndian(|order|, 4);
    ghost var slots, terms;
    out, slots := WriteSlots(v, names, nameIds, order, out);
    SavedRows(v, names, order, slots);
    RangeOfRows(names, slots, TableOf(v));
    var live := LiveTerms(v);
    out := out + LittleEndian(|live|, 4);
    out, terms := WriteTerms(v, names, order, slotIds, live, slots, out);
    image := Image(names, slots, terms);
    assert |terms| == |Grams(terms)|;
    Assemble(image, out);
  }

  lemma RangeOfRows(names: seq<Name>, slots: seq<ImageSlot>, t: Table)
    requires CanonicalRows(names, slots, t)
    ensures forall s | s in slots :: s.sourceId < |names|
  {
  }

  lemma CanonicalCounts(v: State, names: seq<Name>)
    requires Sound(v) && Storable(TableOf(v)) && CanonicalNames(names, TableOf(v))
    ensures |names| < U32_LIMIT && |v.slots| <= U32_LIMIT
  {
    hide BytesLess;
    NamesUnique(names, names, TableOf(v));
    DistinctLength(names);
    SourcesAtMostDocs(TableOf(v).docs);
  }

  lemma Assemble(img: Image, out: Bytes)
    requires out == INDEX_MAGIC + LittleEndian(|img.sources|, 4) + WriteAll(img.sources, WriteName)
                  + LittleEndian(|img.slots|, 4) + WriteAll(img.slots, WriteSlot)
                  + LittleEndian(|img.terms|, 4) + WriteAll(img.terms, WriteTerm)
    ensures out == Write(img)
  {
  }
}
