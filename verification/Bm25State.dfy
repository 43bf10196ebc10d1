/** The fields of the resident index, the invariant every operation keeps, and the
    table the fields stand for. */
module Bm25State {
  import opened Common
  import opened Floats
  import opened Orders
  import opened Passages
  import opened Utf8
  import opened Bm25Table

  /** A paragraph in its slot; a dead one is a tombstone. */
  datatype Slot = Slot(sourceId: u32, index: u32, length: F32, hash: u64, questionHash: u64, alive: bool)
  datatype Posting = Posting(slot: u32, tf: F32)

  datatype State = State(
    sources: seq<Name>,
    sourceIds: map<Name, u32>,
    bySource: map<u32, seq<u32>>,
    slots: seq<Slot>,
    postings: map<u64, seq<Posting>>,
    liveCount: nat,
    liveTotalLength: real,
    deadCount: nat)

  // ------------------------------------------------------------------- invariant

  ghost predicate Interned(v: State) {
    && |v.sources| <= U32_LIMIT
    && (forall i | 0 <= i < |v.sources| ::
          v.sources[i] in v.sourceIds && v.sourceIds[v.sources[i]] == i && ValidUtf8(v.sources[i]))
    && (forall s | s in v.sourceIds :: v.sourceIds[s] < |v.sources| && v.sources[v.sourceIds[s]] == s)
  }

  /** `list` names live slots of source `id`, oldest first. */
  ghost predicate SlotList(v: State, id: u32, list: seq<u32>) {
    && (forall k | 0 <= k < |list| :: list[k] < |v.slots| && v.slots[list[k]].alive && v.slots[list[k]].sourceId == id)
    && (forall j, k | 0 <= j < k < |list| :: list[j] < list[k])
  }

  ghost predicate Listed(v: State) {
    && |v.slots| <= U32_LIMIT
    && (forall i | 0 <= i < |v.slots| :: v.slots[i].sourceId < |v.sources|)
    && (forall id | id in v.bySource :: id < |v.sources| && SlotList(v, id, v.bySource[id]))
    && (forall i | 0 <= i < |v.slots| && v.slots[i].alive ::
          v.slots[i].sourceId in v.bySource && i in v.bySource[v.slots[i].sourceId])
  }

  ghost predicate Measured(v: State) {
    forall i | 0 <= i < |v.slots| :: Finite(v.slots[i].length) && !Negative(v.slots[i].length)
  }

  /** No paragraph of a source is live twice. */
  ghost predicate Distinct(v: State) {
    forall i, j | 0 <= i < j < |v.slots| && v.slots[i].alive && v.slots[j].alive ::
      v.slots[i].sourceId != v.slots[j].sourceId || v.slots[i].index != v.slots[j].index
  }

  ghost predicate PostingList(list: seq<Posting>, slotCount: nat) {
    && (forall k | 0 <= k < |list| :: list[k].slot < slotCount && Positive(list[k].tf))
    && (forall j, k | 0 <= j < k < |list| :: list[j].slot < list[k].slot)
  }

  ghost predicate Posted(v: State) {
    forall g | g in v.postings :: PostingList(v.postings[g], |v.slots|)
  }

  function LiveCount(slots: seq<Slot>): (n: nat)
    ensures n <= |slots|
  {
    if slots == [] then 0
    else LiveCount(slots[..|slots| - 1]) + (if slots[|slots| - 1].alive then 1 else 0)
  }

  function LiveLength(slots: seq<Slot>): real {
    if slots == [] then 0.0
    else
      var last := slots[|slots| - 1];
      LiveLength(slots[..|slots| - 1]) + (if last.alive then Value(last.length) else 0.0)
  }

  ghost predicate Counted(v: State) {
    && v.liveCount == LiveCount(v.slots)
    && v.liveTotalLength == LiveLength(v.slots)
    && v.deadCount == |v.slots| - v.liveCount
  }

  ghost predicate Sound(v: State) {
    Interned(v) && Listed(v) && Measured(v) && Distinct(v) && Posted(v) && Counted(v)
  }

  /** Each source's live paragraphs are listed by ascending index. */
  ghost predicate Ordered(v: State)
    requires Listed(v)
  {
    forall id, j, k | id in v.bySource && 0 <= j < k < |v.bySource[id]| ::
      v.slots[v.bySource[id][j]].index < v.slots[v.bySource[id][k]].index
  }

  // ----------------------------------------------------------------------- table

  function Post(postings: map<u64, seq<Posting>>, g: u64): seq<Posting> {
    if g in postings then postings[g] else []
  }

  function RowOf(v: State, i: nat): DocRow
    requires i < |v.slots| && v.slots[i].sourceId < |v.sources|
  {
    var s := v.slots[i];
    DocRow(v.sources[s.sourceId], s.index, s.length, s.hash, s.questionHash)
  }

  function UseOf(v: State, g: u64, p: Posting): UseRow
    requires p.slot < |v.slots| && v.slots[p.slot].sourceId < |v.sources|
  {
    var s := v.slots[p.slot];
    UseRow(g, v.sources[s.sourceId], s.index, p.tf)
  }

  ghost function TableOf(v: State): Table
    requires Listed(v) && Posted(v)
  {
    Table(set i | 0 <= i < |v.slots| && v.slots[i].alive :: RowOf(v, i),
          set g, p | g in v.postings && p in v.postings[g] && v.slots[p.slot].alive :: UseOf(v, g, p))
  }

  lemma RowIn(v: State, i: nat)
    requires Listed(v) && Posted(v) && i < |v.slots| && v.slots[i].alive
    ensures RowOf(v, i) in TableOf(v).docs
  {
  }

  lemma SourceSame(v: State, i: nat, j: nat)
    requires Sound(v) && i < |v.slots| && j < |v.slots|
    ensures v.sources[v.slots[i].sourceId] == v.sources[v.slots[j].sourceId] ==> v.slots[i].sourceId == v.slots[j].sourceId
  {
    assert v.sourceIds[v.sources[v.slots[i].sourceId]] == v.slots[i].sourceId;
  }

  /** Sources with slot lists have names of their own. */
  lemma NameNew(v: State, id: u32)
    requires Sound(v) && id in v.bySource
    ensures id < |v.sources|
    ensures forall other | other in v.bySource && other != id :: other < |v.sources| && v.sources[other] != v.sources[id]
  {
    forall other | other in v.bySource && other != id ensures v.sources[other] != v.sources[id] {
      assert v.sourceIds[v.sources[other]] == other && v.sourceIds[v.sources[id]] == id;
    }
  }

  /** One row, one live slot. */
  lemma RowInjective(v: State, i: nat, j: nat)
    requires Sound(v) && i < |v.slots| && j < |v.slots| && v.slots[i].alive && v.slots[j].alive
    ensures RowOf(v, i).source == RowOf(v, j).source && RowOf(v, i).index == RowOf(v, j).index ==> i == j
  {
    SourceSame(v, i, j);
  }

  lemma TableKeyed(v: State)
    requires Sound(v)
    ensures Keyed(TableOf(v))
  {
    forall d, e | d in TableOf(v).docs && e in TableOf(v).docs && d.source == e.source && d.index == e.index
      ensures d == e
    {
      var i :| 0 <= i < |v.slots| && v.slots[i].alive && RowOf(v, i) == d;
      var j :| 0 <= j < |v.slots| && v.slots[j].alive && RowOf(v, j) == e;
      RowInjective(v, i, j);
    }
  }

  // ------------------------------------------------------------------ tombstones

  /** The slots with those of `list` dead. */
  function Kill(slots: seq<Slot>, list: seq<u32>): (r: seq<Slot>)
    ensures |r| == |slots|
  {
    seq(|slots|, i requires 0 <= i < |slots| => if i in list then slots[i].(alive := false) else slots[i])
  }

  lemma {:induction false} LiveUpdate(slots: seq<Slot>, i: nat)
    requires i < |slots| && slots[i].alive
    ensures LiveCount(slots[i := slots[i].(alive := false)]) == LiveCount(slots) - 1
    ensures LiveLength(slots[i := slots[i].(alive := false)]) == LiveLength(slots) - Value(slots[i].length)
  {
    hide Value;
    var n := |slots| - 1;
    var after := slots[i := slots[i].(alive := false)];
    if i < n {
      LiveUpdate(slots[..n], i);
      assert after[..n] == slots[..n][i := slots[i].(alive := false)];
    } else {
      assert after[..n] == slots[..n];
    }
  }

  /** The state once every live slot of source `id` is a tombstone. */
  function Tombstoned(v: State, id: u32): State
    requires id in v.bySource
  {
    var slots := Kill(v.slots, v.bySource[id]);
    v.(slots := slots, bySource := v.bySource[id := []], liveCount := LiveCount(slots),
       liveTotalLength := LiveLength(slots), deadCount := |slots| - LiveCount(slots))
  }

  lemma TombstonedSlots(v: State, id: u32, i: nat)
    requires Sound(v) && id in v.bySource && i < |v.slots|
    ensures Tombstoned(v, id).slots[i] == v.slots[i].(alive := v.slots[i].alive && v.slots[i].sourceId != id)
  {
  }

  lemma TombstonedListed(v: State, id: u32)
    requires Listed(v) && id in v.bySource
    requires forall i | 0 <= i < |v.slots| ::
      Tombstoned(v, id).slots[i] == v.slots[i].(alive := v.slots[i].alive && v.slots[i].sourceId != id)
    ensures Listed(Tombstoned(v, id))
  {
    hide Kill, LiveCount, LiveLength;
    var w := Tombstoned(v, id);
    forall other | other in w.bySource ensures SlotList(w, other, w.bySource[other]) {
      assert SlotList(v, other, v.bySource[other]);
    }
  }

  lemma {:induction false} TombstonedOrdered(v: State, id: u32)
    requires Listed(v) && id in v.bySource && Listed(Tombstoned(v, id)) && Ordered(v)
    requires forall i | 0 <= i < |v.slots| ::
      Tombstoned(v, id).slots[i] == v.slots[i].(alive := v.slots[i].alive && v.slots[i].sourceId != id)
    ensures Ordered(Tombstoned(v, id))
  {
    hide Kill, LiveCount, LiveLength;
    var w := Tombstoned(v, id);
    forall other, j, k | other in w.bySource && 0 <= j < k < |w.bySource[other]|
      ensures w.slots[w.bySource[other][j]].index < w.slots[w.bySource[other][k]].index
    {
      assert SlotList(v, other, v.bySource[other]);
    }
  }

  lemma TombstonedRest(v: State, id: u32)
    requires Interned(v) && Measured(v) && Distinct(v) && Posted(v) && id in v.bySource
    requires forall i | 0 <= i < |v.slots| ::
      Tombstoned(v, id).slots[i] == v.slots[i].(alive := v.slots[i].alive && v.slots[i].sourceId != id)
    ensures Interned(Tombstoned(v, id)) && Measured(Tombstoned(v, id)) && Distinct(Tombstoned(v, id))
    ensures Posted(Tombstoned(v, id)) && Counted(Tombstoned(v, id))
  {
    hide Kill, LiveCount, LiveLength, PostingList, ValidUtf8, Finite, Negative;
  }

  lemma {:induction false} TombstonedSound(v: State, id: u32)
    requires Sound(v) && id in v.bySource
    ensures Sound(Tombstoned(v, id))
    ensures Ordered(v) ==> Ordered(Tombstoned(v, id))
  {
    forall i | 0 <= i < |v.slots|
      ensures Tombstoned(v, id).slots[i] == v.slots[i].(alive := v.slots[i].alive && v.slots[i].sourceId != id)
    {
      TombstonedSlots(v, id, i);
    }
    TombstonedListed(v, id);
    if Ordered(v) { TombstonedOrdered(v, id); }
    TombstonedRest(v, id);
    hide Listed, Ordered, Measured, Distinct, Interned, Posted, Counted, Tombstoned;
  }

  lemma {:induction false} TombstonedUses(v: State, id: u32, u: UseRow)
    requires Sound(v) && id in v.bySource
    requires Sound(Tombstoned(v, id))
    ensures u in TableOf(Tombstoned(v, id)).uses <==> u in TableOf(v).uses && u.source != v.sources[id]
  {
    hide Distinct, Counted, LiveCount, LiveLength;
    var w := Tombstoned(v, id);
    if u in TableOf(v).uses && u.source != v.sources[id] {
      var g, p :| g in v.postings && p in v.postings[g] && v.slots[p.slot].alive && UseOf(v, g, p) == u;
      TombstonedSlots(v, id, p.slot);
      assert UseOf(w, g, p) == u && w.slots[p.slot].alive;
    }
    if u in TableOf(w).uses {
      var g, p :| g in w.postings && p in w.postings[g] && w.slots[p.slot].alive && UseOf(w, g, p) == u;
      TombstonedSlots(v, id, p.slot);
      assert v.sourceIds[v.sources[v.slots[p.slot].sourceId]] == v.slots[p.slot].sourceId;
      assert v.sourceIds[v.sources[id]] == id;
      assert UseOf(v, g, p) == u;
    }
  }

  lemma TombstonedDocs(v: State, id: u32, d: DocRow)
    requires Sound(v) && id in v.bySource
    requires Sound(Tombstoned(v, id))
    ensures d in TableOf(Tombstoned(v, id)).docs <==> d in TableOf(v).docs && d.source != v.sources[id]
  {
    hide Distinct, Counted, LiveCount, LiveLength;
    var w := Tombstoned(v, id);
    if d in TableOf(v).docs && d.source != v.sources[id] {
      var i :| 0 <= i < |v.slots| && v.slots[i].alive && RowOf(v, i) == d;
      TombstonedSlots(v, id, i);
      assert w.slots[i].alive && RowOf(w, i) == d;
    }
    if d in TableOf(w).docs {
      var i :| 0 <= i < |w.slots| && w.slots[i].alive && RowOf(w, i) == d;
      TombstonedSlots(v, id, i);
      assert v.sourceIds[v.sources[v.slots[i].sourceId]] == v.slots[i].sourceId;
      assert v.sourceIds[v.sources[id]] == id;
      assert RowOf(v, i) == d;
    }
  }

  lemma {:induction false} TombstonedTable(v: State, id: u32)
    requires Sound(v) && id in v.bySource
    ensures Sound(Tombstoned(v, id))
    ensures TableOf(Tombstoned(v, id)) == Without(TableOf(v), v.sources[id])
  {
    TombstonedSound(v, id);
    hide Tombstoned, Interned, Measured, Distinct, Posted, Counted, TableOf, SlotList;
    var a, b := TableOf(Tombstoned(v, id)), Without(TableOf(v), v.sources[id]);
    hide Listed;
    assert a.docs == b.docs by {
      forall d ensures d in a.docs <==> d in b.docs { TombstonedDocs(v, id, d); }
    }
    assert a.uses == b.uses by {
      forall u ensures u in a.uses <==> u in b.uses { TombstonedUses(v, id, u); }
    }
  }

  // ------------------------------------------------------------------- appending

  /** The postings with `n` appended to the list of each of the document's terms. */
  function AddPostings(postings: map<u64, seq<Posting>>, n: u32, d: Doc): map<u64, seq<Posting>> {
    map g | g in postings.Keys + Elements(d.grams) ::
      Post(postings, g) + if g in d.grams then [Posting(n, FromCount(Count(d.grams, g)))] else []
  }

  function SlotOf(id: u32, d: Doc): Slot {
    Slot(id, d.index, FromCount(|d.grams|), d.hash, d.questionHash, true)
  }

  /** The state with one document of source `id` appended. */
  function Appended(v: State, id: u32, d: Doc): State
    requires |v.slots| < U32_LIMIT
  {
    var list := if id in v.bySource then v.bySource[id] else [];
    v.(slots := v.slots + [SlotOf(id, d)],
       bySource := v.bySource[id := list + [|v.slots|]],
       postings := AddPostings(v.postings, |v.slots|, d),
       liveCount := v.liveCount + 1,
       liveTotalLength := v.liveTotalLength + Value(FromCount(|d.grams|)))
  }

  /** One more live slot of its source. */
  lemma {:induction false} ListGrown(v: State, w: State, id: u32, list: seq<u32>, s: Slot)
    requires SlotList(v, id, list) && |v.slots| < U32_LIMIT && w.slots == v.slots + [s]
    ensures SlotList(w, id, list)
    ensures s.alive && s.sourceId == id ==> SlotList(w, id, list + [|v.slots|])
  {
  }

  lemma {:induction false} AppendedListed(v: State, id: u32, d: Doc)
    requires Listed(v) && |v.slots| < U32_LIMIT && id < |v.sources|
    ensures Listed(Appended(v, id, d))
  {
    hide FromCount, Value, Post, AddPostings;
    var w := Appended(v, id, d);
    var n := |v.slots|;
    assert SlotList(v, id, []);
    hide SlotList;
    forall other | other in w.bySource ensures SlotList(w, other, w.bySource[other]) {
      ListGrown(v, w, other, if other in v.bySource then v.bySource[other] else [], SlotOf(id, d));
    }
    var list := w.bySource[id];
    assert list[|list| - 1] == n;
    forall i | 0 <= i < n && w.slots[i].alive
      ensures w.slots[i].sourceId in w.bySource && i in w.bySource[w.slots[i].sourceId]
    {
      assert i in v.bySource[v.slots[i].sourceId];
    }
  }

  lemma PostingListAdd(list: seq<Posting>, n: u32, tf: F32)
    requires PostingList(list, n)
    ensures PostingList(list, n + 1)
    ensures Positive(tf) ==> PostingList(list + [Posting(n, tf)], n + 1)
  {
    hide Positive;
  }

  lemma AppendedPosted(v: State, id: u32, d: Doc)
    requires Posted(v) && |v.slots| < U32_LIMIT
    ensures Posted(Appended(v, id, d))
  {
    hide Positive, Value, SlotOf, FromCount, Count;
    var w := Appended(v, id, d);
    forall g | g in w.postings ensures PostingList(w.postings[g], |w.slots|) {
      PositiveCount(d, g);
      PostingListAdd(Post(v.postings, g), |v.slots|, FromCount(Count(d.grams, g)));
    }
  }

  lemma PositiveCount(d: Doc, g: u64)
    ensures g in d.grams ==> Positive(FromCount(Count(d.grams, g)))
  {
  }

  ghost predicate Rising(slots: seq<Slot>, list: seq<u32>) {
    && (forall k | 0 <= k < |list| :: list[k] < |slots|)
    && (forall j, k | 0 <= j < k < |list| :: slots[list[j]].index < slots[list[k]].index)
  }

  lemma {:induction false} RisingGrown(slots: seq<Slot>, list: seq<u32>, s: Slot)
    requires Rising(slots, list) && |slots| < U32_LIMIT
    ensures Rising(slots + [s], list)
    ensures (forall k | 0 <= k < |list| :: slots[list[k]].index < s.index) ==> Rising(slots + [s], list + [|slots|])
  {
  }

  lemma ListRising(v: State, id: u32)
    requires Listed(v) && Ordered(v) && id in v.bySource
    ensures Rising(v.slots, v.bySource[id])
  {
    assert SlotList(v, id, v.bySource[id]);
  }

  /** The new paragraph follows those of its source. */
  lemma LastOfSource(v: State, id: u32, d: Doc)
    requires Listed(v) && id in v.bySource
    requires forall i | 0 <= i < |v.slots| && v.slots[i].alive && v.slots[i].sourceId == id :: v.slots[i].index < d.index
    ensures forall k | 0 <= k < |v.bySource[id]| ::
      v.bySource[id][k] < |v.slots| && v.slots[v.bySource[id][k]].index < d.index
  {
    assert SlotList(v, id, v.bySource[id]);
  }

  lemma {:induction false} AppendedRising(v: State, id: u32, d: Doc, other: u32)
    requires Listed(v) && |v.slots| < U32_LIMIT && id < |v.sources| && Ordered(v)
    requires forall i | 0 <= i < |v.slots| && v.slots[i].alive && v.slots[i].sourceId == id :: v.slots[i].index < d.index
    requires other in Appended(v, id, d).bySource
    ensures Rising(Appended(v, id, d).slots, Appended(v, id, d).bySource[other])
  {
    hide Listed, Ordered, Rising, FromCount, Value, AddPostings;
    var list := if other in v.bySource then v.bySource[other] else [];
    if other in v.bySource { ListRising(v, other); } else { NothingRises(v.slots); }
    if id in v.bySource { LastOfSource(v, id, d); }
    RisingGrown(v.slots, list, SlotOf(id, d));
  }

  lemma {:induction false} AppendedOrdered(v: State, id: u32, d: Doc)
    requires Listed(v) && |v.slots| < U32_LIMIT && id < |v.sources| && Ordered(v)
    requires forall i | 0 <= i < |v.slots| && v.slots[i].alive && v.slots[i].sourceId == id :: v.slots[i].index < d.index
    ensures Listed(Appended(v, id, d)) && Ordered(Appended(v, id, d))
  {
    AppendedListed(v, id, d);
    hide Listed, Appended;
    var w := Appended(v, id, d);
    forall other | other in w.bySource ensures Rising(w.slots, w.bySource[other]) {
      hide Ordered;
      AppendedRising(v, id, d, other);
    }
  }

  lemma NothingRises(slots: seq<Slot>)
    ensures Rising(slots, [])
  {
  }

  lemma {:induction false} AppendedSound(v: State, id: u32, d: Doc)
    requires Sound(v) && |v.slots| < U32_LIMIT && id < |v.sources|
    requires forall i | 0 <= i < |v.slots| && v.slots[i].alive && v.slots[i].sourceId == id :: v.slots[i].index < d.index
    ensures Sound(Appended(v, id, d))
    ensures Ordered(v) ==> Ordered(Appended(v, id, d))
  {
    hide FromCount, Value, Post;
    AppendedListed(v, id, d);
    AppendedPosted(v, id, d);
    if Ordered(v) { AppendedOrdered(v, id, d); }
    hide Listed, Posted, Ordered, AddPostings;
    AppendedDistinct(v, id, d);
    hide Distinct;
    assert Appended(v, id, d).slots[..|v.slots|] == v.slots;
  }

  lemma AppendedDistinct(v: State, id: u32, d: Doc)
    requires Distinct(v) && |v.slots| < U32_LIMIT
    requires forall i | 0 <= i < |v.slots| && v.slots[i].alive && v.slots[i].sourceId == id :: v.slots[i].index < d.index
    ensures Distinct(Appended(v, id, d))
  {
    hide FromCount, Value, AddPostings;
  }

  lemma {:induction false} AppendedTable(v: State, id: u32, d: Doc)
    requires Sound(v) && |v.slots| < U32_LIMIT && id < |v.sources|
    requires Sound(Appended(v, id, d))
    ensures TableOf(Appended(v, id, d)) == Merge(TableOf(v), DocTable(v.sources[id], d))
  {
    hide FromCount, Value, Post, Distinct, Counted, ValidUtf8;
    var w := Appended(v, id, d);
    var n := |v.slots|;
    var a, b := TableOf(w), Merge(TableOf(v), DocTable(v.sources[id], d));
    assert RowOf(w, n) in DocTable(v.sources[id], d).docs;
    forall i | 0 <= i < n ensures w.slots[i] == v.slots[i] && RowOf(w, i) == RowOf(v, i) { }
    forall r ensures r in a.docs <==> r in b.docs {
      if r in TableOf(v).docs {
        var i :| 0 <= i < n && v.slots[i].alive && RowOf(v, i) == r;
        assert RowOf(w, i) == r;
      }
    }
    forall u ensures u in a.uses <==> u in b.uses {
      AppendedUses(v, id, d, u);
    }
    assert a.docs == b.docs && a.uses == b.uses;
  }

  lemma {:induction false} AppendedUses(v: State, id: u32, d: Doc, u: UseRow)
    requires Sound(v) && |v.slots| < U32_LIMIT && id < |v.sources|
    requires Sound(Appended(v, id, d))
    ensures u in TableOf(Appended(v, id, d)).uses
       <==> u in TableOf(v).uses || u in DocTable(v.sources[id], d).uses
  {
    hide Distinct, Counted, Interned;
    if u in TableOf(Appended(v, id, d)).uses { AppendedUsesBack(v, id, d, u); }
    if u in TableOf(v).uses { AppendedUsesOld(v, id, d, u); }
    if u in DocTable(v.sources[id], d).uses { AppendedUsesNew(v, id, d, u); }
  }

  lemma {:induction false} AppendedUsesBack(v: State, id: u32, d: Doc, u: UseRow)
    requires Listed(v) && Posted(v) && |v.slots| < U32_LIMIT && id < |v.sources|
    requires Listed(Appended(v, id, d)) && Posted(Appended(v, id, d))
    requires u in TableOf(Appended(v, id, d)).uses
    ensures u in TableOf(v).uses || u in DocTable(v.sources[id], d).uses
  {
    hide FromCount, Value, Positive;
    var w := Appended(v, id, d);
    var g, p :| g in w.postings && p in w.postings[g] && w.slots[p.slot].alive && UseOf(w, g, p) == u;
    if p in Post(v.postings, g) {
      assert PostingList(v.postings[g], |v.slots|);
      assert UseOf(v, g, p) == u;
    }
  }

  lemma AppendedUsesOld(v: State, id: u32, d: Doc, u: UseRow)
    requires Listed(v) && Posted(v) && |v.slots| < U32_LIMIT && id < |v.sources|
    requires Listed(Appended(v, id, d)) && Posted(Appended(v, id, d))
    requires u in TableOf(v).uses
    ensures u in TableOf(Appended(v, id, d)).uses
  {
    hide FromCount, Value, Positive;
    var w := Appended(v, id, d);
    var g, p :| g in v.postings && p in v.postings[g] && v.slots[p.slot].alive && UseOf(v, g, p) == u;
    assert PostingList(v.postings[g], |v.slots|);
    assert p in w.postings[g] && UseOf(w, g, p) == u;
  }

  lemma {:induction false} AppendedUsesNew(v: State, id: u32, d: Doc, u: UseRow)
    requires Listed(v) && Posted(v) && |v.slots| < U32_LIMIT && id < |v.sources|
    requires Listed(Appended(v, id, d)) && Posted(Appended(v, id, d))
    requires u in DocTable(v.sources[id], d).uses
    ensures u in TableOf(Appended(v, id, d)).uses
  {
    hide FromCount, Value, Positive;
    var w := Appended(v, id, d);
    var g :| g in d.grams && u == UseRow(g, v.sources[id], d.index, FromCount(Count(d.grams, g)));
    var p := Posting(|v.slots|, FromCount(Count(d.grams, g)));
    var list := w.postings[g];
    assert list[|list| - 1] == p;
    assert p in list && UseOf(w, g, p) == u;
  }
}
