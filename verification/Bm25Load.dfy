/** Reading the sidecar: the cursor loops, each refusing exactly where the format
    does. */
module Bm25Load {
  import opened Common
  import opened Floats
  import opened Orders
  import opened Utf8
  import opened Codec
  import opened Bm25Table
  import opened Bm25State
  import opened Bm25Image
  import opened Bm25Canon

  /** The integer at the cursor, or nothing past the end. */
  method TakeInt(bytes: Bytes, pos: nat, width: nat) returns (n: Option<nat>, next: nat)
    requires pos <= |bytes|
    ensures next <= |bytes|
    ensures ReadInt(bytes[pos..], width) == if n.Some? then Some((n.value, bytes[next..])) else None
  {
    if |bytes| - pos < width {
      return None, pos;
    }
    assert bytes[pos..][..width] == bytes[pos..pos + width];
    assert bytes[pos..][width..] == bytes[pos + width..];
    return Some(FromLittleEndian(bytes[pos..pos + width])), pos + width;
  }

  // ----------------------------------------------------------------------- names

  lemma {:induction false} SourceIdsKeys(names: seq<Name>)
    requires |names| < U32_LIMIT
    ensures SourceIdsOf(names).Keys == Elements(names)
  {
    if names != [] {
      SourceIdsKeys(names[..|names| - 1]);
      assert names == names[..|names| - 1] + [names[|names| - 1]];
    }
  }

  /** One name at the cursor. */
  method TakeName(bytes: Bytes, pos: nat) returns (name: Option<Name>, next: nat)
    requires pos <= |bytes|
    ensures next <= |bytes|
    ensures ReadName(bytes[pos..]) == if name.Some? then Some((name.value, bytes[next..])) else None
  {
    var len, at := TakeInt(bytes, pos, 4);
    if len.None? || |bytes| - at < len.value {
      return None, pos;
    }
    assert bytes[at..][..len.value] == bytes[at..at + len.value];
    assert bytes[at..][len.value..] == bytes[at + len.value..];
    return Some(bytes[at..at + len.value]), at + len.value;
  }

  method LoadNames(bytes: Bytes, start: nat, n: u32) returns (ok: bool, pos: nat, sources: seq<Name>, sourceIds: map<Name, u32>)
    requires start <= |bytes|
    ensures pos <= |bytes| && |sources| <= n
    ensures ReadNames(bytes[start..], n, []) == if ok then Some((sources, bytes[pos..])) else None
    ensures ok ==> sourceIds == SourceIdsOf(sources)
  {
    ok, pos, sources, sourceIds := true, start, [], map[];
    hide ReadName, ValidUtf8;
    for k := 0 to n
      invariant pos <= |bytes| && |sources| == k
      invariant ReadNames(bytes[start..], n, []) == ReadNames(bytes[pos..], n - k, sources)
      invariant sourceIds == SourceIdsOf(sources)
    {
      var name, next := TakeName(bytes, pos);
      SourceIdsKeys(sources);
      if name.None? || !ValidUtf8(name.value) || name.value in sourceIds {
        return false, pos, [], map[];
      }
      pos := next;
      sourceIds := sourceIds[name.value := |sources|];
      sources := sources + [name.value];
      assert sources[..|sources| - 1] + [name.value] == sources;
    }
  }

  // ----------------------------------------------------------------------- slots

  /** One slot record at the cursor. */
  method TakeSlot(bytes: Bytes, pos: nat) returns (slot: Option<ImageSlot>, next: nat)
    requires pos <= |bytes|
    ensures next <= |bytes|
    ensures ReadSlot(bytes[pos..]) == if slot.Some? then Some((slot.value, bytes[next..])) else None
  {
    hide ReadInt;
    var sourceId, a := TakeInt(bytes, pos, 4);
    if sourceId.None? { return None, pos; }
    var index, b := TakeInt(bytes, a, 4);
    if index.None? { return None, pos; }
    var length, c := TakeInt(bytes, b, 4);
    if length.None? { return None, pos; }
    var hash, d := TakeInt(bytes, c, 8);
    if hash.None? { return None, pos; }
    var questionHash, e := TakeInt(bytes, d, 8);
    if questionHash.None? { return None, pos; }
    return Some(ImageSlot(sourceId.value, index.value, length.value, hash.value, questionHash.value)), e;
  }

  /** What the slot loop remembers of the slots before: the pairs seen and the
      last one. */
  ghost predicate Remembers(acc: seq<ImageSlot>, seen: set<(u32, u32)>, previous: Option<(u32, u32)>) {
    && (forall s | s in acc :: (s.sourceId, s.index) in seen)
    && (forall p | p in seen :: exists s :: s in acc && p == (s.sourceId, s.index))
    && (if acc == [] then previous.None?
        else previous == Some((acc[|acc| - 1].sourceId, acc[|acc| - 1].index)))
  }

  predicate Follows(seen: set<(u32, u32)>, previous: Option<(u32, u32)>, sourceCount: nat, s: ImageSlot) {
    && s.sourceId < sourceCount
    && (s.sourceId, s.index) !in seen
    && !(previous.Some? && previous.value.0 == s.sourceId && s.index <= previous.value.1)
    && Finite(s.length) && !Negative(s.length)
  }

  lemma FollowsIsOk(acc: seq<ImageSlot>, seen: set<(u32, u32)>, previous: Option<(u32, u32)>, sourceCount: nat, s: ImageSlot)
    requires Remembers(acc, seen, previous)
    ensures Follows(seen, previous, sourceCount, s) <==> SlotOk(sourceCount, acc, s)
    ensures Remembers(acc + [s], seen + {(s.sourceId, s.index)}, Some((s.sourceId, s.index)))
  {
  }

  lemma {:induction false} LoadedNext(acc: seq<ImageSlot>, s: ImageSlot)
    requires |acc| < U32_LIMIT - 1
    ensures LoadedSlots(acc + [s]) == LoadedSlots(acc) + [LoadedSlot(s)]
    ensures GroupOf(acc + [s]) == GroupOf(acc)[s.sourceId :=
              (if s.sourceId in GroupOf(acc) then GroupOf(acc)[s.sourceId] else []) + [|acc|]]
    ensures LiveLength(LoadedSlots(acc + [s])) == LiveLength(LoadedSlots(acc)) + Value(s.length)
  {
    LoadedSlotsNext(acc, s);
    LiveLengthNext(LoadedSlots(acc), LoadedSlot(s));
    GroupNext(acc, s);
    hide LoadedSlots, LiveLength, Value, GroupOf;
  }

  lemma GroupNext(acc: seq<ImageSlot>, s: ImageSlot)
    requires |acc| < U32_LIMIT - 1
    ensures GroupOf(acc + [s]) == GroupOf(acc)[s.sourceId :=
              (if s.sourceId in GroupOf(acc) then GroupOf(acc)[s.sourceId] else []) + [|acc|]]
  {
    var all := acc + [s];
    assert all[..|all| - 1] == acc && all[|all| - 1] == s;
  }

  lemma LoadedSlotsNext(acc: seq<ImageSlot>, s: ImageSlot)
    ensures LoadedSlots(acc + [s]) == LoadedSlots(acc) + [LoadedSlot(s)]
  {
  }

  lemma LiveLengthNext(slots: seq<Slot>, s: Slot)
    requires s.alive
    ensures LiveLength(slots + [s]) == LiveLength(slots) + Value(s.length)
  {
    hide Value;
    assert (slots + [s])[..|slots|] == slots;
  }

  method LoadSlots(bytes: Bytes, start: nat, n: u32, sourceCount: nat)
    returns (ok: bool, pos: nat, slots: seq<Slot>, bySource: map<u32, seq<u32>>, liveTotalLength: real,
             ghost image: seq<ImageSlot>)
    requires start <= |bytes|
    ensures pos <= |bytes| && |image| <= n
    ensures ReadSlots(bytes[start..], n, sourceCount, []) == if ok then Some((image, bytes[pos..])) else None
    ensures ok ==> slots == LoadedSlots(image) && bySource == GroupOf(image) && liveTotalLength == LiveLength(slots)
  {
    ok, pos, slots, bySource, liveTotalLength, image := true, start, [], map[], 0.0, [];
    var seen: set<(u32, u32)>, previous: Option<(u32, u32)> := {}, None;
    hide ReadSlot, GroupOf, LiveLength, Remembers, Follows, SlotOk, Value, LoadedSlots;
    StartsLoaded();
    for k := 0 to n
      invariant pos <= |bytes| && |image| == k
      invariant ReadSlots(bytes[start..], n, sourceCount, []) == ReadSlots(bytes[pos..], n - k, sourceCount, image)
      invariant slots == LoadedSlots(image) && bySource == GroupOf(image) && liveTotalLength == LiveLength(slots)
      invariant Remembers(image, seen, previous)
    {
      var s, next := TakeSlot(bytes, pos);
      if s.None? {
        return false, pos, [], map[], 0.0, [];
      }
      FollowsIsOk(image, seen, previous, sourceCount, s.value);
      if !Follows(seen, previous, sourceCount, s.value) {
        return false, pos, [], map[], 0.0, [];
      }
      LoadedNext(image, s.value);
      pos := next;
      seen := seen + {(s.value.sourceId, s.value.index)};
      previous := Some((s.value.sourceId, s.value.index));
      var slot := |slots|;
      slots := slots + [LoadedSlot(s.value)];
      bySource := bySource[s.value.sourceId :=
        (if s.value.sourceId in bySource then bySource[s.value.sourceId] else []) + [slot]];
      liveTotalLength := liveTotalLength + Value(s.value.length);
      image := image + [s.value];
    }
  }

  lemma StartsLoaded()
    ensures LoadedSlots([]) == [] && GroupOf([]) == map[] && LiveLength([]) == 0.0
    ensures Remembers([], {}, None)
  {
  }

  // ----------------------------------------------------------------------- terms

  method TakePosting(bytes: Bytes, pos: nat) returns (p: Option<Posting>, next: nat)
    requires pos <= |bytes|
    ensures next <= |bytes|
    ensures ReadPosting(bytes[pos..]) == if p.Some? then Some((p.value, bytes[next..])) else None
  {
    hide ReadInt;
    var slot, a := TakeInt(bytes, pos, 4);
    if slot.None? { return None, pos; }
    var tf, b := TakeInt(bytes, a, 4);
    if tf.None? { return None, pos; }
    return Some(Posting(slot.value, tf.value)), b;
  }

  method LoadPostings(bytes: Bytes, start: nat, n: u32, slotCount: nat) returns (ok: bool, pos: nat, list: seq<Posting>)
    requires start <= |bytes|
    ensures pos <= |bytes|
    ensures ReadPostings(bytes[start..], n, slotCount, []) == if ok then Some((list, bytes[pos..])) else None
  {
    ok, pos, list := true, start, [];
    var previous: Option<u32> := None;
    hide ReadPosting, Positive;
    for k := 0 to n
      invariant pos <= |bytes|
      invariant ReadPostings(bytes[start..], n, slotCount, []) == ReadPostings(bytes[pos..], n - k, slotCount, list)
      invariant previous == if list == [] then None else Some(list[|list| - 1].slot)
    {
      var p, next := TakePosting(bytes, pos);
      if p.None? || p.value.slot >= slotCount || (previous.Some? && p.value.slot <= previous.value)
         || !Positive(p.value.tf) {
        return false, pos, [];
      }
      pos := next;
      previous := Some(p.value.slot);
      list := list + [p.value];
    }
  }

  method TakeTerm(bytes: Bytes, pos: nat, slotCount: nat) returns (t: Option<ImageTerm>, next: nat)
    requires pos <= |bytes|
    ensures next <= |bytes|
    ensures ReadTerm(slotCount, bytes[pos..]) == if t.Some? then Some((t.value, bytes[next..])) else None
  {
    hide ReadInt, ReadPostings;
    var gram, a := TakeInt(bytes, pos, 8);
    if gram.None? { return None, pos; }
    var count, b := TakeInt(bytes, a, 4);
    if count.None? { return None, pos; }
    var ok, c, list := LoadPostings(bytes, b, count.value, slotCount);
    if !ok { return None, pos; }
    return Some(ImageTerm(gram.value, list)), c;
  }

  lemma {:induction false} PostingsKeys(terms: seq<ImageTerm>)
    ensures PostingsOf(terms).Keys == Elements(Grams(terms))
  {
    if terms != [] {
      var init, last := terms[..|terms| - 1], terms[|terms| - 1];
      PostingsKeys(init);
      assert Grams(terms) == Grams(init) + [last.gram];
    }
  }

  lemma TermNew(terms: seq<ImageTerm>, t: ImageTerm)
    ensures t.gram !in PostingsOf(terms) <==> TermOk(terms, t)
    ensures PostingsOf(terms + [t]) == PostingsOf(terms)[t.gram := t.postings]
  {
    PostingsKeys(terms);
    assert (terms + [t])[..|terms|] == terms;
    hide PostingsOf;
    if t.gram in Grams(terms) {
      var k :| 0 <= k < |terms| && Grams(terms)[k] == t.gram;
      assert terms[k] in terms;
    } else {
      forall b | b in terms ensures b.gram != t.gram {
        var k :| 0 <= k < |terms| && terms[k] == b;
        assert Grams(terms)[k] == b.gram;
      }
    }
  }

  method LoadTerms(bytes: Bytes, start: nat, n: u32, slotCount: nat)
    returns (ok: bool, pos: nat, postings: map<u64, seq<Posting>>, ghost image: seq<ImageTerm>)
    requires start <= |bytes|
    ensures pos <= |bytes| && |image| <= n
    ensures ReadTerms(bytes[start..], n, slotCount, []) == if ok then Some((image, bytes[pos..])) else None
    ensures ok ==> postings == PostingsOf(image)
  {
    ok, pos, postings, image := true, start, map[], [];
    hide ReadTerm, TermOk;
    assert PostingsOf([]) == map[];
    for k := 0 to n
      invariant pos <= |bytes| && |image| == k
      invariant ReadTerms(bytes[start..], n, slotCount, []) == ReadTerms(bytes[pos..], n - k, slotCount, image)
      invariant postings == PostingsOf(image)
    {
      var t, next := TakeTerm(bytes, pos, slotCount);
      if t.None? {
        return false, pos, map[], [];
      }
      TermNew(image, t.value);
      if t.value.gram in postings {
        return false, pos, map[], [];
      }
      pos := next;
      postings := postings[t.value.gram := t.value.postings];
      image := image + [t.value];
    }
  }

  // ------------------------------------------------------------------ the sidecar

  /** The part of the sidecar behind the names. */
  method LoadBody(bytes: Bytes, start: nat, sources: seq<Name>, sourceIds: map<Name, u32>)
    returns (v: Option<State>, ghost image: Option<Image>)
    requires start <= |bytes|
    ensures image == ReadBody(sources, bytes[start..]) && (v.Some? <==> image.Some?)
    ensures v.Some? ==> |image.value.slots| < U32_LIMIT
    ensures v.Some? ==>
      v.value == State(sources, sourceIds, GroupOf(image.value.slots), LoadedSlots(image.value.slots),
                       PostingsOf(image.value.terms), |image.value.slots|, LiveLength(LoadedSlots(image.value.slots)), 0)
  {
    hide ReadInt, ReadSlots, ReadTerms, GroupOf, PostingsOf, LiveLength;
    image := ReadBody(sources, bytes[start..]);
    v := None;
    var slotCount, a := TakeInt(bytes, start, 4);
    if slotCount.None? { return; }
    ghost var slotImage, termImage;
    var okSlots, b, slots, bySource, total;
    okSlots, b, slots, bySource, total, slotImage := LoadSlots(bytes, a, slotCount.value, |sources|);
    if !okSlots { return; }
    var termCount, c := TakeInt(bytes, b, 4);
    if termCount.None? { return; }
    var okTerms, d, postings;
    okTerms, d, postings, termImage := LoadTerms(bytes, c, termCount.value, |slots|);
    if !okTerms || d != |bytes| { return; }
    v := Some(State(sources, sourceIds, bySource, slots, postings, |slots|, total, 0));
  }

  /** Reads a sidecar into the fields of an index; nothing for any byte string
      that is not the image of one. */
  method LoadState(bytes: Bytes) returns (v: Option<State>)
    ensures v.Some? <==> Read(bytes).Some?
    ensures v.Some? ==> Legal(Read(bytes).value) && v.value == Loaded(Read(bytes).value)
  {
    if |bytes| < 8 || bytes[..8] != INDEX_MAGIC {
      return None;
    }
    if Read(bytes).Some? { ReadIsImage(bytes); }
    hide ReadInt, ReadNames, ReadBody, SourceIdsOf, GroupOf, PostingsOf, LiveLength, Legal, LoadedSlots;
    var sourceCount, a := TakeInt(bytes, 8, 4);
    if sourceCount.None? { return None; }
    var ok, b, sources, sourceIds := LoadNames(bytes, a, sourceCount.value);
    if !ok { return None; }
    ghost var image;
    v, image := LoadBody(bytes, b, sources, sourceIds);
    if v.Some? { assert image.value.sources == sources; }
  }
}
