/** The sidecar image: its structure, its bytes, which byte strings are accepted,
    and the one canonical image of a table. */
module Bm25Image {
  import opened Common
  import opened Floats
  import opened Orders
  import opened Utf8
  import opened Codec
  import opened Bm25Table
  import opened Bm25State

  datatype ImageSlot = ImageSlot(sourceId: u32, index: u32, length: F32, hash: u64, questionHash: u64)
  datatype ImageTerm = ImageTerm(gram: u64, postings: seq<Posting>)
  datatype Image = Image(sources: seq<Name>, slots: seq<ImageSlot>, terms: seq<ImageTerm>)

  /** "TAGURUB2" */
  const INDEX_MAGIC: Bytes := [0x54, 0x41, 0x47, 0x55, 0x52, 0x55, 0x42, 0x32]

  // --------------------------------------------------------------------- writing

  function WriteName(name: Name): Bytes {
    LittleEndian(|name|, 4) + name
  }

  function WriteSlot(s: ImageSlot): Bytes {
    LittleEndian(s.sourceId, 4) + (LittleEndian(s.index, 4) + (LittleEndian(s.length, 4)
    + (LittleEndian(s.hash, 8) + LittleEndian(s.questionHash, 8))))
  }

  function WritePosting(p: Posting): Bytes {
    LittleEndian(p.slot, 4) + LittleEndian(p.tf, 4)
  }

  function WriteTerm(t: ImageTerm): Bytes {
    LittleEndian(t.gram, 8) + (LittleEndian(|t.postings|, 4) + WriteAll(t.postings, WritePosting))
  }

  function WriteTail(terms: seq<ImageTerm>): Bytes {
    LittleEndian(|terms|, 4) + WriteAll(terms, WriteTerm)
  }

  function WriteBody(slots: seq<ImageSlot>, terms: seq<ImageTerm>): Bytes {
    LittleEndian(|slots|, 4) + (WriteAll(slots, WriteSlot) + WriteTail(terms))
  }

  function Write(img: Image): Bytes {
    INDEX_MAGIC + (LittleEndian(|img.sources|, 4) + (WriteAll(img.sources, WriteName) + WriteBody(img.slots, img.terms)))
  }

  // --------------------------------------------------------------------- reading

  /** A name not seen before, in well-formed UTF-8. */
  predicate NameOk(before: seq<Name>, name: Name) {
    ValidUtf8(name) && name !in before
  }

  /** A slot of a known source, a paragraph not seen before, above the slot before
      it when that is the same source's, with a finite length not below zero. */
  predicate SlotOk(sourceCount: nat, before: seq<ImageSlot>, s: ImageSlot) {
    && s.sourceId < sourceCount
    && (forall b | b in before :: b.sourceId != s.sourceId || b.index != s.index)
    && (before != [] && before[|before| - 1].sourceId == s.sourceId ==> before[|before| - 1].index < s.index)
    && Finite(s.length) && !Negative(s.length)
  }

  /** A posting of a known slot, above the one before, with a positive frequency. */
  predicate PostingOk(slotCount: nat, before: seq<Posting>, p: Posting) {
    && p.slot < slotCount
    && (before != [] ==> before[|before| - 1].slot < p.slot)
    && Positive(p.tf)
  }

  predicate TermOk(before: seq<ImageTerm>, t: ImageTerm) {
    forall b | b in before :: b.gram != t.gram
  }

  function SlotRule(sourceCount: nat): (seq<ImageSlot>, ImageSlot) -> bool {
    (before, s) => SlotOk(sourceCount, before, s)
  }

  function PostingRule(slotCount: nat): (seq<Posting>, Posting) -> bool {
    (before, p) => PostingOk(slotCount, before, p)
  }

  function ReadName(input: Bytes): Option<(Name, Bytes)> {
    match ReadInt(input, 4)
    case None => None
    case Some((n, rest)) => if |rest| < n then None else Some((rest[..n], rest[n..]))
  }

  function ReadSlot(input: Bytes): Option<(ImageSlot, Bytes)> {
    match ReadInt(input, 4)
    case None => None
    case Some((sourceId, a)) =>
      match ReadInt(a, 4)
      case None => None
      case Some((index, b)) =>
        match ReadInt(b, 4)
        case None => None
        case Some((length, c)) =>
          match ReadInt(c, 8)
          case None => None
          case Some((hash, d)) =>
            match ReadInt(d, 8)
            case None => None
            case Some((questionHash, rest)) => Some((ImageSlot(sourceId, index, length, hash, questionHash), rest))
  }

  function ReadPosting(input: Bytes): Option<(Posting, Bytes)> {
    match ReadInt(input, 4)
    case None => None
    case Some((slot, a)) =>
      match ReadInt(a, 4)
      case None => None
      case Some((tf, rest)) => Some((Posting(slot, tf), rest))
  }

  ghost function ReadPostings(input: Bytes, n: nat, slotCount: nat, before: seq<Posting>): Option<(seq<Posting>, Bytes)> {
    ReadAll(input, n, before, ReadPosting, PostingRule(slotCount))
  }

  ghost function ReadTerm(slotCount: nat, input: Bytes): Option<(ImageTerm, Bytes)> {
    match ReadInt(input, 8)
    case None => None
    case Some((gram, a)) =>
      match ReadInt(a, 4)
      case None => None
      case Some((n, b)) =>
        match ReadPostings(b, n, slotCount, [])
        case None => None
        case Some((postings, rest)) => Some((ImageTerm(gram, postings), rest))
  }

  ghost function TermReader(slotCount: nat): Bytes -> Option<(ImageTerm, Bytes)> {
    input => ReadTerm(slotCount, input)
  }

  ghost function ReadNames(input: Bytes, n: nat, before: seq<Name>): Option<(seq<Name>, Bytes)> {
    ReadAll(input, n, before, ReadName, NameOk)
  }

  ghost function ReadSlots(input: Bytes, n: nat, sourceCount: nat, before: seq<ImageSlot>): Option<(seq<ImageSlot>, Bytes)> {
    ReadAll(input, n, before, ReadSlot, SlotRule(sourceCount))
  }

  ghost function ReadTerms(input: Bytes, n: nat, slotCount: nat, before: seq<ImageTerm>): Option<(seq<ImageTerm>, Bytes)> {
    ReadAll(input, n, before, TermReader(slotCount), TermOk)
  }

  /** What a byte string is read as. */
  ghost function Read(bytes: Bytes): Option<Image> {
    if |bytes| < 8 || bytes[..8] != INDEX_MAGIC then None
    else
      match ReadInt(bytes[8..], 4)
      case None => None
      case Some((sourceCount, a)) =>
        match ReadNames(a, sourceCount, [])
        case None => None
        case Some((sources, b)) => ReadBody(sources, b)
  }

  ghost function ReadBody(sources: seq<Name>, b: Bytes): Option<Image> {
    match ReadInt(b, 4)
    case None => None
    case Some((slotCount, c)) =>
      match ReadSlots(c, slotCount, |sources|, [])
      case None => None
      case Some((slots, d)) => ReadTail(sources, slots, d)
  }

  ghost function ReadTail(sources: seq<Name>, slots: seq<ImageSlot>, d: Bytes): Option<Image> {
    match ReadInt(d, 4)
    case None => None
    case Some((termCount, e)) =>
      match ReadTerms(e, termCount, |slots|, [])
      case None => None
      case Some((terms, rest)) => if rest == [] then Some(Image(sources, slots, terms)) else None
  }

  // ------------------------------------------------------------------ acceptance

  predicate NameFits(name: Name) { |name| < U32_LIMIT }

  ghost predicate TermFits(slotCount: nat, t: ImageTerm) {
    |t.postings| < U32_LIMIT && AllOk(t.postings, 0, PostingRule(slotCount))
  }

  ghost function TermRoom(slotCount: nat): ImageTerm -> bool {
    t => TermFits(slotCount, t)
  }

  ghost predicate LegalNames(names: seq<Name>) {
    |names| < U32_LIMIT && AllOk(names, 0, NameOk) && forall n | n in names :: NameFits(n)
  }

  ghost predicate LegalSlots(slots: seq<ImageSlot>, sourceCount: nat) {
    |slots| < U32_LIMIT && AllOk(slots, 0, SlotRule(sourceCount))
  }

  ghost predicate LegalTerms(terms: seq<ImageTerm>, slotCount: nat) {
    |terms| < U32_LIMIT && AllOk(terms, 0, TermOk) && forall t | t in terms :: TermFits(slotCount, t)
  }

  /** The structure an image must have. */
  ghost predicate Legal(img: Image) {
    && LegalNames(img.sources)
    && LegalSlots(img.slots, |img.sources|)
    && LegalTerms(img.terms, |img.slots|)
  }

  // ---------------------------------------------------- readers against writers

  lemma NameInverse()
    ensures Inverse(ReadName, WriteName, NameFits)
  {
    Pow256Widths();
    forall name: Name, rest: Bytes | NameFits(name) ensures ReadName(WriteName(name) + rest) == Some((name, rest)) {
      ReadWritten(|name|, 4, name + rest);
      Regroup(LittleEndian(|name|, 4), name, rest);
      assert (name + rest)[..|name|] == name && (name + rest)[|name|..] == rest;
    }
    forall input: Bytes | ReadName(input).Some?
      ensures NameFits(ReadName(input).value.0)
      ensures input == WriteName(ReadName(input).value.0) + ReadName(input).value.1
    {
      ReadIsWritten(input, 4);
    }
  }

  lemma PostingInverse()
    ensures Inverse(ReadPosting, WritePosting, p => true)
  {
    Pow256Widths();
    hide LittleEndian, FromLittleEndian, Pow256;
    forall p: Posting, rest: Bytes ensures ReadPosting(WritePosting(p) + rest) == Some((p, rest)) {
      hide ReadInt;
      ReadWritten(p.slot, 4, LittleEndian(p.tf, 4) + rest);
      ReadWritten(p.tf, 4, rest);
      Regroup(LittleEndian(p.slot, 4), LittleEndian(p.tf, 4), rest);
    }
    forall input: Bytes | ReadPosting(input).Some?
      ensures input == WritePosting(ReadPosting(input).value.0) + ReadPosting(input).value.1
    {
      hide ReadInt;
      ReadIsWritten(input, 4);
      ReadIsWritten(ReadInt(input, 4).value.1, 4);
      Regroup(LittleEndian(ReadPosting(input).value.0.slot, 4), LittleEndian(ReadPosting(input).value.0.tf, 4),
              ReadPosting(input).value.1);
    }
  }

  lemma SlotInverse()
    ensures Inverse(ReadSlot, WriteSlot, s => true)
  {
    hide ReadSlot, WriteSlot;
    forall s: ImageSlot, rest: Bytes ensures ReadSlot(WriteSlot(s) + rest) == Some((s, rest)) {
      SlotWritten(s, rest);
    }
    forall input: Bytes | ReadSlot(input).Some?
      ensures input == WriteSlot(ReadSlot(input).value.0) + ReadSlot(input).value.1
    {
      SlotIsWritten(input);
    }
  }

  lemma SlotWritten(s: ImageSlot, rest: Bytes)
    ensures ReadSlot(WriteSlot(s) + rest) == Some((s, rest))
  {
    Pow256Widths();
    var i, l, h, q := LittleEndian(s.index, 4), LittleEndian(s.length, 4), LittleEndian(s.hash, 8), LittleEndian(s.questionHash, 8);
    hide LittleEndian, FromLittleEndian, Pow256, ReadInt;
    ReadWritten(s.questionHash, 8, rest);
    ReadWritten(s.hash, 8, q + rest);
    ReadWritten(s.length, 4, h + (q + rest));
    ReadWritten(s.index, 4, l + (h + (q + rest)));
    ReadWritten(s.sourceId, 4, i + (l + (h + (q + rest))));
    Regroup(LittleEndian(s.sourceId, 4), i + (l + (h + q)), rest);
    Regroup(i, l + (h + q), rest);
    Regroup(l, h + q, rest);
    Regroup(h, q, rest);
  }

  lemma SlotIsWritten(input: Bytes)
    requires ReadSlot(input).Some?
    ensures input == WriteSlot(ReadSlot(input).value.0) + ReadSlot(input).value.1
  {
    hide LittleEndian, FromLittleEndian, Pow256, ReadInt;
    var a := ReadInt(input, 4).value.1;
    var b := ReadInt(a, 4).value.1;
    var c := ReadInt(b, 4).value.1;
    var d := ReadInt(c, 8).value.1;
    ReadIsWritten(input, 4);
    ReadIsWritten(a, 4);
    ReadIsWritten(b, 4);
    ReadIsWritten(c, 8);
    ReadIsWritten(d, 8);
    var s, rest := ReadSlot(input).value.0, ReadSlot(input).value.1;
    var i, l, h, q := LittleEndian(s.index, 4), LittleEndian(s.length, 4), LittleEndian(s.hash, 8), LittleEndian(s.questionHash, 8);
    Regroup(LittleEndian(s.sourceId, 4), i + (l + (h + q)), rest);
    Regroup(i, l + (h + q), rest);
    Regroup(l, h + q, rest);
    Regroup(h, q, rest);
  }

  lemma TermInverse(slotCount: nat)
    ensures Inverse(TermReader(slotCount), WriteTerm, TermRoom(slotCount))
  {
    hide ReadTerm, WriteTerm, TermFits;
    forall t: ImageTerm, rest: Bytes | TermFits(slotCount, t)
      ensures ReadTerm(slotCount, WriteTerm(t) + rest) == Some((t, rest))
    {
      TermWritten(slotCount, t, rest);
    }
    forall input: Bytes | ReadTerm(slotCount, input).Some?
      ensures TermFits(slotCount, ReadTerm(slotCount, input).value.0)
      ensures input == WriteTerm(ReadTerm(slotCount, input).value.0) + ReadTerm(slotCount, input).value.1
    {
      TermIsWritten(slotCount, input);
    }
  }

  lemma {:induction false} PostingsWritten(slotCount: nat, postings: seq<Posting>, rest: Bytes)
    requires AllOk(postings, 0, PostingRule(slotCount))
    ensures ReadPostings(WriteAll(postings, WritePosting) + rest, |postings|, slotCount, []) == Some((postings, rest))
  {
    PostingInverse();
    hide ReadPosting, WritePosting, ReadAll, WriteAll, PostingRule;
    ReadWrittenAll(postings, 0, rest, ReadPosting, WritePosting, p => true, PostingRule(slotCount));
    assert postings[0..] == postings && postings[..0] == [];
  }

  lemma TermWritten(slotCount: nat, t: ImageTerm, rest: Bytes)
    requires TermFits(slotCount, t)
    ensures ReadTerm(slotCount, WriteTerm(t) + rest) == Some((t, rest))
  {
    Pow256Widths();
    PostingsWritten(slotCount, t.postings, rest);
    hide LittleEndian, FromLittleEndian, Pow256, ReadInt, WriteAll, ReadPostings;
    var n, ps := LittleEndian(|t.postings|, 4), WriteAll(t.postings, WritePosting);
    ReadWritten(|t.postings|, 4, ps + rest);
    ReadWritten(t.gram, 8, n + (ps + rest));
    Regroup(LittleEndian(t.gram, 8), n + ps, rest);
    Regroup(n, ps, rest);
  }

  lemma PostingsAreWritten(slotCount: nat, n: nat, input: Bytes)
    requires ReadPostings(input, n, slotCount, []).Some?
    ensures var postings := ReadPostings(input, n, slotCount, []).value.0;
      |postings| == n && AllOk(postings, 0, PostingRule(slotCount))
      && input == WriteAll(postings, WritePosting) + ReadPostings(input, n, slotCount, []).value.1
  {
    PostingInverse();
    hide ReadPosting, WritePosting, ReadAll, WriteAll, PostingRule;
    ReadAllIsWritten(input, n, [], ReadPosting, WritePosting, p => true, PostingRule(slotCount));
    var postings := ReadPostings(input, n, slotCount, []).value.0;
    assert postings[0..] == postings;
  }

  lemma TermIsWritten(slotCount: nat, input: Bytes)
    requires ReadTerm(slotCount, input).Some?
    ensures TermFits(slotCount, ReadTerm(slotCount, input).value.0)
    ensures input == WriteTerm(ReadTerm(slotCount, input).value.0) + ReadTerm(slotCount, input).value.1
  {
    hide LittleEndian, FromLittleEndian, Pow256, ReadInt, WriteAll, ReadPostings;
    var a := ReadInt(input, 8).value.1;
    var n, b := ReadInt(a, 4).value.0, ReadInt(a, 4).value.1;
    ReadIsWritten(input, 8);
    ReadIsWritten(a, 4);
    PostingsAreWritten(slotCount, n, b);
    var t, rest := ReadTerm(slotCount, input).value.0, ReadTerm(slotCount, input).value.1;
    Regroup(LittleEndian(t.gram, 8), LittleEndian(n, 4) + WriteAll(t.postings, WritePosting), rest);
    Regroup(LittleEndian(n, 4), WriteAll(t.postings, WritePosting), rest);
  }

  // --------------------------------------------------------------- the whole image

  lemma {:induction false} NamesWritten(names: seq<Name>, rest: Bytes)
    requires LegalNames(names)
    ensures ReadNames(WriteAll(names, WriteName) + rest, |names|, []) == Some((names, rest))
  {
    NameInverse();
    hide ReadName, WriteName, ReadAll, WriteAll, NameOk;
    ReadWrittenAll(names, 0, rest, ReadName, WriteName, NameFits, NameOk);
    assert names[0..] == names && names[..0] == [];
  }

  lemma {:induction false} SlotsWritten(slots: seq<ImageSlot>, sourceCount: nat, rest: Bytes)
    requires LegalSlots(slots, sourceCount)
    ensures ReadSlots(WriteAll(slots, WriteSlot) + rest, |slots|, sourceCount, []) == Some((slots, rest))
  {
    SlotInverse();
    hide ReadSlot, WriteSlot, ReadAll, WriteAll, SlotRule;
    ReadWrittenAll(slots, 0, rest, ReadSlot, WriteSlot, s => true, SlotRule(sourceCount));
    assert slots[0..] == slots && slots[..0] == [];
  }

  lemma {:induction false} TermsWritten(terms: seq<ImageTerm>, slotCount: nat)
    requires LegalTerms(terms, slotCount)
    ensures ReadTerms(WriteAll(terms, WriteTerm), |terms|, slotCount, []) == Some((terms, []))
  {
    TermInverse(slotCount);
    hide TermReader, WriteTerm, ReadAll, WriteAll, TermOk;
    ReadWrittenAll(terms, 0, [], TermReader(slotCount), WriteTerm, TermRoom(slotCount), TermOk);
    assert terms[0..] == terms && terms[..0] == [] && WriteAll(terms, WriteTerm) + [] == WriteAll(terms, WriteTerm);
  }

  lemma TailWritten(sources: seq<Name>, slots: seq<ImageSlot>, terms: seq<ImageTerm>)
    requires LegalTerms(terms, |slots|)
    ensures ReadTail(sources, slots, WriteTail(terms)) == Some(Image(sources, slots, terms))
  {
    Pow256Widths();
    TermsWritten(terms, |slots|);
    hide LittleEndian, ReadInt, WriteAll, Pow256, ReadTerms;
    ReadWritten(|terms|, 4, WriteAll(terms, WriteTerm));
  }

  lemma BodyWritten(sources: seq<Name>, slots: seq<ImageSlot>, terms: seq<ImageTerm>)
    requires LegalSlots(slots, |sources|) && LegalTerms(terms, |slots|)
    ensures ReadBody(sources, WriteBody(slots, terms)) == Some(Image(sources, slots, terms))
  {
    Pow256Widths();
    TailWritten(sources, slots, terms);
    SlotsWritten(slots, |sources|, WriteTail(terms));
    hide LittleEndian, ReadInt, WriteAll, Pow256, ReadSlots, ReadTail, WriteTail;
    ReadWritten(|slots|, 4, WriteAll(slots, WriteSlot) + WriteTail(terms));
  }

  /** A legal image is read back from its bytes. */
  lemma {:induction false} ReadsWritten(img: Image)
    requires Legal(img)
    ensures Read(Write(img)) == Some(img)
  {
    Pow256Widths();
    BodyWritten(img.sources, img.slots, img.terms);
    var body := WriteBody(img.slots, img.terms);
    NamesWritten(img.sources, body);
    hide LittleEndian, ReadInt, WriteAll, Pow256, ReadNames, ReadBody, WriteBody;
    ReadWritten(|img.sources|, 4, WriteAll(img.sources, WriteName) + body);
    var rest := LittleEndian(|img.sources|, 4) + (WriteAll(img.sources, WriteName) + body);
    assert (INDEX_MAGIC + rest)[..8] == INDEX_MAGIC && (INDEX_MAGIC + rest)[8..] == rest;
  }

  lemma NamesAreWritten(input: Bytes, n: nat)
    requires ReadNames(input, n, []).Some? && n < U32_LIMIT
    ensures var names := ReadNames(input, n, []).value.0;
      |names| == n && LegalNames(names) && input == WriteAll(names, WriteName) + ReadNames(input, n, []).value.1
  {
    NameInverse();
    hide ReadName, WriteName, ReadAll, WriteAll, NameOk;
    ReadAllIsWritten(input, n, [], ReadName, WriteName, NameFits, NameOk);
    var names := ReadNames(input, n, []).value.0;
    assert names[0..] == names;
  }

  lemma SlotsAreWritten(input: Bytes, n: nat, sourceCount: nat)
    requires ReadSlots(input, n, sourceCount, []).Some? && n < U32_LIMIT
    ensures var slots := ReadSlots(input, n, sourceCount, []).value.0;
      |slots| == n && LegalSlots(slots, sourceCount)
      && input == WriteAll(slots, WriteSlot) + ReadSlots(input, n, sourceCount, []).value.1
  {
    SlotInverse();
    hide ReadSlot, WriteSlot, ReadAll, WriteAll, SlotRule;
    ReadAllIsWritten(input, n, [], ReadSlot, WriteSlot, s => true, SlotRule(sourceCount));
    var slots := ReadSlots(input, n, sourceCount, []).value.0;
    assert slots[0..] == slots;
  }

  lemma TermsAreWritten(input: Bytes, n: nat, slotCount: nat)
    requires ReadTerms(input, n, slotCount, []).Some? && n < U32_LIMIT
    ensures var terms := ReadTerms(input, n, slotCount, []).value.0;
      |terms| == n && LegalTerms(terms, slotCount)
      && input == WriteAll(terms, WriteTerm) + ReadTerms(input, n, slotCount, []).value.1
  {
    TermInverse(slotCount);
    hide TermReader, WriteTerm, ReadAll, WriteAll, TermOk, TermFits;
    ReadAllIsWritten(input, n, [], TermReader(slotCount), WriteTerm, TermRoom(slotCount), TermOk);
    var terms := ReadTerms(input, n, slotCount, []).value.0;
    assert terms[0..] == terms;
  }

  lemma TailIsImage(sources: seq<Name>, slots: seq<ImageSlot>, d: Bytes)
    requires ReadTail(sources, slots, d).Some?
    ensures var img := ReadTail(sources, slots, d).value;
      img.sources == sources && img.slots == slots && LegalTerms(img.terms, |slots|) && d == WriteTail(img.terms)
  {
    ReadIsWritten(d, 4);
    hide LittleEndian, ReadInt, WriteAll, Pow256, ReadTerms, LegalTerms;
    var n, e := ReadInt(d, 4).value.0, ReadInt(d, 4).value.1;
    TermsAreWritten(e, n, |slots|);
    var terms := ReadTerms(e, n, |slots|, []).value.0;
    assert WriteAll(terms, WriteTerm) + [] == WriteAll(terms, WriteTerm);
  }

  lemma BodyIsImage(sources: seq<Name>, b: Bytes)
    requires ReadBody(sources, b).Some?
    ensures var img := ReadBody(sources, b).value;
      img.sources == sources && LegalSlots(img.slots, |sources|) && LegalTerms(img.terms, |img.slots|)
      && b == WriteBody(img.slots, img.terms)
  {
    ReadIsWritten(b, 4);
    hide LittleEndian, ReadInt, WriteAll, Pow256, ReadSlots, ReadTail, LegalTerms, LegalSlots, WriteTail;
    var n, c := ReadInt(b, 4).value.0, ReadInt(b, 4).value.1;
    SlotsAreWritten(c, n, |sources|);
    TailIsImage(sources, ReadSlots(c, n, |sources|, []).value.0, ReadSlots(c, n, |sources|, []).value.1);
  }

  /** A byte string that is read is the image of what it is read as. */
  lemma {:induction false} ReadIsImage(bytes: Bytes)
    requires Read(bytes).Some?
    ensures Legal(Read(bytes).value) && Write(Read(bytes).value) == bytes
  {
    ReadIsWritten(bytes[8..], 4);
    hide LittleEndian, ReadInt, WriteAll, Pow256, ReadNames, ReadBody, LegalTerms, LegalSlots, LegalNames, WriteBody;
    var n, a := ReadInt(bytes[8..], 4).value.0, ReadInt(bytes[8..], 4).value.1;
    NamesAreWritten(a, n);
    BodyIsImage(ReadNames(a, n, []).value.0, ReadNames(a, n, []).value.1);
    assert bytes == bytes[..8] + bytes[8..];
  }

  /** A byte string is accepted exactly when it is the bytes of a legal image. */
  lemma {:induction false} AcceptedExactly(bytes: Bytes)
    ensures Read(bytes).Some? <==> exists img :: Legal(img) && Write(img) == bytes
  {
    if Read(bytes).Some? { ReadIsImage(bytes); }
    if img :| Legal(img) && Write(img) == bytes { ReadsWritten(img); }
  }

  // ------------------------------------------------------------- where the bytes are

  /** The number written little-endian at a place. */
  function NumberAt(bytes: Bytes, from: nat, width: nat): nat
    requires from + width <= |bytes|
  {
    FromLittleEndian(bytes[from..from + width])
  }

  lemma {:induction false} NumberIn(before: Bytes, n: nat, width: nat, after: Bytes)
    requires n < Pow256(width)
    ensures var b := before + (LittleEndian(n, width) + after); NumberAt(b, |before|, width) == n
  {
    var b := before + (LittleEndian(n, width) + after);
    assert b[|before|..|before| + width] == LittleEndian(n, width);
    ReadBack(n, width);
  }

  /** A slot is 28 bytes: source, paragraph, length, hash and question fold. */
  lemma {:induction false} SlotLayout(s: ImageSlot)
    ensures var b := WriteSlot(s);
      && |b| == 28 && NumberAt(b, 0, 4) == s.sourceId && NumberAt(b, 4, 4) == s.index && NumberAt(b, 8, 4) == s.length
      && NumberAt(b, 12, 8) == s.hash && NumberAt(b, 20, 8) == s.questionHash
  {
    Pow256Widths();
    hide LittleEndian, FromLittleEndian, Pow256;
    var i, p, l, h, q := LittleEndian(s.sourceId, 4), LittleEndian(s.index, 4), LittleEndian(s.length, 4),
      LittleEndian(s.hash, 8), LittleEndian(s.questionHash, 8);
    FiveParts(i, p, l, h, q);
    NumberIn([], s.sourceId, 4, p + (l + (h + q)));
    NumberIn(i, s.index, 4, l + (h + q));
    NumberIn(i + p, s.length, 4, h + q);
    NumberIn(i + p + l, s.hash, 8, q);
    NumberIn(i + p + l + h, s.questionHash, 8, []);
  }

  /** Five parts, each seen between those before it and those after. */
  lemma FiveParts(a: Bytes, b: Bytes, c: Bytes, d: Bytes, e: Bytes)
    ensures var all := a + (b + (c + (d + e)));
      && all == [] + (a + (b + (c + (d + e)))) && all == (a + b) + (c + (d + e))
      && all == (a + b + c) + (d + e) && all == (a + b + c + d) + (e + [])
  {
    Regroup(a, b, c + (d + e));
    Regroup(a + b, c, d + e);
    Regroup(a + b + c, d, e);
  }

  /** A term's block is its number, how many postings it has, and eight bytes for each:
      slot and frequency. */
  lemma {:induction false} TermLayout(t: ImageTerm)
    requires |t.postings| < U32_LIMIT
    ensures var b := WriteTerm(t);
      && |b| == 12 + 8 * |t.postings| && NumberAt(b, 0, 8) == t.gram && NumberAt(b, 8, 4) == |t.postings|
      && forall k | 0 <= k < |t.postings| ::
           NumberAt(b, 12 + 8 * k, 4) == t.postings[k].slot && NumberAt(b, 16 + 8 * k, 4) == t.postings[k].tf
  {
    Pow256Widths();
    hide LittleEndian, FromLittleEndian, Pow256, WriteAll;
    var g, n, ps := LittleEndian(t.gram, 8), LittleEndian(|t.postings|, 4), WriteAll(t.postings, WritePosting);
    PostingsLength(t.postings);
    NumberIn([], t.gram, 8, n + ps);
    NumberIn(g, |t.postings|, 4, ps);
    assert WriteTerm(t) == [] + (g + (n + ps));
    hide NumberAt;
    forall k | 0 <= k < |t.postings|
      ensures NumberAt(WriteTerm(t), 12 + 8 * k, 4) == t.postings[k].slot && NumberAt(WriteTerm(t), 16 + 8 * k, 4) == t.postings[k].tf
    {
      PostingLayout(t, k);
    }
  }

  lemma {:induction false} PostingLayout(t: ImageTerm, k: nat)
    requires k < |t.postings|
    ensures var b := WriteTerm(t);
      && |b| == 12 + 8 * |t.postings|
      && NumberAt(b, 12 + 8 * k, 4) == t.postings[k].slot && NumberAt(b, 16 + 8 * k, 4) == t.postings[k].tf
  {
    Pow256Widths();
    hide LittleEndian, FromLittleEndian, Pow256, WriteAll, NumberAt;
    var g, n := LittleEndian(t.gram, 8), LittleEndian(|t.postings|, 4);
    var before, after := WriteAll(t.postings[..k], WritePosting), WriteAll(t.postings[k + 1..], WritePosting);
    var p, s, f := t.postings[k], LittleEndian(t.postings[k].slot, 4), LittleEndian(t.postings[k].tf, 4);
    PostingsLength(t.postings);
    PostingsLength(t.postings[..k]);
    PostingsSplit(t.postings, k);
    PostingPlace(g, n, before, s, f, after);
    NumberIn(g + n + before, p.slot, 4, f + after);
    NumberIn(g + n + before + s, p.tf, 4, after);
  }

  lemma PostingPlace(g: Bytes, n: Bytes, before: Bytes, s: Bytes, f: Bytes, after: Bytes)
    ensures var all := g + (n + (before + ((s + f) + after)));
      all == (g + n + before) + (s + (f + after)) && all == (g + n + before + s) + (f + after)
  {
    Regroup(s, f, after);
    Regroup(g, n, before + (s + (f + after)));
    Regroup(g + n, before, s + (f + after));
    Regroup(g + n + before, s, f + after);
  }

  lemma {:induction false} PostingsLength(postings: seq<Posting>)
    ensures |WriteAll(postings, WritePosting)| == 8 * |postings|
  {
    if postings != [] { PostingsLength(postings[1..]); }
  }

  lemma {:induction false} PostingsSplit(postings: seq<Posting>, k: nat)
    requires k < |postings|
    ensures WriteAll(postings, WritePosting)
         == WriteAll(postings[..k], WritePosting) + (WritePosting(postings[k]) + WriteAll(postings[k + 1..], WritePosting))
  {
    hide WritePosting;
    if k > 0 {
      PostingsSplit(postings[1..], k - 1);
      assert postings[1..][..k - 1] == postings[..k][1..] && postings[1..][k..] == postings[k + 1..];
    } else {
      assert postings[..0] == [] && postings[1..] == postings[0 + 1..];
    }
  }

  /** The image opens with its mark and its three counted parts, in their order. */
  lemma {:induction false} ImageLayout(img: Image)
    requires |img.sources| < U32_LIMIT && |img.slots| < U32_LIMIT && |img.terms| < U32_LIMIT
    ensures var b, mark := Write(img), |INDEX_MAGIC|;
      var slotsAt := mark + 4 + |WriteAll(img.sources, WriteName)|;
      var termsAt := slotsAt + 4 + |WriteAll(img.slots, WriteSlot)|;
      && termsAt + 4 <= |b| && b[..mark] == INDEX_MAGIC
      && NumberAt(b, mark, 4) == |img.sources| && NumberAt(b, slotsAt, 4) == |img.slots| && NumberAt(b, termsAt, 4) == |img.terms|
  {
    Pow256Widths();
    hide LittleEndian, FromLittleEndian, Pow256, WriteAll;
    var a, n, c, m, d, k, e := INDEX_MAGIC, LittleEndian(|img.sources|, 4), WriteAll(img.sources, WriteName),
      LittleEndian(|img.slots|, 4), WriteAll(img.slots, WriteSlot), LittleEndian(|img.terms|, 4), WriteAll(img.terms, WriteTerm);
    var b := Write(img);
    NumberIn(a, |img.sources|, 4, c + (m + (d + (k + e))));
    NumberIn(a + n + c, |img.slots|, 4, d + (k + e));
    NumberIn(a + n + c + m + d, |img.terms|, 4, e);
    assert b == a + (n + (c + (m + (d + (k + e))))) == (a + n + c) + (m + (d + (k + e))) == (a + n + c + m + d) + (k + e);
  }
}
