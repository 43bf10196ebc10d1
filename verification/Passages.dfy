/** The passage store's records as the index sees them: paragraphs and attached
    questions, each with the terms the tokenizer found in it. */
module Passages {
  import opened Common
  import opened Hash
  import opened Codec

  datatype Paragraph = Paragraph(index: u32, hash: u64, grams: seq<u64>)

  datatype Question = Question(paragraph: u32, text: seq<byte>, grams: seq<u64>)

  datatype PassageRecord = PassageRecord(paragraphs: seq<Paragraph>, questions: seq<Question>)

  /** What the record's constructor establishes: paragraphs numbered upwards,
      questions in paragraph order, none attached to a paragraph that is not there. */
  ghost predicate WellFormed(r: PassageRecord) {
    && (forall i, j | 0 <= i < j < |r.paragraphs| :: r.paragraphs[i].index < r.paragraphs[j].index)
    && (forall i, j | 0 <= i < j < |r.questions| :: r.questions[i].paragraph <= r.questions[j].paragraph)
    && (forall q | q in r.questions :: exists p :: p in r.paragraphs && p.index == q.paragraph)
  }

  /** One indexed document: a paragraph with its questions' terms appended. */
  datatype Doc = Doc(index: u32, hash: u64, questionHash: u64, grams: seq<u64>)

  /** The questions attached to paragraph `p`, in record order. */
  function QuestionsOf(qs: seq<Question>, p: u32): seq<Question> {
    if qs == [] then []
    else if qs[0].paragraph == p then [qs[0]] + QuestionsOf(qs[1..], p)
    else QuestionsOf(qs[1..], p)
  }

  /** The fold of the question texts, a 0xff after each. */
  function FoldQuestions(digest: u64, qs: seq<Question>): u64
    decreases |qs|
  {
    if qs == [] then digest
    else FoldQuestions(FnvFold(digest, qs[0].text + [0xff]), qs[1..])
  }

  function QuestionGrams(qs: seq<Question>): seq<u64> {
    if qs == [] then [] else qs[0].grams + QuestionGrams(qs[1..])
  }

  function DocOf(r: PassageRecord, k: nat): Doc
    requires k < |r.paragraphs|
  {
    var p := r.paragraphs[k];
    var qs := QuestionsOf(r.questions, p.index);
    Doc(p.index, p.hash, FoldQuestions(FNV1A_OFFSET, qs), p.grams + QuestionGrams(qs))
  }

  function Docs(r: PassageRecord): (docs: seq<Doc>)
    ensures |docs| == |r.paragraphs|
  {
    seq(|r.paragraphs|, k requires 0 <= k < |r.paragraphs| => DocOf(r, k))
  }

  /** How often `gram` occurs. */
  function Count(grams: seq<u64>, gram: u64): (n: nat)
    ensures n > 0 <==> gram in grams
  {
    if grams == [] then 0
    else
      assert grams == [grams[0]] + grams[1..];
      (if grams[0] == gram then 1 else 0) + Count(grams[1..], gram)
  }

  lemma {:induction false} CountAppend(a: seq<u64>, b: seq<u64>, gram: u64)
    ensures Count(a + b, gram) == Count(a, gram) + Count(b, gram)
  {
    if a == [] {
      assert a + b == b;
    } else {
      assert (a + b)[1..] == a[1..] + b;
      CountAppend(a[1..], b, gram);
    }
  }

  /** One row of the digest. */
  function DigestFold(digest: u64, index: u32, hash: u64, questionHash: u64): u64 {
    FnvFold(digest, LittleEndian(index, 4) + LittleEndian(hash, 8) + LittleEndian(questionHash, 8))
  }

  /** The drift digest of a run of documents. */
  function DigestDocs(digest: u64, docs: seq<Doc>): u64
    decreases |docs|
  {
    if docs == [] then digest
    else DigestDocs(DigestFold(digest, docs[0].index, docs[0].hash, docs[0].questionHash), docs[1..])
  }

  lemma {:induction false} DigestDocsAppend(digest: u64, docs: seq<Doc>, d: Doc)
    ensures DigestDocs(digest, docs + [d])
         == DigestFold(DigestDocs(digest, docs), d.index, d.hash, d.questionHash)
    decreases |docs|
  {
    if docs == [] {
      assert docs + [d] == [d];
    } else {
      assert (docs + [d])[1..] == docs[1..] + [d];
      DigestDocsAppend(DigestFold(digest, docs[0].index, docs[0].hash, docs[0].questionHash), docs[1..], d);
    }
  }

  // ---------------------------------------------------------- the question cursor

  /** The cursor stands between the questions before paragraph `p` and the rest. */
  ghost predicate CursorAt(qs: seq<Question>, cursor: nat, p: nat) {
    && cursor <= |qs|
    && (forall i | 0 <= i < cursor :: qs[i].paragraph < p)
    && (forall i | cursor <= i < |qs| :: p <= qs[i].paragraph)
  }

  lemma {:induction false} QuestionsOfAppend(a: seq<Question>, b: seq<Question>, p: u32)
    ensures QuestionsOf(a + b, p) == QuestionsOf(a, p) + QuestionsOf(b, p)
  {
    if a == [] {
      assert a + b == b;
    } else {
      assert (a + b)[1..] == a[1..] + b;
      QuestionsOfAppend(a[1..], b, p);
    }
  }

  lemma {:induction false} QuestionsOfNone(qs: seq<Question>, p: u32)
    requires forall i | 0 <= i < |qs| :: qs[i].paragraph != p
    ensures QuestionsOf(qs, p) == []
  {
    if qs != [] { QuestionsOfNone(qs[1..], p); }
  }

  lemma {:induction false} QuestionsOfAll(qs: seq<Question>, p: u32)
    requires forall i | 0 <= i < |qs| :: qs[i].paragraph == p
    ensures QuestionsOf(qs, p) == qs
  {
    if qs != [] { QuestionsOfAll(qs[1..], p); }
  }

  lemma {:induction false} FoldQuestionsAppend(digest: u64, qs: seq<Question>, q: Question)
    ensures FoldQuestions(digest, qs + [q]) == FnvFold(FoldQuestions(digest, qs), q.text + [0xff])
    decreases |qs|
  {
    if qs == [] {
      assert qs + [q] == [q];
    } else {
      assert (qs + [q])[1..] == qs[1..] + [q];
      FoldQuestionsAppend(FnvFold(digest, qs[0].text + [0xff]), qs[1..], q);
    }
  }

  lemma {:induction false} QuestionGramsAppend(qs: seq<Question>, q: Question)
    ensures QuestionGrams(qs + [q]) == QuestionGrams(qs) + q.grams
  {
    if qs == [] {
      assert qs + [q] == [q];
    } else {
      assert (qs + [q])[1..] == qs[1..] + [q];
      QuestionGramsAppend(qs[1..], q);
    }
  }

  lemma {:induction false} RunOfQuestions(qs: seq<Question>, from: nat, to: nat, p: u32)
    requires from <= to <= |qs|
    requires forall i | 0 <= i < |qs| :: qs[i].paragraph == p <==> from <= i < to
    ensures QuestionsOf(qs, p) == qs[from..to]
  {
    assert qs == qs[..from] + (qs[from..to] + qs[to..]);
    QuestionsOfAppend(qs[..from], qs[from..to] + qs[to..], p);
    QuestionsOfAppend(qs[from..to], qs[to..], p);
    QuestionsOfNone(qs[..from], p);
    QuestionsOfAll(qs[from..to], p);
    QuestionsOfNone(qs[to..], p);
  }

  /** Consumes the questions of `paragraph` off the cursor. On a record in order
      they are exactly the paragraph's own, and the cursor ends past them. */
  method TakeQuestionsFold(qs: seq<Question>, cursor: nat, paragraph: u32)
    returns (digest: u64, grams: seq<u64>, next: nat)
    requires forall i, j | 0 <= i < j < |qs| :: qs[i].paragraph <= qs[j].paragraph
    requires CursorAt(qs, cursor, paragraph)
    ensures CursorAt(qs, next, paragraph + 1)
    ensures digest == FoldQuestions(FNV1A_OFFSET, QuestionsOf(qs, paragraph))
    ensures grams == QuestionGrams(QuestionsOf(qs, paragraph))
  {
    hide FnvFold;
    digest, grams, next := FNV1A_OFFSET, [], cursor;
    while next < |qs| && qs[next].paragraph == paragraph
      invariant cursor <= next <= |qs|
      invariant forall i | cursor <= i < next :: qs[i].paragraph == paragraph
      invariant digest == FoldQuestions(FNV1A_OFFSET, qs[cursor..next])
      invariant grams == QuestionGrams(qs[cursor..next])
    {
      assert qs[cursor..next + 1] == qs[cursor..next] + [qs[next]];
      FoldQuestionsAppend(FNV1A_OFFSET, qs[cursor..next], qs[next]);
      QuestionGramsAppend(qs[cursor..next], qs[next]);
      digest := FnvFold(digest, qs[next].text + [0xff]);
      grams := grams + qs[next].grams;
      next := next + 1;
    }
    RunOfQuestions(qs, cursor, next, paragraph);
  }

  /** The cursor has taken the questions of the first `k` paragraphs. */
  ghost predicate CursorReady(r: PassageRecord, cursor: nat, k: nat)
    requires k <= |r.paragraphs|
  {
    if k == 0 then cursor == 0 else CursorAt(r.questions, cursor, r.paragraphs[k - 1].index + 1)
  }

  /** Moving on to the next paragraph leaves no question behind. */
  lemma {:induction false} CursorMoves(r: PassageRecord, k: nat, cursor: nat)
    requires WellFormed(r) && k < |r.paragraphs|
    requires CursorReady(r, cursor, k)
    ensures CursorAt(r.questions, cursor, r.paragraphs[k].index)
  {
    forall i | cursor <= i < |r.questions| ensures r.paragraphs[k].index <= r.questions[i].paragraph {
      var q := r.questions[i];
      assert q in r.questions;
      var j :| 0 <= j < |r.paragraphs| && r.paragraphs[j].index == q.paragraph;
    }
  }

  lemma {:induction false} CursorStarts(r: PassageRecord)
    ensures CursorReady(r, 0, 0)
  {
  }

  /** The lockstep cursor: paragraph `k` takes exactly its own questions. */
  method TakeParagraphQuestions(record: PassageRecord, k: nat, cursor: nat)
    returns (questionHash: u64, questionGrams: seq<u64>, next: nat)
    requires WellFormed(record) && k < |record.paragraphs| && CursorReady(record, cursor, k)
    ensures CursorReady(record, next, k + 1)
    ensures Docs(record)[k] == Doc(record.paragraphs[k].index, record.paragraphs[k].hash, questionHash,
                                   record.paragraphs[k].grams + questionGrams)
  {
    CursorMoves(record, k, cursor);
    questionHash, questionGrams, next := TakeQuestionsFold(record.questions, cursor, record.paragraphs[k].index);
  }

  /** The digest a fresh index would hold for the record; no paragraph, no digest. */
  function DigestOf(r: PassageRecord): Option<u64> {
    if r.paragraphs == [] then None else Some(DigestDocs(FNV1A_OFFSET, Docs(r)))
  }

  method RecordDigest(r: PassageRecord) returns (digest: Option<u64>)
    requires WellFormed(r)
    ensures digest == DigestOf(r)
  {
    if r.paragraphs == [] {
      return None;
    }
    hide FnvFold, DigestFold, Docs, DigestDocs, WellFormed, CursorReady;
    var d, cursor := FNV1A_OFFSET, 0;
    CursorStarts(r);
    DigestDocsNone(FNV1A_OFFSET, Docs(r));
    for k := 0 to |r.paragraphs|
      invariant CursorReady(r, cursor, k)
      invariant d == DigestDocs(FNV1A_OFFSET, Docs(r)[..k])
    {
      var p := r.paragraphs[k];
      var questionHash, _, next := TakeParagraphQuestions(r, k, cursor);
      DigestStep(r, k);
      d := DigestFold(d, p.index, p.hash, questionHash);
      cursor := next;
    }
    assert Docs(r)[..|r.paragraphs|] == Docs(r);
    return Some(d);
  }

  lemma {:induction false} DigestDocsNone(digest: u64, docs: seq<Doc>)
    ensures DigestDocs(digest, docs[..0]) == digest
  {
  }

  lemma {:induction false} DigestStep(r: PassageRecord, k: nat)
    requires k < |r.paragraphs|
    ensures DigestDocs(FNV1A_OFFSET, Docs(r)[..k + 1])
         == DigestFold(DigestDocs(FNV1A_OFFSET, Docs(r)[..k]), r.paragraphs[k].index, r.paragraphs[k].hash,
                       Docs(r)[k].questionHash)
  {
    hide DigestFold, FnvFold;
    assert Docs(r)[..k + 1] == Docs(r)[..k] + [DocOf(r, k)];
    DigestDocsAppend(FNV1A_OFFSET, Docs(r)[..k], DocOf(r, k));
  }

  // ------------------------------------------------------- what a digest tells apart

  /** Numbers that differ in one byte as they are written. */
  predicate NumberOff(a: nat, b: nat, width: nat) {
    OneByteOff(LittleEndian(a, width), LittleEndian(b, width))
  }

  lemma {:induction false} OffInside(before: seq<byte>, x: seq<byte>, y: seq<byte>, after: seq<byte>)
    requires OneByteOff(x, y)
    ensures OneByteOff(before + (x + after), before + (y + after))
  {
    var k :| 0 <= k < |x| && x[k] != y[k] && x[..k] == y[..k] && x[k + 1..] == y[k + 1..];
    var a, b, n := before + (x + after), before + (y + after), |before|;
    assert a[n + k] == x[k] && b[n + k] == y[k];
    assert a[..n + k] == before + x[..k] && b[..n + k] == before + y[..k];
    assert a[n + k + 1..] == x[k + 1..] + after && b[n + k + 1..] == y[k + 1..] + after;
  }

  /** Two rows with one field apart, by one byte of it. */
  predicate RowOff(a: Doc, b: Doc) {
    || (NumberOff(a.index, b.index, 4) && a.hash == b.hash && a.questionHash == b.questionHash)
    || (a.index == b.index && NumberOff(a.hash, b.hash, 8) && a.questionHash == b.questionHash)
    || (a.index == b.index && a.hash == b.hash && NumberOff(a.questionHash, b.questionHash, 8))
  }

  /** Such rows have different digests. */
  lemma {:induction false} RowTold(digest: u64, a: Doc, b: Doc)
    requires RowOff(a, b)
    ensures DigestFold(digest, a.index, a.hash, a.questionHash) != DigestFold(digest, b.index, b.hash, b.questionHash)
  {
    hide FnvFold, LittleEndian, OneByteOff;
    var i, h, q := LittleEndian(a.index, 4), LittleEndian(a.hash, 8), LittleEndian(a.questionHash, 8);
    var j, g, r := LittleEndian(b.index, 4), LittleEndian(b.hash, 8), LittleEndian(b.questionHash, 8);
    assert i + h + q == [] + (i + (h + q)) == i + (h + q) == (i + h) + (q + []);
    assert j + g + r == [] + (j + (g + r)) == j + (g + r) == (j + g) + (r + []);
    if NumberOff(a.index, b.index, 4) {
      OffInside([], i, j, h + q);
    } else if NumberOff(a.hash, b.hash, 8) {
      OffInside(i, h, g, q);
    } else {
      OffInside(i + h, q, r, []);
    }
    OneByteTold(digest, i + h + q, j + g + r);
  }

  lemma {:induction false} DocsTellStart(d: u64, e: u64, docs: seq<Doc>)
    ensures DigestDocs(d, docs) == DigestDocs(e, docs) <==> d == e
    decreases |docs|
  {
    if docs != [] {
      hide FnvFold, LittleEndian;
      var f := docs[0];
      FoldTellsStart(d, e, LittleEndian(f.index, 4) + LittleEndian(f.hash, 8) + LittleEndian(f.questionHash, 8));
      DocsTellStart(DigestFold(d, f.index, f.hash, f.questionHash), DigestFold(e, f.index, f.hash, f.questionHash), docs[1..]);
    }
  }

  /** Runs of rows that differ in one row by one byte, wherever it stands. */
  lemma {:induction false} DocsTold(digest: u64, a: seq<Doc>, b: seq<Doc>, k: nat)
    requires |a| == |b| && k < |a| && RowOff(a[k], b[k])
    requires forall i | 0 <= i < |a| && i != k :: a[i] == b[i]
    ensures DigestDocs(digest, a) != DigestDocs(digest, b)
    decreases k
  {
    hide DigestFold, RowOff;
    if k == 0 {
      assert a[1..] == b[1..];
      RowTold(digest, a[0], b[0]);
      DocsTellStart(DigestFold(digest, a[0].index, a[0].hash, a[0].questionHash),
                    DigestFold(digest, b[0].index, b[0].hash, b[0].questionHash), a[1..]);
    } else {
      assert a[0] == b[0];
      DocsTold(DigestFold(digest, a[0].index, a[0].hash, a[0].questionHash), a[1..], b[1..], k - 1);
    }
  }

  /** A change of one byte in the index, the hash or the question fold of any one
      paragraph shows in the record's digest. */
  lemma {:induction false} RecordTold(a: PassageRecord, b: PassageRecord, k: nat)
    requires |a.paragraphs| == |b.paragraphs| && k < |a.paragraphs| && RowOff(DocOf(a, k), DocOf(b, k))
    requires forall i | 0 <= i < |a.paragraphs| && i != k :: DocOf(a, i) == DocOf(b, i)
    ensures DigestOf(a) != DigestOf(b)
  {
    hide DocOf, RowOff, DigestDocs;
    DocsTold(FNV1A_OFFSET, Docs(a), Docs(b), k);
  }

  // ------------------------------------------------------------- what questions tell

  /** The bytes the question fold runs over. */
  function QuestionStream(qs: seq<Question>): seq<byte> {
    if qs == [] then [] else qs[0].text + [0xff] + QuestionStream(qs[1..])
  }

  lemma {:induction false} FoldOfStream(digest: u64, qs: seq<Question>)
    ensures FoldQuestions(digest, qs) == FnvFold(digest, QuestionStream(qs))
    decreases |qs|
  {
    hide FnvFold;
    if qs == [] {
      FoldNone(digest);
    } else {
      FoldAppend(digest, qs[0].text + [0xff], QuestionStream(qs[1..]));
      FoldOfStream(FnvFold(digest, qs[0].text + [0xff]), qs[1..]);
    }
  }

  /** The separator keeps adjacent questions from blending: texts, which never hold
      its byte, are read off the stream again. */
  lemma {:induction false} StreamTells(a: seq<Question>, b: seq<Question>)
    requires (forall q | q in a :: 0xff !in q.text) && (forall q | q in b :: 0xff !in q.text)
    requires QuestionStream(a) == QuestionStream(b)
    ensures |a| == |b| && forall i | 0 <= i < |a| :: a[i].text == b[i].text
    decreases |a|
  {
    if a != [] && b != [] {
      HeadTells(a[0].text, QuestionStream(a[1..]), b[0].text, QuestionStream(b[1..]));
      StreamTells(a[1..], b[1..]);
      assert a == [a[0]] + a[1..] && b == [b[0]] + b[1..];
    }
  }

  lemma {:induction false} HeadTells(x: seq<byte>, r: seq<byte>, y: seq<byte>, t: seq<byte>)
    requires 0xff !in x && 0xff !in y && x + [0xff] + r == y + [0xff] + t
    ensures x == y && r == t
  {
    var s := x + [0xff] + r;
    assert s[..|x|] == x && s[|x|] == 0xff && s[|x| + 1..] == r;
    assert s[..|y|] == y && s[|y|] == 0xff && s[|y| + 1..] == t;
    assert forall k | 0 <= k < |x| :: s[k] == x[k] && x[k] in x;
    assert forall k | 0 <= k < |y| :: s[k] == y[k] && y[k] in y;
  }

  /** Question lists that differ in one byte of one text fold differently. */
  lemma {:induction false} QuestionsTold(digest: u64, a: seq<Question>, b: seq<Question>, k: nat)
    requires |a| == |b| && k < |a| && OneByteOff(a[k].text, b[k].text)
    requires forall i | 0 <= i < |a| && i != k :: a[i].text == b[i].text
    ensures FoldQuestions(digest, a) != FoldQuestions(digest, b)
  {
    hide FnvFold, OneByteOff;
    StreamOff(a, b, k);
    FoldOfStream(digest, a);
    FoldOfStream(digest, b);
    OneByteTold(digest, QuestionStream(a), QuestionStream(b));
  }

  lemma {:induction false} StreamOff(a: seq<Question>, b: seq<Question>, k: nat)
    requires |a| == |b| && k < |a| && OneByteOff(a[k].text, b[k].text)
    requires forall i | 0 <= i < |a| && i != k :: a[i].text == b[i].text
    ensures OneByteOff(QuestionStream(a), QuestionStream(b))
    decreases k
  {
    hide OneByteOff;
    if k == 0 {
      SameStream(a[1..], b[1..]);
      var rest := [0xff] + QuestionStream(a[1..]);
      OffInside([], a[0].text, b[0].text, rest);
      assert QuestionStream(a) == [] + (a[0].text + rest) && QuestionStream(b) == [] + (b[0].text + rest);
    } else {
      StreamOff(a[1..], b[1..], k - 1);
      var first, x, y := a[0].text + [0xff], QuestionStream(a[1..]), QuestionStream(b[1..]);
      OffInside(first, x, y, []);
      assert QuestionStream(a) == first + (x + []) && QuestionStream(b) == first + (y + []);
    }
  }

  lemma {:induction false} SameStream(a: seq<Question>, b: seq<Question>)
    requires |a| == |b| && forall i | 0 <= i < |a| :: a[i].text == b[i].text
    ensures QuestionStream(a) == QuestionStream(b)
  {
    if a != [] { SameStream(a[1..], b[1..]); }
  }
}
