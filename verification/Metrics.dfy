/** Rolling an extraction's records up into buckets: one per segment, merged into
    its context, its groups and the run (`scripts/extract_metrics.py`). */
module Metrics {
  import opened Common
  import opened Graph
  import opened Orders

  type AttemptId = (string, int)

  datatype TraceRecord =
    | Item(item: string, name: string, subject: Name, obj: Name)
    | Loss(item: string, reason: string)
    | Paragraph(bytes: nat, covered: bool)
    | Chunk(bytes: nat)
    | Steering(vocabulary: nat)
    | OtherTrace

  /** `replayed` says the record names the earlier attempt it restates. */
  datatype AttemptRecord =
    | Move(move: string)
    | Attempt(id: AttemptId, replayed: bool, state: string, retries: nat, seconds: real, input: nat, output: nat,
              corrects: Option<AttemptId>, issues: nat, removed: nat)
    | OtherRecord

  datatype Segment = Segment(source: string, outDir: string, failed: bool, trace: seq<TraceRecord>, attempts: seq<AttemptRecord>)

  /** The keys of a bucket's counters, each told apart by its counter. */
  datatype Key =
    | Kept(item: string)
    | Lost(item: string, reason: string)
    | ParagraphKey(key: string)
    | CorrectionKey(key: string)
    | AttemptKey(key: string)
    | MoveKey(key: string)
    | LabelKey(name: string)

  /** Seconds of model time and tokens in and out. */
  datatype Cost = Cost(seconds: real, input: nat, output: nat)

  const FREE := Cost(0.0, 0, 0)

  function Sum(a: Cost, b: Cost): Cost {
    Cost(a.seconds + b.seconds, a.input + b.input, a.output + b.output)
  }

  lemma {:induction false} SumFree(a: Cost)
    ensures Sum(a, FREE) == a && Sum(FREE, a) == a
  {
  }

  /** What a bucket holds; `lost` is the part of `spent` whose attempts failed. */
  datatype Metrics = Metrics(segments: nat, failed: nat, counts: multiset<Key>, offeredLabels: nat, edges: seq<Edge>,
                             spent: Cost, lost: Cost, chunkBytes: nat)

  const BLANK := Metrics(0, 0, multiset{}, 0, [], FREE, FREE, 0)

  /** One key counted `n` times. */
  function Times(key: Key, n: nat): multiset<Key> {
    multiset{}[key := n]
  }

  lemma {:induction false} CountedTimes(counts: multiset<Key>, key: Key, n: nat)
    ensures counts[key := counts[key] + n] == counts + Times(key, n)
  {
  }

  lemma {:induction false} Regroup3(a: multiset<Key>, b: multiset<Key>, c: multiset<Key>)
    ensures (a + b) + c == a + (b + c)
  {
  }

  // --------------------------------------------------------------- specification

  function Merged(a: Metrics, b: Metrics): Metrics {
    Metrics(a.segments + b.segments, a.failed + b.failed, a.counts + b.counts, Max(a.offeredLabels, b.offeredLabels),
            a.edges + b.edges, Sum(a.spent, b.spent), Sum(a.lost, b.lost), a.chunkBytes + b.chunkBytes)
  }

  function ParagraphWorth(bytes: nat, covered: bool): multiset<Key> {
    var base := Times(ParagraphKey("total"), 1) + Times(ParagraphKey("bytes"), bytes);
    if covered then base + (Times(ParagraphKey("covered"), 1) + Times(ParagraphKey("covered_bytes"), bytes)) else base
  }

  /** What one trace record is worth. */
  function TraceWorth(r: TraceRecord): Metrics {
    match r
    case Item(item, name, subject, obj) =>
      if item == "association" then
        BLANK.(counts := Times(Kept(item), 1) + Times(LabelKey(name), 1), edges := [(subject, obj)])
      else BLANK.(counts := Times(Kept(item), 1))
    case Loss(item, reason) => BLANK.(counts := Times(Lost(item, reason), 1))
    case Paragraph(bytes, covered) => BLANK.(counts := ParagraphWorth(bytes, covered))
    case Chunk(bytes) => BLANK.(chunkBytes := bytes)
    case Steering(vocabulary) => BLANK.(offeredLabels := vocabulary)
    case OtherTrace => BLANK
  }

  /** The issues of the attempt each id names, the last record of it. */
  function IssuesById(attempts: seq<AttemptRecord>): map<AttemptId, nat> {
    if attempts == [] then map[]
    else
      var last := attempts[|attempts| - 1];
      var before := IssuesById(attempts[..|attempts| - 1]);
      if last.Attempt? then before[last.id := last.issues] else before
  }

  /** How many issues a correction answers: one when its target is unknown or
      lists none. */
  function Flagged(issues: map<AttemptId, nat>, target: AttemptId): nat {
    if target in issues && issues[target] > 0 then issues[target] else 1
  }

  function CorrectionWorth(r: AttemptRecord, issues: map<AttemptId, nat>): multiset<Key>
    requires r.Attempt?
  {
    match r.corrects
    case None => multiset{}
    case Some(target) =>
      Times(CorrectionKey("total"), 1) + Times(CorrectionKey("flagged"), Flagged(issues, target))
      + if r.state == "stop_valid" then Times(CorrectionKey("resolved"), 1) + Times(CorrectionKey("removed_instead"), r.removed)
        else Times(CorrectionKey("unresolved"), 1)
  }

  function CallWorth(state: string, retries: nat): multiset<Key> {
    Times(AttemptKey("total"), 1) + Times(AttemptKey(state), 1) + Times(AttemptKey("transport_retries"), retries)
  }

  /** What one record of the attempts log is worth: nothing when it is replayed. */
  function AttemptWorth(r: AttemptRecord, issues: map<AttemptId, nat>): Metrics {
    match r
    case OtherRecord => BLANK
    case Move(move) => BLANK.(counts := Times(MoveKey(move), 1))
    case Attempt(_, replayed, state, retries, seconds, input, output, _, _, _) =>
      if replayed then BLANK
      else
        var counts := CallWorth(state, retries) + CorrectionWorth(r, issues);
        var cost := Cost(seconds, input, output);
        BLANK.(counts := counts, spent := cost, lost := if state == "stop_valid" then FREE else cost)
  }

  function TraceTotal(trace: seq<TraceRecord>): Metrics {
    if trace == [] then BLANK else Merged(TraceTotal(trace[..|trace| - 1]), TraceWorth(trace[|trace| - 1]))
  }

  function AttemptsTotal(attempts: seq<AttemptRecord>, issues: map<AttemptId, nat>): Metrics {
    if attempts == [] then BLANK
    else Merged(AttemptsTotal(attempts[..|attempts| - 1], issues), AttemptWorth(attempts[|attempts| - 1], issues))
  }

  /** The bucket of one segment. */
  function SegmentMetrics(s: Segment): Metrics {
    var landed := if s.failed then BLANK.(failed := 1) else BLANK.(segments := 1);
    Merged(Merged(landed, TraceTotal(s.trace)), AttemptsTotal(s.attempts, IssuesById(s.attempts)))
  }

  lemma {:induction false} MergedIsAssociative(a: Metrics, b: Metrics, c: Metrics)
    ensures Merged(Merged(a, b), c) == Merged(a, Merged(b, c))
    ensures Merged(a, BLANK) == a && Merged(BLANK, a) == a
  {
    assert (a.edges + b.edges) + c.edges == a.edges + (b.edges + c.edges);
    assert a.edges + [] == a.edges && [] + a.edges == a.edges;
  }

  /** Merging what touches only some parts. */
  lemma {:induction false} MergedParts(m: Metrics, counts: multiset<Key>, edges: seq<Edge>, spent: Cost, lost: Cost)
    ensures Merged(m, BLANK.(counts := counts, edges := edges, spent := spent, lost := lost))
         == m.(counts := m.counts + counts, edges := m.edges + edges, spent := Sum(m.spent, spent), lost := Sum(m.lost, lost))
  {
  }

  lemma {:induction false} MergedCounts(m: Metrics, counts: multiset<Key>, edges: seq<Edge>)
    ensures Merged(m, BLANK.(counts := counts, edges := edges)) == m.(counts := m.counts + counts, edges := m.edges + edges)
    ensures Merged(m, BLANK.(counts := counts)) == m.(counts := m.counts + counts)
  {
    assert m.edges + [] == m.edges;
  }

  lemma {:induction false} MergedSize(m: Metrics, n: nat)
    ensures Merged(m, BLANK.(chunkBytes := n)) == m.(chunkBytes := m.chunkBytes + n)
    ensures Merged(m, BLANK.(offeredLabels := n)) == m.(offeredLabels := Max(m.offeredLabels, n))
    ensures Merged(m, BLANK) == m
  {
    assert m.edges + [] == m.edges;
  }

  // --------------------------------------------------------------------- buckets

  class Bucket {
    var segments: nat
    var failed: nat
    var counts: multiset<Key>
    var offeredLabels: nat
    var edges: seq<Edge>
    var spent: Cost
    var lost: Cost
    var chunkBytes: nat

    ghost function Contents(): Metrics
      reads this
    {
      Metrics(segments, failed, counts, offeredLabels, edges, spent, lost, chunkBytes)
    }

    constructor ()
      ensures Contents() == BLANK
    {
      segments, failed, counts, offeredLabels, edges := 0, 0, multiset{}, 0, [];
      spent, lost, chunkBytes := FREE, FREE, 0;
    }

    method Count(key: Key, n: nat)
      modifies this`counts
      ensures counts == old(counts) + Times(key, n)
    {
      CountedTimes(counts, key, n);
      counts := counts[key := counts[key] + n];
    }

    method CountParagraph(bytes: nat, covered: bool)
      modifies this`counts
      ensures counts == old(counts) + ParagraphWorth(bytes, covered)
    {
      hide Times;
      Count(ParagraphKey("total"), 1);
      Count(ParagraphKey("bytes"), bytes);
      Regroup3(old(counts), Times(ParagraphKey("total"), 1), Times(ParagraphKey("bytes"), bytes));
      if covered {
        ghost var half := counts;
        Count(ParagraphKey("covered"), 1);
        Count(ParagraphKey("covered_bytes"), bytes);
        Regroup3(half, Times(ParagraphKey("covered"), 1), Times(ParagraphKey("covered_bytes"), bytes));
        Regroup3(old(counts), Times(ParagraphKey("total"), 1) + Times(ParagraphKey("bytes"), bytes),
                 Times(ParagraphKey("covered"), 1) + Times(ParagraphKey("covered_bytes"), bytes));
      }
    }

    method AbsorbTrace(r: TraceRecord)
      modifies this
      ensures Contents() == Merged(old(Contents()), TraceWorth(r))
    {
      hide Times, ParagraphWorth, Sum, Merged, Max;
      ghost var m := Contents();
      match r {
        case Item(item, name, subject, obj) =>
          Count(Kept(item), 1);
          if item == "association" {
            Count(LabelKey(name), 1);
            Regroup3(m.counts, Times(Kept(item), 1), Times(LabelKey(name), 1));
            edges := edges + [(subject, obj)];
          }
          MergedCounts(m, TraceWorth(r).counts, TraceWorth(r).edges);
        case Loss(item, reason) =>
          Count(Lost(item, reason), 1);
          MergedCounts(m, TraceWorth(r).counts, []);
        case Paragraph(bytes, covered) =>
          CountParagraph(bytes, covered);
          MergedCounts(m, TraceWorth(r).counts, []);
        case Chunk(bytes) =>
          chunkBytes := chunkBytes + bytes;
          MergedSize(m, bytes);
        case Steering(vocabulary) =>
          offeredLabels := Max(offeredLabels, vocabulary);
          MergedSize(m, vocabulary);
        case OtherTrace =>
          MergedSize(m, 0);
      }
    }

    method CountCorrection(r: AttemptRecord, issues: map<AttemptId, nat>)
      requires r.Attempt?
      modifies this`counts
      ensures counts == old(counts) + CorrectionWorth(r, issues)
    {
      hide Times;
      if r.corrects.Some? {
        Count(CorrectionKey("total"), 1);
        var flagged := 1;
        if r.corrects.value in issues && issues[r.corrects.value] > 0 {
          flagged := issues[r.corrects.value];
        }
        Count(CorrectionKey("flagged"), flagged);
        ghost var half := counts;
        ghost var first := Times(CorrectionKey("total"), 1) + Times(CorrectionKey("flagged"), flagged);
        Regroup3(old(counts), Times(CorrectionKey("total"), 1), Times(CorrectionKey("flagged"), flagged));
        if r.state == "stop_valid" {
          Count(CorrectionKey("resolved"), 1);
          Count(CorrectionKey("removed_instead"), r.removed);
          ghost var second := Times(CorrectionKey("resolved"), 1) + Times(CorrectionKey("removed_instead"), r.removed);
          Regroup3(half, Times(CorrectionKey("resolved"), 1), Times(CorrectionKey("removed_instead"), r.removed));
          Regroup3(old(counts), first, second);
        } else {
          Count(CorrectionKey("unresolved"), 1);
          Regroup3(old(counts), first, Times(CorrectionKey("unresolved"), 1));
        }
      }
    }

    method CountCall(state: string, retries: nat)
      modifies this`counts
      ensures counts == old(counts) + CallWorth(state, retries)
    {
      hide Times;
      Count(AttemptKey("total"), 1);
      Count(AttemptKey(state), 1);
      Count(AttemptKey("transport_retries"), retries);
      Regroup3(old(counts), Times(AttemptKey("total"), 1), Times(AttemptKey(state), 1));
      Regroup3(old(counts), Times(AttemptKey("total"), 1) + Times(AttemptKey(state), 1), Times(AttemptKey("transport_retries"), retries));
    }

    method AbsorbAttempt(r: AttemptRecord, issues: map<AttemptId, nat>)
      modifies this
      ensures Contents() == Merged(old(Contents()), AttemptWorth(r, issues))
    {
      hide Times, CallWorth, CorrectionWorth, Sum, Merged;
      ghost var m := Contents();
      if r.Move? {
        Count(MoveKey(r.move), 1);
        MergedCounts(m, Times(MoveKey(r.move), 1), []);
      } else if r.Attempt? && !r.replayed {
        CountCall(r.state, r.retries);
        var cost := Cost(r.seconds, r.input, r.output);
        spent := Sum(spent, cost);
        SumFree(lost);
        if r.state != "stop_valid" {
          lost := Sum(lost, cost);
        }
        CountCorrection(r, issues);
        Regroup3(m.counts, CallWorth(r.state, r.retries), CorrectionWorth(r, issues));
        MergedParts(m, AttemptWorth(r, issues).counts, [], cost, AttemptWorth(r, issues).lost);
        assert m.edges + [] == m.edges;
      } else {
        MergedSize(m, 0);
      }
    }

    /** Adds a segment's trace and attempts log. */
    method AbsorbSegment(s: Segment)
      modifies this
      ensures Contents() == Merged(old(Contents()), SegmentMetrics(s))
    {
      hide TraceWorth, AttemptWorth, Merged, Times;
      ghost var start := old(Contents());
      ghost var landed := if s.failed then BLANK.(failed := 1) else BLANK.(segments := 1);
      if s.failed {
        failed := failed + 1;
      } else {
        segments := segments + 1;
      }
      assert Contents() == Merged(start, landed) by { Landed(start, s.failed); }
      ghost var counted := Contents();
      MergedIsAssociative(counted, BLANK, BLANK);
      for i := 0 to |s.trace|
        invariant Contents() == Merged(counted, TraceTotal(s.trace[..i]))
      {
        AbsorbTrace(s.trace[i]);
        assert s.trace[..i + 1][..i] == s.trace[..i];
        MergedIsAssociative(counted, TraceTotal(s.trace[..i]), TraceWorth(s.trace[i]));
      }
      assert s.trace[..|s.trace|] == s.trace;
      var issues := map[];
      for i := 0 to |s.attempts|
        invariant issues == IssuesById(s.attempts[..i])
        invariant Contents() == Merged(counted, TraceTotal(s.trace))
      {
        assert s.attempts[..i + 1][..i] == s.attempts[..i];
        if s.attempts[i].Attempt? {
          issues := issues[s.attempts[i].id := s.attempts[i].issues];
        }
      }
      assert s.attempts[..|s.attempts|] == s.attempts;
      ghost var traced := Contents();
      MergedIsAssociative(traced, BLANK, BLANK);
      for i := 0 to |s.attempts|
        invariant Contents() == Merged(traced, AttemptsTotal(s.attempts[..i], issues))
      {
        AbsorbAttempt(s.attempts[i], issues);
        assert s.attempts[..i + 1][..i] == s.attempts[..i];
        MergedIsAssociative(traced, AttemptsTotal(s.attempts[..i], issues), AttemptWorth(s.attempts[i], issues));
      }
      MergedIsAssociative(start, landed, TraceTotal(s.trace));
      MergedIsAssociative(start, Merged(landed, TraceTotal(s.trace)), AttemptsTotal(s.attempts, issues));
    }

    method MergeCounters(other: Bucket)
      requires other != this
      modifies this`counts, this`edges, this`offeredLabels
      ensures counts == old(counts) + other.counts
      ensures edges == old(edges) + other.edges
      ensures offeredLabels == Max(old(offeredLabels), other.offeredLabels)
    {
      counts := counts + other.counts;
      edges := edges + other.edges;
      offeredLabels := Max(offeredLabels, other.offeredLabels);
    }

    method MergeSums(other: Bucket)
      requires other != this
      modifies this`segments, this`failed, this`spent, this`lost, this`chunkBytes
      ensures segments == old(segments) + other.segments && failed == old(failed) + other.failed
      ensures spent == Sum(old(spent), other.spent) && lost == Sum(old(lost), other.lost)
      ensures chunkBytes == old(chunkBytes) + other.chunkBytes
    {
      segments := segments + other.segments;
      failed := failed + other.failed;
      spent := Sum(spent, other.spent);
      lost := Sum(lost, other.lost);
      chunkBytes := chunkBytes + other.chunkBytes;
    }

    /** Adds another bucket: counters and sums are added, lists appended, and the
        largest vocabulary kept. */
    method MergeInto(other: Bucket)
      requires other != this
      modifies this
      ensures Contents() == Merged(old(Contents()), other.Contents())
    {
      hide Sum, Max;
      MergeCounters(other);
      MergeSums(other);
    }
  }

  lemma {:induction false} Landed(m: Metrics, failed: bool)
    ensures Merged(m, if failed then BLANK.(failed := 1) else BLANK.(segments := 1))
      == if failed then m.(failed := m.failed + 1) else m.(segments := m.segments + 1)
  {
    assert m.edges + [] == m.edges;
  }

  // ---------------------------------------------------------------- what is counted

  /** The records' amounts added up. */
  function SumOver<T>(s: seq<T>, amount: T -> nat): nat {
    if s == [] then 0 else SumOver(s[..|s| - 1], amount) + amount(s[|s| - 1])
  }

  function SecondsOver(attempts: seq<AttemptRecord>, counts: AttemptRecord -> bool): real {
    if attempts == [] then 0.0
    else
      var r := attempts[|attempts| - 1];
      SecondsOver(attempts[..|attempts| - 1], counts) + if r.Attempt? && counts(r) then r.seconds else 0.0
  }

  /** A call to the model that was made, not restated. */
  predicate Live(r: AttemptRecord) { r.Attempt? && !r.replayed }

  /** A live call whose completion was not used. */
  predicate Wasted(r: AttemptRecord) { Live(r) && r.state != "stop_valid" }

  predicate Correction(r: AttemptRecord) { Live(r) && r.corrects.Some? }

  function InputOf(r: AttemptRecord): nat { if Live(r) then r.input else 0 }

  function OutputOf(r: AttemptRecord): nat { if Live(r) then r.output else 0 }

  function LostInputOf(r: AttemptRecord): nat { if Wasted(r) then r.input else 0 }

  function LostOutputOf(r: AttemptRecord): nat { if Wasted(r) then r.output else 0 }

  /** Time and tokens are the live attempts' own, the lost part that of those whose
      completion was not used. */
  lemma {:induction false} AttemptsCost(attempts: seq<AttemptRecord>, issues: map<AttemptId, nat>)
    ensures var m := AttemptsTotal(attempts, issues);
      && m.spent == Cost(SecondsOver(attempts, Live), SumOver(attempts, InputOf), SumOver(attempts, OutputOf))
      && m.lost == Cost(SecondsOver(attempts, Wasted), SumOver(attempts, LostInputOf), SumOver(attempts, LostOutputOf))
  {
    hide AttemptWorth;
    if attempts != [] {
      AttemptsCost(attempts[..|attempts| - 1], issues);
      OneCost(attempts[|attempts| - 1], issues);
    }
  }

  lemma OneCost(r: AttemptRecord, issues: map<AttemptId, nat>)
    ensures var m := AttemptWorth(r, issues);
      && m.spent == Cost(if Live(r) then r.seconds else 0.0, InputOf(r), OutputOf(r))
      && m.lost == Cost(if Wasted(r) then r.seconds else 0.0, LostInputOf(r), LostOutputOf(r))
  {
    hide CallWorth, CorrectionWorth;
  }

  function One(b: bool): nat { if b then 1 else 0 }

  /** How often a record of the attempts log is counted under a key. */
  function AttemptCount(r: AttemptRecord, issues: map<AttemptId, nat>, k: Key): nat {
    match k
    case MoveKey(move) => One(r == Move(move))
    case AttemptKey(key) =>
      if !Live(r) then 0
      else One(key == "total") + One(key == r.state) + if key == "transport_retries" then r.retries else 0
    case CorrectionKey(key) =>
      if !Correction(r) then 0
      else if key == "total" then 1
      else if key == "flagged" then Flagged(issues, r.corrects.value)
      else if key == "resolved" then One(r.state == "stop_valid")
      else if key == "unresolved" then One(r.state != "stop_valid")
      else if key == "removed_instead" && r.state == "stop_valid" then r.removed
      else 0
    case _ => 0
  }

  /** Every counter of the attempts log, under every key there is. */
  lemma {:induction false} AttemptsCounted(attempts: seq<AttemptRecord>, issues: map<AttemptId, nat>, k: Key)
    ensures AttemptsTotal(attempts, issues).counts[k] == SumOver(attempts, r => AttemptCount(r, issues, k))
  {
    hide AttemptWorth, AttemptCount;
    if attempts != [] {
      var n := |attempts| - 1;
      AttemptsCounted(attempts[..n], issues, k);
      OneCounted(attempts[n], issues, k);
    }
  }

  lemma OneCounted(r: AttemptRecord, issues: map<AttemptId, nat>, k: Key)
    ensures AttemptWorth(r, issues).counts[k] == AttemptCount(r, issues, k)
  {
    hide Flagged, Times, CallWorth, CorrectionWorth;
    match r
    case OtherRecord =>
    case Move(move) => TimesAt(MoveKey(move), 1, k);
    case Attempt(_, _, state, retries, _, _, _, _, _, _) =>
      if !r.replayed {
        CallCounted(state, retries, k);
        CorrectionCounted(r, issues, k);
      }
  }

  lemma TimesAt(key: Key, n: nat, k: Key)
    ensures Times(key, n)[k] == if k == key then n else 0
  {
  }

  lemma CallCounted(state: string, retries: nat, k: Key)
    ensures CallWorth(state, retries)[k] ==
      if k.AttemptKey? then One(k.key == "total") + One(k.key == state) + (if k.key == "transport_retries" then retries else 0) else 0
  {
    hide Times;
    TimesAt(AttemptKey("total"), 1, k);
    TimesAt(AttemptKey(state), 1, k);
    TimesAt(AttemptKey("transport_retries"), retries, k);
  }

  lemma CorrectionCounted(r: AttemptRecord, issues: map<AttemptId, nat>, k: Key)
    requires Live(r)
    ensures CorrectionWorth(r, issues)[k] == if k.CorrectionKey? then AttemptCount(r, issues, k) else 0
  {
    hide Times, Flagged;
    if r.corrects.Some? {
      TimesAt(CorrectionKey("total"), 1, k);
      TimesAt(CorrectionKey("flagged"), Flagged(issues, r.corrects.value), k);
      TimesAt(CorrectionKey("resolved"), 1, k);
      TimesAt(CorrectionKey("removed_instead"), r.removed, k);
      TimesAt(CorrectionKey("unresolved"), 1, k);
    }
  }

  /** What a correction is held to answer: the issues of the last record of the attempt
      it names, at least one. */
  lemma {:induction false} IssuesAreLast(attempts: seq<AttemptRecord>, k: nat)
    requires k < |attempts| && attempts[k].Attempt?
    requires forall j | k < j < |attempts| && attempts[j].Attempt? :: attempts[j].id != attempts[k].id
    ensures var id := attempts[k].id;
      id in IssuesById(attempts) && Flagged(IssuesById(attempts), id) == Max(attempts[k].issues, 1)
  {
    var n := |attempts| - 1;
    if k < n { IssuesAreLast(attempts[..n], k); }
  }

  /** And one when the log has no record of it. */
  lemma {:induction false} IssuesUnknown(attempts: seq<AttemptRecord>, id: AttemptId)
    requires forall k | 0 <= k < |attempts| && attempts[k].Attempt? :: attempts[k].id != id
    ensures id !in IssuesById(attempts) && Flagged(IssuesById(attempts), id) == 1
  {
    if attempts != [] { IssuesUnknown(attempts[..|attempts| - 1], id); }
  }

  /** How often a trace record is counted under a key. */
  function TraceCount(r: TraceRecord, k: Key): nat {
    match k
    case Kept(item) => One(r.Item? && r.item == item)
    case LabelKey(name) => One(r.Item? && r.item == "association" && r.name == name)
    case Lost(item, reason) => One(r == Loss(item, reason))
    case ParagraphKey(key) =>
      if !r.Paragraph? then 0
      else if key == "total" then 1
      else if key == "bytes" then r.bytes
      else if key == "covered" then One(r.covered)
      else if key == "covered_bytes" && r.covered then r.bytes
      else 0
    case _ => 0
  }

  function ChunkBytes(r: TraceRecord): nat { if r.Chunk? then r.bytes else 0 }

  /** The edges of the associations, in their order. */
  function AssociationEdges(trace: seq<TraceRecord>): seq<Edge> {
    if trace == [] then []
    else
      var r := trace[|trace| - 1];
      AssociationEdges(trace[..|trace| - 1]) + if r.Item? && r.item == "association" then [(r.subject, r.obj)] else []
  }

  lemma {:induction false} TraceCounted(trace: seq<TraceRecord>, k: Key)
    ensures TraceTotal(trace).counts[k] == SumOver(trace, r => TraceCount(r, k))
  {
    hide TraceWorth, TraceCount;
    if trace != [] {
      var n := |trace| - 1;
      TraceCounted(trace[..n], k);
      OneTraced(trace[n], k);
    }
  }

  lemma OneTraced(r: TraceRecord, k: Key)
    ensures TraceWorth(r).counts[k] == TraceCount(r, k)
  {
    hide Times;
    match r
    case Item(item, name, _, _) =>
      TimesAt(Kept(item), 1, k);
      TimesAt(LabelKey(name), 1, k);
    case Loss(item, reason) => TimesAt(Lost(item, reason), 1, k);
    case Paragraph(bytes, covered) =>
      TimesAt(ParagraphKey("total"), 1, k);
      TimesAt(ParagraphKey("bytes"), bytes, k);
      TimesAt(ParagraphKey("covered"), 1, k);
      TimesAt(ParagraphKey("covered_bytes"), bytes, k);
    case _ =>
  }

  /** The chunk bytes are added up, and the edges are those of the associations. */
  lemma {:induction false} TraceGathered(trace: seq<TraceRecord>)
    ensures TraceTotal(trace).chunkBytes == SumOver(trace, ChunkBytes) && TraceTotal(trace).edges == AssociationEdges(trace)
  {
    hide TraceWorth;
    if trace != [] {
      TraceGathered(trace[..|trace| - 1]);
      OneGathered(trace[|trace| - 1]);
    }
  }

  lemma OneGathered(r: TraceRecord)
    ensures TraceWorth(r).chunkBytes == ChunkBytes(r)
    ensures TraceWorth(r).edges == if r.Item? && r.item == "association" then [(r.subject, r.obj)] else []
    ensures TraceWorth(r).offeredLabels == if r.Steering? then r.vocabulary else 0
  {
    hide Times, ParagraphWorth;
  }

  /** The vocabulary offered is the largest one. */
  lemma {:induction false} LargestOffered(trace: seq<TraceRecord>)
    ensures forall k | 0 <= k < |trace| && trace[k].Steering? :: trace[k].vocabulary <= TraceTotal(trace).offeredLabels
    ensures TraceTotal(trace).offeredLabels == 0
         || exists k | 0 <= k < |trace| :: trace[k] == Steering(TraceTotal(trace).offeredLabels)
  {
    hide TraceWorth;
    if trace != [] {
      var n := |trace| - 1;
      LargestOffered(trace[..n]);
      OneGathered(trace[n]);
    }
  }
}
