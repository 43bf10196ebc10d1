/** Recording one benchmark cell (`run_cell` in `src/benchmark.rs`): what a child
    reports is transcribed into the cell's runs file, over as many sessions as it
    takes to conclude. */
module Recorder {
  import opened Common
  import opened Orders
  import opened Tail

  datatype ChunkInfo = ChunkInfo(sha256: Bytes, paragraphFirst: nat, paragraphLast: nat)

  datatype SegmentInfo = SegmentInfo(id: Bytes, sha256: Bytes, chunkTotal: nat, chunks: seq<ChunkInfo>)

  /** A parsed diagnostics line; malformed when it is no object or lacks a type or
      a source. */
  datatype Line = Malformed | Line(kind: string, source: Bytes, chunkIndex: Option<nat>, body: Bytes)

  datatype Record =
    | Header
    | Start(id: Bytes, source: Bytes, info: SegmentInfo)
    | Chunk(id: Bytes, body: Bytes)
    | Attempt(id: Bytes, sha256: Bytes, chunk: Option<ChunkInfo>, body: Bytes)
    | End(id: Bytes, source: Bytes, written: bool, body: Bytes)
    | Cell(outcome: string, segmentsWritten: nat, attemptsTotal: nat)

  /** The corpus: each source's segment, and the sources in the order of a sorted
      map. Segment ids are unique. */
  datatype Dictionary = Dictionary(segments: map<Bytes, SegmentInfo>, sources: seq<Bytes>)

  ghost predicate Proper(d: Dictionary) {
    && Elements(d.sources) == d.segments.Keys && NoDuplicates(d.sources)
    && forall a, b | a in d.segments && b in d.segments && a != b :: d.segments[a].id != d.segments[b].id
  }

  // --------------------------------------------------------------- specification

  function Started(d: Dictionary, open: set<Bytes>, source: Bytes): seq<Record>
    requires source in d.segments
  {
    var info := d.segments[source];
    if info.id in open then [] else [Start(info.id, source, info)]
  }

  function ChunkOf(info: SegmentInfo, index: Option<nat>): Option<ChunkInfo> {
    var i := if index.Some? then index.value else 0;
    if i < |info.chunks| then Some(info.chunks[i]) else None
  }

  function Own(d: Dictionary, line: Line): seq<Record>
    requires line.Line? && line.source in d.segments
  {
    var info := d.segments[line.source];
    if line.kind == "chunk" then [Chunk(info.id, line.body)]
    else if line.kind == "attempt" then [Attempt(info.id, info.sha256, ChunkOf(info, line.chunkIndex), line.body)]
    else if line.kind == "segment" then [End(info.id, line.source, true, line.body)]
    else []
  }

  predicate Known(d: Dictionary, line: Line) {
    line.Line? && line.source in d.segments
  }

  /** What one line adds to the file. */
  function LineRecords(d: Dictionary, open: set<Bytes>, line: Line): seq<Record> {
    if Known(d, line) then Started(d, open, line.source) + Own(d, line) else []
  }

  /** The segments left open after a list of records. */
  function OpenAfter(records: seq<Record>): set<Bytes> {
    if records == [] then {}
    else
      var before := OpenAfter(records[..|records| - 1]);
      match records[|records| - 1]
      case Start(id, _, _) => before + {id}
      case End(id, _, _, _) => before - {id}
      case _ => before
  }

  /** What a session's lines add to the file, all segments being closed before. */
  function Transcript(d: Dictionary, lines: seq<Line>): seq<Record> {
    if lines == [] then []
    else
      var before := Transcript(d, lines[..|lines| - 1]);
      before + LineRecords(d, OpenAfter(before), lines[|lines| - 1])
  }

  /** A failed end for every segment left open, in the order of the sources. */
  function FailedEnds(d: Dictionary, sources: seq<Bytes>, open: set<Bytes>): seq<Record>
    requires forall s | s in sources :: s in d.segments
  {
    if sources == [] then []
    else
      var last, init := sources[|sources| - 1], FailedEnds(d, sources[..|sources| - 1], open);
      if d.segments[last].id in open then init + [End(d.segments[last].id, last, false, [])] else init
  }

  function Attempts(records: seq<Record>): nat {
    if records == [] then 0
    else Attempts(records[..|records| - 1]) + if records[|records| - 1].Attempt? then 1 else 0
  }

  function Ends(records: seq<Record>, written: bool): nat {
    if records == [] then 0
    else
      var last := records[|records| - 1];
      Ends(records[..|records| - 1], written) + if last.End? && last.written == written then 1 else 0
  }

  /** What the child's exit code makes of the cell; the source refuses any other. */
  function OutcomeOf(code: Option<int>): Option<string> {
    if code == Some(0) then Some("complete")
    else if code == Some(1) || code == Some(2) then Some("failed")
    else if code == Some(130) || code == None then Some("interrupted")
    else None
  }

  predicate Concludes(code: Option<int>) {
    OutcomeOf(code).Some? && OutcomeOf(code) != Some("interrupted")
  }

  /** What concluding adds: a failed end for each segment left open, and the cell's
      totals. */
  ghost function Conclusion(d: Dictionary, transcript: seq<Record>, code: Option<int>, segments: nat, attempts: nat): seq<Record>
    requires Proper(d)
  {
    ProperSources(d);
    if Concludes(code) then
      FailedEnds(d, d.sources, OpenAfter(transcript)) + [Cell(OutcomeOf(code).value, segments, attempts)]
    else []
  }

  lemma {:induction false} ProperSources(d: Dictionary)
    requires Proper(d)
    ensures forall s | s in d.sources :: s in d.segments
  {
    forall s | s in d.sources ensures s in d.segments { assert s in Elements(d.sources); }
  }

  /** What a session adds to a file holding `prior`. */
  ghost function SessionRecords(d: Dictionary, prior: seq<Record>, lines: seq<Line>, code: Option<int>): seq<Record>
    requires Proper(d)
  {
    var transcript := Transcript(d, lines);
    transcript + Conclusion(d, transcript, code, Ends(prior + transcript, true) + Ends(prior, false), Attempts(prior + transcript))
  }

  // --------------------------------------------------------------------- counting

  lemma {:induction false} OneMore(records: seq<Record>, r: Record)
    ensures Attempts(records + [r]) == Attempts(records) + if r.Attempt? then 1 else 0
    ensures forall w :: Ends(records + [r], w) == Ends(records, w) + if r.End? && r.written == w then 1 else 0
    ensures OpenAfter(records + [r])
         == if r.Start? then OpenAfter(records) + {r.id} else if r.End? then OpenAfter(records) - {r.id} else OpenAfter(records)
  {
    assert (records + [r])[..|records|] == records;
  }

  lemma {:induction false} NoRecords()
    ensures Attempts([]) == 0 && OpenAfter([]) == {} && (forall w :: Ends([], w) == 0)
  {
  }

  lemma {:induction false} CountsAppend(a: seq<Record>, b: seq<Record>)
    ensures Attempts(a + b) == Attempts(a) + Attempts(b)
    ensures forall w :: Ends(a + b, w) == Ends(a, w) + Ends(b, w)
  {
    hide Attempts, Ends, OpenAfter;
    NoRecords();
    if b == [] {
      assert a + b == a;
    } else {
      var n := |b| - 1;
      CountsAppend(a, b[..n]);
      assert a + b == (a + b[..n]) + [b[n]] && b == b[..n] + [b[n]];
      OneMore(a + b[..n], b[n]);
      OneMore(b[..n], b[n]);
    }
  }

  lemma {:induction false} HeaderCounts()
    ensures Attempts([Header]) == 0 && Ends([Header], true) == 0 && Ends([Header], false) == 0
  {
    assert [] + [Header] == [Header];
    OneMore([], Header);
  }

  /** What the session has open after one more line. */
  function OpenNext(d: Dictionary, open: set<Bytes>, line: Line): set<Bytes> {
    if !Known(d, line) then open
    else
      var id := d.segments[line.source].id;
      if line.kind == "segment" then open - {id} else open + {id}
  }

  lemma {:induction false} LineEffect(d: Dictionary, file: seq<Record>, line: Line)
    ensures var more := LineRecords(d, OpenAfter(file), line);
      && OpenAfter(file + more) == OpenNext(d, OpenAfter(file), line)
  {
    hide Attempts, Ends, OpenAfter;
    if Known(d, line) {
      var info := d.segments[line.source];
      var started, own := Started(d, OpenAfter(file), line.source), Own(d, line);
      assert file + (started + own) == (file + started) + own;
      if started != [] { OneMore(file, started[0]); } else { assert file + started == file; }
      if own != [] { OneMore(file + started, own[0]); } else { assert file + started + own == file + started; }
      assert info.id in OpenAfter(file) ==> OpenAfter(file) + {info.id} == OpenAfter(file);
    } else {
      assert file + [] == file;
    }
  }

  lemma {:induction false} LineCounted(d: Dictionary, file: seq<Record>, open: set<Bytes>, line: Line)
    ensures var more := LineRecords(d, open, line);
      && Attempts(file + more) == Attempts(file) + (if Known(d, line) && line.kind == "attempt" then 1 else 0)
      && Ends(file + more, true) == Ends(file, true) + (if Known(d, line) && line.kind == "segment" then 1 else 0)
      && Ends(file + more, false) == Ends(file, false)
  {
    hide Attempts, Ends, OpenAfter;
    if Known(d, line) {
      var started, own := Started(d, open, line.source), Own(d, line);
      assert file + (started + own) == (file + started) + own;
      if started != [] { OneMore(file, started[0]); } else { assert file + started == file; }
      if own != [] { OneMore(file + started, own[0]); } else { assert file + started + own == file + started; }
    } else {
      assert file + [] == file;
    }
  }

  lemma {:induction false} LineTranscribed(d: Dictionary, lines: seq<Line>, line: Line)
    ensures var before := Transcript(d, lines);
      && Transcript(d, lines + [line]) == before + LineRecords(d, OpenAfter(before), line)
      && OpenAfter(Transcript(d, lines + [line])) == OpenNext(d, OpenAfter(before), line)
  {
    hide OpenAfter, LineRecords, OpenNext;
    assert (lines + [line])[..|lines|] == lines;
    LineEffect(d, Transcript(d, lines), line);
  }

  // ------------------------------------------------------------------ recording

  class CellRecorder {
    const dictionary: Dictionary
    var file: seq<Record>
    var open: set<Bytes>
    var attemptsTotal: nat
    var segmentsWritten: nat
    ghost var prior: seq<Record>
    ghost var lines: seq<Line>

    /** The file is what it held before and this session's transcript; the counts
        cover both, failed ends of earlier sessions included. */
    ghost predicate Valid()
      reads this
    {
      && Proper(dictionary)
      && file == prior + Transcript(dictionary, lines)
      && open == OpenAfter(Transcript(dictionary, lines))
      && attemptsTotal == Attempts(file)
      && segmentsWritten == Ends(file, true) + Ends(prior, false)
    }

    /** Opens the runs file, writing the header of a new one and counting what an
        existing one holds. */
    constructor (dictionary: Dictionary, existing: Option<seq<Record>>)
      requires Proper(dictionary)
      ensures Valid() && lines == [] && this.dictionary == dictionary
      ensures prior == if existing.Some? then existing.value else [Header]
    {
      this.dictionary := dictionary;
      file := if existing.Some? then existing.value else [Header];
      open, attemptsTotal, segmentsWritten := {}, 0, 0;
      prior, lines := if existing.Some? then existing.value else [Header], [];
      new;
      NoRecords();
      if existing.Some? {
        attemptsTotal, segmentsWritten := SeedCounts(existing.value);
      } else {
        HeaderCounts();
      }
      assert file == prior + [];
    }

    method Write(r: Record)
      modifies `file
      ensures file == old(file) + [r]
    {
      file := file + [r];
    }

    /** Transcribes one diagnostics line. */
    method Transcribe(line: Line)
      requires Valid()
      modifies this
      ensures Valid() && prior == old(prior) && lines == old(lines) + [line]
    {
      hide Transcript, OpenAfter, Attempts, Ends, Proper;
      ghost var before := Transcript(dictionary, lines);
      ghost var more := LineRecords(dictionary, open, line);
      LineTranscribed(dictionary, lines, line);
      LineCounted(dictionary, file, open, line);
      assert (prior + before) + more == prior + (before + more);
      if line.Line? && line.source in dictionary.segments {
        Record(line);
      }
      lines := lines + [line];
    }

    /** What a line of a known source writes and counts. */
    method Record(line: Line)
      requires Known(dictionary, line)
      modifies `file, `open, `attemptsTotal, `segmentsWritten
      ensures file == old(file) + LineRecords(dictionary, old(open), line)
      ensures open == OpenNext(dictionary, old(open), line)
      ensures attemptsTotal == old(attemptsTotal) + if line.kind == "attempt" then 1 else 0
      ensures segmentsWritten == old(segmentsWritten) + if line.kind == "segment" then 1 else 0
    {
      var info := dictionary.segments[line.source];
      if info.id !in open {
        open := open + {info.id};
        Write(Start(info.id, line.source, info));
      }
      if line.kind == "chunk" {
        Write(Chunk(info.id, line.body));
      } else if line.kind == "attempt" {
        attemptsTotal := attemptsTotal + 1;
        Write(Attempt(info.id, info.sha256, ChunkOf(info, line.chunkIndex), line.body));
      } else if line.kind == "segment" {
        open := open - {info.id};
        segmentsWritten := segmentsWritten + 1;
        Write(End(info.id, line.source, true, line.body));
      }
    }

    /** Closes what is left open, and the cell, unless the child was interrupted or
        exited unexpectedly. */
    method Conclude(code: Option<int>) returns (outcome: Option<string>)
      requires Valid()
      modifies `file
      ensures outcome == OutcomeOf(code)
      ensures file == prior + SessionRecords(dictionary, prior, lines, code)
    {
      hide Transcript, OpenAfter, Attempts, Ends, FailedEnds, NoDuplicates;
      outcome := OutcomeOf(code);
      ghost var start := file;
      if outcome.Some? && outcome.value != "interrupted" {
        SynthesizeFailedEnds();
        Write(Cell(outcome.value, segmentsWritten, attemptsTotal));
      }
    }

    method SynthesizeFailedEnds()
      requires Elements(dictionary.sources) == dictionary.segments.Keys
      modifies `file
      ensures forall s | s in dictionary.sources :: s in dictionary.segments
      ensures file == old(file) + FailedEnds(dictionary, dictionary.sources, open)
    {
      var sources := dictionary.sources;
      forall s | s in sources ensures s in dictionary.segments { assert s in Elements(sources); }
      for i := 0 to |sources|
        invariant file == old(file) + FailedEnds(dictionary, sources[..i], open)
      {
        assert sources[..i + 1][..i] == sources[..i];
        var info := dictionary.segments[sources[i]];
        if info.id in open {
          Write(End(info.id, sources[i], false, []));
        }
      }
      assert sources[..|sources|] == sources;
    }
  }

  method SeedCounts(records: seq<Record>) returns (attempts: nat, segments: nat)
    ensures attempts == Attempts(records) && segments == Ends(records, true) + Ends(records, false)
  {
    attempts, segments := 0, 0;
    for i := 0 to |records|
      invariant attempts == Attempts(records[..i])
      invariant segments == Ends(records[..i], true) + Ends(records[..i], false)
    {
      assert records[..i + 1][..i] == records[..i];
      match records[i] {
        case Attempt(_, _, _, _) => attempts := attempts + 1;
        case End(_, _, _, _) => segments := segments + 1;
        case _ =>
      }
    }
    assert records[..|records|] == records;
  }

  // ---------------------------------------------------------- one session of a cell

  /** The bytes a run of polls reads: nothing before the file can be opened. */
  function BytesRead(feeds: seq<Feed>): Bytes {
    if feeds == [] then []
    else BytesRead(feeds[..|feeds| - 1]) + if Opens(feeds) then Joined(feeds[|feeds| - 1].pieces) else []
  }

  predicate Opens(feeds: seq<Feed>) {
    exists i | 0 <= i < |feeds| :: feeds[i].opens
  }

  function Parsed(texts: seq<Bytes>, parse: Bytes -> Line): (r: seq<Line>)
    ensures |r| == |texts|
  {
    seq(|texts|, i requires 0 <= i < |texts| => parse(texts[i]))
  }

  /** Polls the child's diagnostics as they grow, transcribes every line once it is
      complete, and concludes by the exit code: however the growth is cut into polls
      and reads, the file holds the records of the lines of all the bytes read. */
  method RunCell(dictionary: Dictionary, existing: Option<seq<Record>>, feeds: seq<Feed>, parse: Bytes -> Line, code: Option<int>)
    returns (file: seq<Record>, outcome: Option<string>)
    requires Proper(dictionary)
    ensures outcome == OutcomeOf(code)
    ensures var prior := if existing.Some? then existing.value else [Header];
      file == prior + SessionRecords(dictionary, prior, Parsed(LinesOf(BytesRead(feeds)), parse), code)
  {
    hide Transcript, OpenAfter, Attempts, Ends, Proper, LinesOf, Tail.Joined, OutcomeOf, SessionRecords, Parsed;
    var recorder := new CellRecorder(dictionary, existing);
    ghost var prior := recorder.prior;
    var tail := new DiagnosticsTail();
    NothingRead();
    NothingParsed(parse);
    for i := 0 to |feeds|
      invariant fresh(recorder) && fresh(tail)
      invariant recorder.Valid() && recorder.prior == prior && recorder.dictionary == dictionary
      invariant tail.Valid() && tail.isOpen == Opens(feeds[..i]) && tail.consumed == BytesRead(feeds[..i])
      invariant recorder.lines == Parsed(LinesOf(tail.consumed), parse)
    {
      assert feeds[..i + 1][..i] == feeds[..i];
      OpensMore(feeds, i);
      PollOnce(recorder, tail, feeds[i], parse);
    }
    assert feeds[..|feeds|] == feeds;
    outcome := recorder.Conclude(code);
    file := recorder.file;
  }

  /** One poll, its lines transcribed. */
  method PollOnce(recorder: CellRecorder, tail: DiagnosticsTail, feed: Feed, parse: Bytes -> Line)
    requires recorder.Valid() && tail.Valid() && recorder.lines == Parsed(LinesOf(tail.consumed), parse)
    modifies recorder, tail
    ensures recorder.Valid() && tail.Valid() && recorder.lines == Parsed(LinesOf(tail.consumed), parse)
    ensures recorder.prior == old(recorder.prior)
    ensures tail.isOpen == (old(tail.isOpen) || feed.opens)
    ensures tail.consumed == old(tail.consumed) + if tail.isOpen then Tail.Joined(feed.pieces) else []
  {
    hide Transcript, OpenAfter, Attempts, Ends, Proper, LinesOf, Tail.Joined, Parsed;
    ghost var before := LinesOf(tail.consumed);
    var lines := tail.Poll(feed);
    TranscribeAll(recorder, lines, parse);
    ParsedMore(before, lines, parse);
  }

  lemma {:induction false} NothingParsed(parse: Bytes -> Line)
    ensures Parsed([], parse) == []
  {
  }

  lemma {:induction false} ParsedMore(a: seq<Bytes>, b: seq<Bytes>, parse: Bytes -> Line)
    ensures Parsed(a + b, parse) == Parsed(a, parse) + Parsed(b, parse)
  {
  }

  lemma {:induction false} OpensMore(feeds: seq<Feed>, i: nat)
    requires i < |feeds|
    ensures Opens(feeds[..i + 1]) <==> Opens(feeds[..i]) || feeds[i].opens
  {
    if Opens(feeds[..i]) {
      var k :| 0 <= k < i && feeds[..i][k].opens;
      assert feeds[..i + 1][k].opens;
    }
    assert feeds[..i + 1][i] == feeds[i];
  }

  method TranscribeAll(recorder: CellRecorder, texts: seq<Bytes>, parse: Bytes -> Line)
    requires recorder.Valid()
    modifies recorder
    ensures recorder.Valid() && recorder.prior == old(recorder.prior)
    ensures recorder.lines == old(recorder.lines) + Parsed(texts, parse)
  {
    hide Transcript, OpenAfter, Attempts, Ends, Proper;
    for i := 0 to |texts|
      invariant recorder.Valid() && recorder.prior == old(recorder.prior)
      invariant recorder.lines == old(recorder.lines) + Parsed(texts, parse)[..i]
    {
      recorder.Transcribe(parse(texts[i]));
    }
  }

  // ------------------------------------------------------------------ properties

  /** A segment is open when it was started and has not ended since. */
  lemma {:induction false} OpenMeans(records: seq<Record>, id: Bytes)
    ensures id in OpenAfter(records) <==>
            exists j :: 0 <= j < |records| && StartedAt(records, id, j) && NotEndedAfter(records, id, j)
  {
    if records != [] {
      var n := |records| - 1;
      var init := records[..n];
      OpenMeans(init, id);
      if id in OpenAfter(records) {
        if StartedAt(records, id, n) {
          assert NotEndedAfter(records, id, n);
        } else {
          var j :| 0 <= j < |init| && StartedAt(init, id, j) && NotEndedAfter(init, id, j);
          assert StartedAt(records, id, j) && NotEndedAfter(records, id, j);
        }
      }
      if j :| 0 <= j < |records| && StartedAt(records, id, j) && NotEndedAfter(records, id, j) {
        if j < n {
          assert StartedAt(init, id, j) && NotEndedAfter(init, id, j);
        }
      }
    }
  }

  ghost predicate StartedAt(records: seq<Record>, id: Bytes, j: nat) {
    j < |records| && records[j].Start? && records[j].id == id
  }

  ghost predicate NotEndedAfter(records: seq<Record>, id: Bytes, j: nat) {
    forall k | j < k < |records| :: records[k].End? ==> records[k].id != id
  }

  /** Starts and ends are bracketed: only an open segment ends, and only a closed one
      starts. */
  ghost predicate Bracketed(records: seq<Record>) {
    forall k | 0 <= k < |records| :: Fits(OpenAfter(records[..k]), records[k])
  }

  ghost predicate Fits(open: set<Bytes>, r: Record) {
    (r.End? ==> r.id in open) && (r.Start? ==> r.id !in open)
  }

  lemma {:induction false} BracketedMore(records: seq<Record>, r: Record)
    requires Bracketed(records) && Fits(OpenAfter(records), r)
    ensures Bracketed(records + [r])
  {
    var more := records + [r];
    forall k | 0 <= k < |more| ensures Fits(OpenAfter(more[..k]), more[k]) {
      assert more[..k] == records[..k];
      if k == |records| { assert records[..k] == records; }
    }
  }

  lemma {:induction false} StartBracketed(d: Dictionary, file: seq<Record>, source: Bytes)
    requires Bracketed(file) && source in d.segments
    ensures var next := file + Started(d, OpenAfter(file), source);
      Bracketed(next) && d.segments[source].id in OpenAfter(next)
  {
    hide Bracketed, OpenAfter;
    var started := Started(d, OpenAfter(file), source);
    if started != [] {
      BracketedMore(file, started[0]);
      OneMore(file, started[0]);
    } else {
      assert file + started == file;
    }
  }

  lemma {:induction false} OwnBracketed(d: Dictionary, file: seq<Record>, line: Line)
    requires Bracketed(file) && Known(d, line) && d.segments[line.source].id in OpenAfter(file)
    ensures Bracketed(file + Own(d, line))
  {
    hide Bracketed, OpenAfter;
    var own := Own(d, line);
    if own != [] { BracketedMore(file, own[0]); } else { assert file + own == file; }
  }

  lemma {:induction false} LineBracketed(d: Dictionary, file: seq<Record>, line: Line)
    requires Bracketed(file)
    ensures Bracketed(file + LineRecords(d, OpenAfter(file), line))
  {
    hide Bracketed, OpenAfter, Started, Own;
    if Known(d, line) {
      var started, own := Started(d, OpenAfter(file), line.source), Own(d, line);
      StartBracketed(d, file, line.source);
      OwnBracketed(d, file + started, line);
      assert file + (started + own) == (file + started) + own;
    } else {
      assert file + [] == file;
    }
  }

  lemma {:induction false} TranscriptBracketed(d: Dictionary, lines: seq<Line>)
    ensures Bracketed(Transcript(d, lines))
  {
    hide Bracketed, OpenAfter, LineRecords;
    if lines == [] {
      NoneBracketed();
    } else {
      var n := |lines| - 1;
      TranscriptBracketed(d, lines[..n]);
      LineBracketed(d, Transcript(d, lines[..n]), lines[n]);
    }
  }

  lemma {:induction false} NoneBracketed()
    ensures Bracketed([])
  {
  }

  ghost function Ids(d: Dictionary, sources: seq<Bytes>): set<Bytes>
    requires forall s | s in sources :: s in d.segments
  {
    set s | s in sources :: d.segments[s].id
  }

  ghost predicate KnownId(d: Dictionary, id: Bytes) {
    exists s :: s in d.segments && d.segments[s].id == id
  }

  ghost predicate AllKnown(d: Dictionary, ids: set<Bytes>) {
    forall id | id in ids :: KnownId(d, id)
  }

  lemma {:induction false} NextKnown(d: Dictionary, open: set<Bytes>, line: Line)
    requires AllKnown(d, open)
    ensures AllKnown(d, OpenNext(d, open, line))
  {
    if Known(d, line) { assert KnownId(d, d.segments[line.source].id); }
  }

  /** Only segments of the dictionary are ever open. */
  lemma {:induction false} OpenAreKnown(d: Dictionary, lines: seq<Line>)
    ensures AllKnown(d, OpenAfter(Transcript(d, lines)))
  {
    hide LineRecords, AllKnown, OpenNext;
    if lines == [] {
      assert AllKnown(d, {}) by { NoneKnown(d); }
    } else {
      hide OpenAfter, Transcript;
      var n := |lines| - 1;
      OpenAreKnown(d, lines[..n]);
      LineTranscribed(d, lines[..n], lines[n]);
      NextKnown(d, OpenAfter(Transcript(d, lines[..n])), lines[n]);
      assert lines[..n] + [lines[n]] == lines;
    }
  }

  lemma {:induction false} NoneKnown(d: Dictionary)
    ensures AllKnown(d, {})
  {
  }

  /** Failed ends close the open segments of their sources, each once. */
  lemma {:induction false} FailedEndsClose(d: Dictionary, sources: seq<Bytes>, transcript: seq<Record>)
    requires NoDuplicates(sources) && (forall s | s in sources :: s in d.segments) && Bracketed(transcript)
    requires forall a, b | a in d.segments && b in d.segments && a != b :: d.segments[a].id != d.segments[b].id
    ensures var ends := FailedEnds(d, sources, OpenAfter(transcript));
      && Bracketed(transcript + ends)
      && OpenAfter(transcript + ends) == OpenAfter(transcript) - Ids(d, sources)
  {
    hide Bracketed, OpenAfter;
    if sources == [] {
      assert transcript + [] == transcript;
    } else {
      var n := |sources| - 1;
      var init, last := sources[..n], sources[n];
      var id, open := d.segments[last].id, OpenAfter(transcript);
      assert sources == init + [last];
      FailedEndsClose(d, init, transcript);
      IdsMore(d, init, last);
      var before := transcript + FailedEnds(d, init, open);
      if id in open {
        var r := End(id, last, false, []);
        assert id !in Ids(d, init);
        assert transcript + FailedEnds(d, sources, open) == before + [r];
        BracketedMore(before, r);
        OneMore(before, r);
      }
    }
  }

  lemma {:induction false} IdsMore(d: Dictionary, init: seq<Bytes>, last: Bytes)
    requires (forall s | s in init + [last] :: s in d.segments)
    ensures forall s | s in init :: s in d.segments
    ensures Ids(d, init + [last]) == Ids(d, init) + {d.segments[last].id}
  {
    assert last in init + [last];
    forall s | s in init ensures s in init + [last] { }
  }

  /** In the records of any session every end follows an open start of its segment,
      and a session that concludes leaves nothing open. */
  lemma {:induction false} SessionBrackets(d: Dictionary, prior: seq<Record>, lines: seq<Line>, code: Option<int>)
    requires Proper(d)
    ensures Bracketed(SessionRecords(d, prior, lines, code))
    ensures Concludes(code) ==> OpenAfter(SessionRecords(d, prior, lines, code)) == {}
  {
    hide Bracketed, OpenAfter, Transcript, FailedEnds, Attempts, Ends;
    var transcript := Transcript(d, lines);
    TranscriptBracketed(d, lines);
    if Concludes(code) {
      ProperSources(d);
      FailedEndsClose(d, d.sources, transcript);
      AllOpenKnown(d, lines);
      var ends := FailedEnds(d, d.sources, OpenAfter(transcript));
      var cell := SessionRecords(d, prior, lines, code)[|transcript| + |ends|];
      assert SessionRecords(d, prior, lines, code) == (transcript + ends) + [cell];
      BracketedMore(transcript + ends, cell);
      OneMore(transcript + ends, cell);
    } else {
      assert transcript + [] == transcript;
    }
  }

  /** A session that may be cut short after some of its records, as when the harness
      is stopped while recording. */
  datatype Session = Session(lines: seq<Line>, code: Option<int>, cut: Option<nat>)

  ghost function Recorded(d: Dictionary, prior: seq<Record>, s: Session): seq<Record>
    requires Proper(d)
  {
    var full := SessionRecords(d, prior, s.lines, s.code);
    if s.cut.Some? then full[..Min(s.cut.value, |full|)] else full
  }

  /** The runs file after any number of sessions. */
  ghost function FileAfter(d: Dictionary, sessions: seq<Session>): seq<Record>
    requires Proper(d)
  {
    if sessions == [] then [Header]
    else
      var prior := FileAfter(d, sessions[..|sessions| - 1]);
      prior + Recorded(d, prior, sessions[|sessions| - 1])
  }

  /** Every session's stretch of the file is bracketed, cut short or not. */
  lemma {:induction false} RecordedBrackets(d: Dictionary, prior: seq<Record>, s: Session)
    requires Proper(d)
    ensures Bracketed(Recorded(d, prior, s))
  {
    hide OpenAfter, SessionRecords, Fits;
    SessionBrackets(d, prior, s.lines, s.code);
    var full := SessionRecords(d, prior, s.lines, s.code);
    forall k | 0 <= k < |Recorded(d, prior, s)| ensures Recorded(d, prior, s)[..k] == full[..k] {
    }
  }

  lemma {:induction false} FailedEndsCount(d: Dictionary, sources: seq<Bytes>, open: set<Bytes>)
    requires forall s | s in sources :: s in d.segments
    ensures Attempts(FailedEnds(d, sources, open)) == 0 && Ends(FailedEnds(d, sources, open), true) == 0
  {
    hide Attempts, Ends, OpenAfter;
    NoRecords();
    if sources != [] {
      var n := |sources| - 1;
      FailedEndsCount(d, sources[..n], open);
      OneMore(FailedEnds(d, sources[..n], open), End(d.segments[sources[n]].id, sources[n], false, []));
    }
  }

  /** After any sessions and one that concludes, the file ends in the cell's totals:
      every attempt in the file; every written end in it and, besides, the failed
      ends of earlier sessions. */
  lemma {:induction false} FinalTotals(d: Dictionary, sessions: seq<Session>, last: Session)
    requires Proper(d) && last.cut.None? && Concludes(last.code)
    ensures var prior := FileAfter(d, sessions);
      var file := FileAfter(d, sessions + [last]);
      && file[|file| - 1] == Cell(OutcomeOf(last.code).value, Ends(file, true) + Ends(prior, false), Attempts(file))
      && OpenAfter(Recorded(d, prior, last)) == {}
  {
    hide Attempts, Ends, OpenAfter, Transcript, FailedEnds;
    assert (sessions + [last])[..|sessions|] == sessions;
    var prior, file := FileAfter(d, sessions), FileAfter(d, sessions + [last]);
    var transcript := Transcript(d, last.lines);
    ProperSources(d);
    var ends := FailedEnds(d, d.sources, OpenAfter(transcript));
    var n := |file| - 1;
    var before := prior + transcript;
    assert file == (before + ends) + [file[n]];
    OneMore(before + ends, file[n]);
    CountsAppend(before, ends);
    FailedEndsCount(d, d.sources, OpenAfter(transcript));
    SessionBrackets(d, prior, last.lines, last.code);
  }

  /** The totals are the attempts and the written ends of the whole file exactly when
      no earlier session left a failed end in it. */
  lemma {:induction false} TotalsExactly(d: Dictionary, sessions: seq<Session>, last: Session)
    requires Proper(d) && last.cut.None? && Concludes(last.code)
    ensures var prior := FileAfter(d, sessions);
      var file := FileAfter(d, sessions + [last]);
      file[|file| - 1] == Cell(OutcomeOf(last.code).value, Ends(file, true), Attempts(file)) <==>
      (forall k | 0 <= k < |prior| :: prior[k].End? ==> prior[k].written)
  {
    hide Attempts, Ends, FileAfter;
    FinalTotals(d, sessions, last);
    NoFailedEnds(FileAfter(d, sessions));
  }

  lemma {:induction false} NoFailedEnds(records: seq<Record>)
    ensures Ends(records, false) == 0 <==> forall k | 0 <= k < |records| :: records[k].End? ==> records[k].written
  {
    if records != [] {
      var n := |records| - 1;
      NoFailedEnds(records[..n]);
      assert forall k | 0 <= k < n :: records[..n][k] == records[k];
    }
  }

  /** A concluding session writes one failed end for each segment left open. */
  lemma {:induction false} FailedEndsNumber(d: Dictionary, sources: seq<Bytes>, open: set<Bytes>)
    requires NoDuplicates(sources) && forall s | s in sources :: s in d.segments
    requires forall a, b | a in d.segments && b in d.segments && a != b :: d.segments[a].id != d.segments[b].id
    ensures Ends(FailedEnds(d, sources, open), false) == |Ids(d, sources) * open|
  {
    hide Ends, Attempts, OpenAfter, NoDuplicates, Ids;
    NoRecords();
    if sources == [] {
      NoIds(d, open);
    } else {
      var n := |sources| - 1;
      var init, last := sources[..n], sources[n];
      var id := d.segments[last].id;
      assert sources == init + [last];
      LastOnce(sources);
      FailedEndsNumber(d, init, open);
      OneIdMore(d, init, last, open);
      OneMore(FailedEnds(d, init, open), End(id, last, false, []));
    }
  }

  lemma NoIds(d: Dictionary, open: set<Bytes>)
    ensures Ids(d, []) * open == {}
  {
  }

  lemma LastOnce(sources: seq<Bytes>)
    requires sources != [] && NoDuplicates(sources)
    ensures NoDuplicates(sources[..|sources| - 1]) && sources[|sources| - 1] !in sources[..|sources| - 1]
  {
  }

  lemma OneMoreShared<T>(ids: set<T>, open: set<T>, id: T)
    requires id !in ids
    ensures |(ids + {id}) * open| == |ids * open| + if id in open then 1 else 0
  {
    assert (ids + {id}) * open == if id in open then ids * open + {id} else ids * open;
  }

  lemma OneIdMore(d: Dictionary, init: seq<Bytes>, last: Bytes, open: set<Bytes>)
    requires (forall s | s in init + [last] :: s in d.segments) && last !in init
    requires forall a, b | a in d.segments && b in d.segments && a != b :: d.segments[a].id != d.segments[b].id
    ensures (forall s | s in init :: s in d.segments) && last in d.segments
    ensures |Ids(d, init + [last]) * open| == |Ids(d, init) * open| + if d.segments[last].id in open then 1 else 0
  {
    IdsMore(d, init, last);
    assert last in init + [last];
    var id, ids := d.segments[last].id, Ids(d, init);
    assert id !in ids;
    hide Ids;
    OneMoreShared(ids, open, id);
  }

  /** A concluding session leaves as many failed ends as its lines left segments open,
      and the written ends of its lines. */
  lemma {:induction false} FailedByConclusion(d: Dictionary, prior: seq<Record>, lines: seq<Line>, code: Option<int>)
    requires Proper(d) && Concludes(code)
    ensures var records := SessionRecords(d, prior, lines, code);
      && Ends(records, false) == |OpenAfter(Transcript(d, lines))|
      && Ends(records, true) == Ends(Transcript(d, lines), true)
  {
    hide Ends, Attempts, OpenAfter, Transcript, FailedEnds, Ids;
    var transcript, records := Transcript(d, lines), SessionRecords(d, prior, lines, code);
    ProperSources(d);
    var open := OpenAfter(transcript);
    var ends, cell := FailedEnds(d, d.sources, open), records[|records| - 1];
    assert records == (transcript + ends) + [cell];
    TranscriptEnds(d, lines);
    FailedEndsNumber(d, d.sources, open);
    FailedEndsCount(d, d.sources, open);
    CountsAppend(transcript, ends);
    OneMore(transcript + ends, cell);
    AllOpenKnown(d, lines);
  }

  lemma AllOpenKnown(d: Dictionary, lines: seq<Line>)
    requires Proper(d)
    ensures forall s | s in d.sources :: s in d.segments
    ensures Ids(d, d.sources) * OpenAfter(Transcript(d, lines)) == OpenAfter(Transcript(d, lines))
  {
    ProperSources(d);
    OpenAreKnown(d, lines);
    hide OpenAfter, Transcript;
    forall id | id in OpenAfter(Transcript(d, lines)) ensures id in Ids(d, d.sources) {
      assert KnownId(d, id);
      var s :| s in d.segments && d.segments[s].id == id;
      assert s in Elements(d.sources);
    }
  }

  /** A chunk line opens its segment and ends nothing. */
  lemma ChunkOpens(d: Dictionary, s: Bytes)
    requires s in d.segments
    ensures var transcript := Transcript(d, [Line("chunk", s, None, [])]);
      OpenAfter(transcript) == {d.segments[s].id} && Ends(transcript, true) == 0
  {
    var line := Line("chunk", s, None, []);
    NoRecords();
    hide Ends, Attempts, OpenAfter, LineRecords;
    assert Transcript(d, []) == [] && [] + [line] == [line];
    LineTranscribed(d, [], line);
    LineCounted(d, [], {}, line);
    assert [] + LineRecords(d, {}, line) == LineRecords(d, {}, line);
  }

  /** The records of a session that opens one segment and fails. */
  lemma OpenedAndFailed(d: Dictionary, s: Bytes)
    requires Proper(d) && s in d.segments
    ensures var first := Session([Line("chunk", s, None, [])], Some(1), None);
      Ends(FileAfter(d, [first]), true) == 0 && Ends(FileAfter(d, [first]), false) == 1
  {
    hide Ends, Attempts, OpenAfter, Transcript, SessionRecords;
    var lines := [Line("chunk", s, None, [])];
    var first := Session(lines, Some(1), None);
    assert [first][..0] == [];
    HeaderCounts();
    ChunkOpens(d, s);
    FailedByConclusion(d, [Header], lines, Some(1));
    CountsAppend([Header], SessionRecords(d, [Header], lines, Some(1)));
  }

  /** It does happen: a cell whose child opened a segment and failed, its manifest entry
      then lost, is run again; the new session writes nothing, and the totals still
      count one segment more than the file has written ends. */
  lemma TotalsOvercount(d: Dictionary, s: Bytes)
    requires Proper(d) && s in d.segments
    ensures var first, second := Session([Line("chunk", s, None, [])], Some(1), None), Session([], Some(0), None);
      var file := FileAfter(d, [first, second]);
      Ends(file, true) == 0 && file[|file| - 1] == Cell("complete", 1, Attempts(file))
  {
    hide Ends, Attempts, OpenAfter, FileAfter;
    var first, second := Session([Line("chunk", s, None, [])], Some(1), None), Session([], Some(0), None);
    OpenedAndFailed(d, s);
    assert [first] + [second] == [first, second];
    FinalTotals(d, [first], second);
    NothingMoreWritten(d, [first]);
  }

  lemma NothingMoreWritten(d: Dictionary, sessions: seq<Session>)
    requires Proper(d)
    ensures Ends(FileAfter(d, sessions + [Session([], Some(0), None)]), true) == Ends(FileAfter(d, sessions), true)
  {
    var prior, last := FileAfter(d, sessions), Session([], Some(0), None);
    assert (sessions + [last])[..|sessions|] == sessions;
    ProperSources(d);
    hide Ends, Attempts, OpenAfter;
    NoRecords();
    var ends := FailedEnds(d, d.sources, {});
    FailedEndsCount(d, d.sources, {});
    var full := SessionRecords(d, prior, [], Some(0));
    assert full == ends + [full[|full| - 1]];
    OneMore(ends, full[|full| - 1]);
    CountsAppend(prior, full);
  }

  /** Sessions that were interrupted, or whose child exited unexpectedly, leave no
      failed end: their bare starts stand. */
  lemma {:induction false} InterruptedLeaveNone(d: Dictionary, sessions: seq<Session>)
    requires Proper(d) && forall s | s in sessions :: !Concludes(s.code)
    ensures Ends(FileAfter(d, sessions), false) == 0
  {
    hide Attempts, Ends, OpenAfter, Concludes;
    HeaderCounts();
    if sessions != [] {
      var n := |sessions| - 1;
      InterruptedLeaveNone(d, sessions[..n]);
      var prior, s := FileAfter(d, sessions[..n]), sessions[n];
      assert s in sessions;
      var full, transcript := SessionRecords(d, prior, s.lines, s.code), Transcript(d, s.lines);
      assert full == transcript + [] == transcript;
      TranscriptEnds(d, s.lines);
      var part := Recorded(d, prior, s);
      assert full == part + full[|part|..];
      CountsAppend(part, full[|part|..]);
      CountsAppend(prior, part);
    }
  }

  lemma {:induction false} TranscriptEnds(d: Dictionary, lines: seq<Line>)
    ensures Ends(Transcript(d, lines), false) == 0
  {
    hide Attempts, Ends, OpenAfter, LineRecords;
    NoRecords();
    if lines != [] {
      var n := |lines| - 1;
      TranscriptEnds(d, lines[..n]);
      LineCounted(d, Transcript(d, lines[..n]), OpenAfter(Transcript(d, lines[..n])), lines[n]);
    }
  }

  // ------------------------------------------------------------ what is passed on

  /** What a record passes on of the child's report. */
  datatype Told = Told(kind: string, id: Bytes, sha256: Bytes, chunk: Option<ChunkInfo>, body: Bytes)

  function ToldBy(r: Record): seq<Told> {
    match r
    case Chunk(id, body) => [Told("chunk", id, [], None, body)]
    case Attempt(id, sha256, chunk, body) => [Told("attempt", id, sha256, chunk, body)]
    case End(id, _, written, body) => if written then [Told("segment", id, [], None, body)] else []
    case _ => []
  }

  function ToldAll(records: seq<Record>): seq<Told> {
    if records == [] then [] else ToldAll(records[..|records| - 1]) + ToldBy(records[|records| - 1])
  }

  /** What a line reports: its chunk, attempt or segment's end, under the segment of its
      source, an attempt with the segment's digest and the chunk it was made for, the
      first when it names none. */
  function Heard(d: Dictionary, line: Line): seq<Told> {
    if !Known(d, line) then []
    else
      var info := d.segments[line.source];
      var i := if line.chunkIndex.Some? then line.chunkIndex.value else 0;
      if line.kind == "attempt" then
        [Told("attempt", info.id, info.sha256, if i < |info.chunks| then Some(info.chunks[i]) else None, line.body)]
      else if line.kind == "chunk" || line.kind == "segment" then [Told(line.kind, info.id, [], None, line.body)]
      else []
  }

  function HeardAll(d: Dictionary, lines: seq<Line>): seq<Told> {
    if lines == [] then [] else HeardAll(d, lines[..|lines| - 1]) + Heard(d, lines[|lines| - 1])
  }

  lemma {:induction false} ToldAppend(a: seq<Record>, b: seq<Record>)
    ensures ToldAll(a + b) == ToldAll(a) + ToldAll(b)
  {
    hide ToldAll, ToldBy;
    if b == [] {
      assert a + b == a;
      NothingTold();
    } else {
      var n := |b| - 1;
      ToldAppend(a, b[..n]);
      assert b[..n] + [b[n]] == b && (a + b[..n]) + [b[n]] == a + b;
      ToldMore(b[..n], b[n]);
      ToldMore(a + b[..n], b[n]);
    }
  }

  lemma ToldMore(records: seq<Record>, r: Record)
    ensures ToldAll(records + [r]) == ToldAll(records) + ToldBy(r)
  {
    hide ToldBy;
    assert (records + [r])[..|records|] == records;
  }

  lemma ToldOne(r: Record)
    ensures ToldAll([r]) == ToldBy(r)
  {
    hide ToldAll, ToldBy;
    NothingTold();
    assert [] + [r] == [r];
    ToldMore([], r);
  }

  lemma OwnTold(d: Dictionary, line: Line)
    requires Known(d, line)
    ensures |Own(d, line)| <= 1 && Heard(d, line) == if Own(d, line) == [] then [] else ToldBy(Own(d, line)[0])
  {
  }

  lemma StartedTold(d: Dictionary, open: set<Bytes>, source: Bytes)
    requires source in d.segments
    ensures ToldAll(Started(d, open, source)) == []
  {
    hide ToldAll;
    NothingTold();
    if Started(d, open, source) != [] {
      ToldOne(Start(d.segments[source].id, source, d.segments[source]));
    }
  }

  lemma OneTold(records: seq<Record>)
    requires |records| <= 1
    ensures ToldAll(records) == if records == [] then [] else ToldBy(records[0])
  {
    hide ToldAll, ToldBy;
    NothingTold();
    if records != [] {
      ToldOne(records[0]);
      assert records == [records[0]];
    }
  }

  lemma LineTold(d: Dictionary, open: set<Bytes>, line: Line)
    ensures ToldAll(LineRecords(d, open, line)) == Heard(d, line)
  {
    hide ToldAll, ToldBy, Started, Own, Heard;
    if Known(d, line) {
      StartedTold(d, open, line.source);
      OwnTold(d, line);
      OneTold(Own(d, line));
      ToldAppend(Started(d, open, line.source), Own(d, line));
    } else {
      NothingTold();
      NothingHeard(d, line);
    }
  }

  lemma NothingHeard(d: Dictionary, line: Line)
    requires !Known(d, line)
    ensures Heard(d, line) == []
  {
  }

  /** A transcript passes on what its lines report, all of it, once and in order. */
  lemma {:induction false} TranscriptTells(d: Dictionary, lines: seq<Line>)
    ensures ToldAll(Transcript(d, lines)) == HeardAll(d, lines)
  {
    hide ToldAll, LineRecords, Heard, OpenAfter;
    if lines == [] {
      NothingTold();
    } else {
      var n := |lines| - 1;
      var before := Transcript(d, lines[..n]);
      TranscriptTells(d, lines[..n]);
      LineTold(d, OpenAfter(before), lines[n]);
      ToldAppend(before, LineRecords(d, OpenAfter(before), lines[n]));
    }
  }

  lemma NothingTold()
    ensures ToldAll([]) == []
  {
  }

  /** An exit code of 0 completes the cell, 1 and 2 fail it; 130, or none at all, is an
      interruption, and any other is an error that concludes nothing. */
  lemma CodesMean(code: Option<int>)
    ensures Concludes(code) <==> code.Some? && code.value in {0, 1, 2}
    ensures OutcomeOf(code) == Some("complete") <==> code == Some(0)
    ensures OutcomeOf(code) == Some("interrupted") <==> code.None? || code == Some(130)
  {
  }
}
