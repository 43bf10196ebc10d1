/** Deriving a community-summaries artifact (`derive` in `src/communities.rs`):
    summaries are reused by fingerprint, the manifest is written after every source,
    and what vanished is retracted last. */
module Communities {
  import opened Common

  type Id = seq<byte>
  type Text = seq<byte>

  /** What a summary was generated for. */
  datatype Origin = Origin(algorithm: Text, fingerprint: Text)

  /** A stored summary; nothing reads its origin, which says where it came from. */
  datatype Passage = Passage(text: Text, origin: Origin)

  /** The chat model: what it answers when it is asked for a community's summary and
      shown these, none when it fails. */
  type Model = (Community, map<Id, Passage>) -> Option<Text>

  datatype Entry = Entry(id: Id, fingerprint: Text)

  datatype Manifest = Manifest(algorithm: Text, entries: seq<Entry>)

  datatype Community = Community(id: Id, level: nat, fingerprint: Text, children: seq<Id>)

  /** What the server detected. Community ids are unique. */
  datatype Analysis = Analysis(algorithm: Text, communities: seq<Community>)

  ghost predicate DistinctIds(s: seq<Community>) {
    forall i, j | 0 <= i < j < |s| :: s[i].id != s[j].id
  }

  function IdsOf(s: seq<Community>): set<Id> {
    set c | c in s :: c.id
  }

  function EntryIds(entries: seq<Entry>): set<Id> {
    set e | e in entries :: e.id
  }

  // --------------------------------------------------------------- specification

  /** The id under which the previous manifest lists a fingerprint, its last one. */
  function LastWith(entries: seq<Entry>, fingerprint: Text): Option<Id> {
    if entries == [] then None
    else if entries[|entries| - 1].fingerprint == fingerprint then Some(entries[|entries| - 1].id)
    else LastWith(entries[..|entries| - 1], fingerprint)
  }

  /** The source a community reuses: of its fingerprint, under the same algorithm. */
  function ReusedId(previous: Option<Manifest>, algorithm: Text, c: Community): Option<Id> {
    if previous.Some? && previous.value.algorithm == algorithm then LastWith(previous.value.entries, c.fingerprint) else None
  }

  /** The summary a community reuses, when the store still holds it. */
  function ReusedPassage(previous: Option<Manifest>, algorithm: Text, held: map<Id, Passage>, c: Community): Option<Passage> {
    var id := ReusedId(previous, algorithm, c);
    if id.Some? && id.value in held then Some(held[id.value]) else None
  }

  /** How many of the communities need the model: no reusable summary, or one that the
      store lost. */
  function Needed(previous: Option<Manifest>, algorithm: Text, held: map<Id, Passage>, s: seq<Community>): nat {
    if s == [] then 0
    else
      Needed(previous, algorithm, held, s[..|s| - 1])
      + if ReusedPassage(previous, algorithm, held, s[|s| - 1]).None? then 1 else 0
  }

  /** How many the previous manifest lists no fingerprint for. */
  function Fresh(previous: Option<Manifest>, algorithm: Text, s: seq<Community>): nat {
    if s == [] then 0
    else Fresh(previous, algorithm, s[..|s| - 1]) + if ReusedId(previous, algorithm, s[|s| - 1]).None? then 1 else 0
  }

  function EntriesOf(s: seq<Community>): (r: seq<Entry>)
    ensures |r| == |s|
  {
    seq(|s|, i requires 0 <= i < |s| => Entry(s[i].id, s[i].fingerprint))
  }

  /** The summaries are the reused ones and, for the others, new ones generated for
      the community's own fingerprint. */
  ghost predicate Summarized(previous: Option<Manifest>, a: Analysis, held: map<Id, Passage>, s: seq<Community>, summaries: map<Id, Passage>) {
    && summaries.Keys == IdsOf(s)
    && forall c | c in s :: FitSummary(previous, a.algorithm, held, c, summaries)
  }

  ghost predicate FitSummary(previous: Option<Manifest>, algorithm: Text, held: map<Id, Passage>, c: Community, summaries: map<Id, Passage>) {
    c.id in summaries &&
    match ReusedPassage(previous, algorithm, held, c)
    case Some(p) => summaries[c.id] == p
    case None => summaries[c.id].origin == Origin(algorithm, c.fingerprint)
  }

  /** Every id the manifest lists has a stored source. */
  ghost predicate Accounted(passages: map<Id, Passage>, manifest: Option<Manifest>) {
    manifest.Some? ==> EntryIds(manifest.value.entries) <= passages.Keys
  }

  // ---------------------------------------------------------------------- the store

  /** The artifact context on the server. Every method keeps the manifest accounted
      for, so it is at every moment between two writes. */
  class Artifact {
    var passages: map<Id, Passage>
    var manifest: Option<Manifest>

    ghost predicate Valid()
      reads this
    {
      Accounted(passages, manifest)
    }

    constructor ()
      ensures Valid() && passages == map[] && manifest == None
    {
      passages, manifest := map[], None;
    }

    method Import(id: Id, p: Passage)
      modifies `passages
      ensures old(Valid()) ==> Valid()
      ensures passages == old(passages)[id := p]
    {
      passages := passages[id := p];
    }

    method ImportManifest(next: Manifest)
      requires EntryIds(next.entries) <= passages.Keys
      modifies `manifest
      ensures Valid() && manifest == Some(next)
    {
      manifest := Some(next);
    }

    method Retract(id: Id)
      requires manifest.Some? ==> id !in EntryIds(manifest.value.entries)
      modifies `passages
      ensures old(Valid()) ==> Valid()
      ensures passages == old(passages) - {id}
    {
      passages := passages - {id};
    }
  }

  // ------------------------------------------------------------------ ordering

  /** Stable: a community goes before those of its level that came after it. */
  function InsertByLevel(c: Community, s: seq<Community>): (r: seq<Community>)
    ensures multiset(r) == multiset(s) + multiset{c}
  {
    if s == [] then [c]
    else if c.level <= s[0].level then [c] + s
    else
      assert s == [s[0]] + s[1..];
      [s[0]] + InsertByLevel(c, s[1..])
  }

  function ByLevel(s: seq<Community>): (r: seq<Community>)
    ensures multiset(r) == multiset(s)
  {
    if s == [] then []
    else
      assert s == [s[0]] + s[1..];
      InsertByLevel(s[0], ByLevel(s[1..]))
  }

  ghost predicate LevelsRise(s: seq<Community>) {
    forall i, j | 0 <= i < j < |s| :: s[i].level <= s[j].level
  }

  lemma {:induction false} InsertRises(c: Community, s: seq<Community>)
    requires LevelsRise(s)
    ensures LevelsRise(InsertByLevel(c, s))
  {
    hide LevelsRise;
    if s == [] {
      RisesFrom(c, s);
      assert [c] + s == [c];
    } else if c.level <= s[0].level {
      assert [s[0]] + s[1..] == s;
      RisesFrom(s[0], s[1..]);
      assert forall o | o in s :: o == s[0] || o in s[1..];
      RisesFrom(c, s);
    } else {
      assert [s[0]] + s[1..] == s;
      RisesFrom(s[0], s[1..]);
      InsertRises(c, s[1..]);
      var r := InsertByLevel(c, s[1..]);
      forall o | o in r ensures s[0].level <= o.level {
        assert o in multiset(r);
        assert o == c || o in multiset(s[1..]);
      }
      RisesFrom(s[0], r);
    }
  }

  lemma {:induction false} RisesFrom(c: Community, s: seq<Community>)
    ensures LevelsRise([c] + s) <==> LevelsRise(s) && forall o | o in s :: c.level <= o.level
  {
    var all := [c] + s;
    assert forall i | 0 <= i < |s| :: all[i + 1] == s[i];
    if LevelsRise(all) {
      forall i | 0 <= i < |s| ensures c.level <= s[i].level {
        assert all[0].level <= all[i + 1].level;
      }
      forall i, j | 0 <= i < j < |s| ensures s[i].level <= s[j].level {
        assert all[i + 1].level <= all[j + 1].level;
      }
    }
  }

  lemma {:induction false} ByLevelRises(s: seq<Community>)
    ensures LevelsRise(ByLevel(s))
    ensures forall c :: c in ByLevel(s) <==> c in s
  {
    if s != [] {
      ByLevelRises(s[1..]);
      InsertRises(s[0], ByLevel(s[1..]));
    }
    forall c ensures c in ByLevel(s) <==> c in s {
      assert c in ByLevel(s) <==> c in multiset(ByLevel(s));
      assert c in s <==> c in multiset(s);
    }
  }

  lemma {:induction false} NeededAppend(previous: Option<Manifest>, algorithm: Text, held: map<Id, Passage>, a: seq<Community>, b: seq<Community>)
    ensures Needed(previous, algorithm, held, a + b) == Needed(previous, algorithm, held, a) + Needed(previous, algorithm, held, b)
  {
    hide ReusedPassage;
    if b == [] {
      assert a + b == a;
    } else {
      var n := |b| - 1;
      NeededAppend(previous, algorithm, held, a, b[..n]);
      assert (a + b)[..|a + b| - 1] == a + b[..n];
    }
  }

  lemma {:induction false} NeededInsert(previous: Option<Manifest>, algorithm: Text, held: map<Id, Passage>, c: Community, s: seq<Community>)
    ensures Needed(previous, algorithm, held, InsertByLevel(c, s)) == Needed(previous, algorithm, held, [c] + s)
  {
    hide ReusedPassage, Needed;
    if s != [] && s[0].level < c.level {
      NeededInsert(previous, algorithm, held, c, s[1..]);
      NeededAppend(previous, algorithm, held, [s[0]], InsertByLevel(c, s[1..]));
      NeededAppend(previous, algorithm, held, [c], s[1..]);
      NeededAppend(previous, algorithm, held, [c], s);
      NeededAppend(previous, algorithm, held, [s[0]], s[1..]);
      assert s == [s[0]] + s[1..];
    } else if s == [] {
      assert [c] + s == [c];
    }
  }

  /** The order of the work does not change how much of it there is. */
  lemma {:induction false} NeededByLevel(previous: Option<Manifest>, algorithm: Text, held: map<Id, Passage>, s: seq<Community>)
    ensures Needed(previous, algorithm, held, ByLevel(s)) == Needed(previous, algorithm, held, s)
  {
    hide ReusedPassage, Needed;
    if s != [] {
      NeededByLevel(previous, algorithm, held, s[1..]);
      NeededInsert(previous, algorithm, held, s[0], ByLevel(s[1..]));
      NeededAppend(previous, algorithm, held, [s[0]], ByLevel(s[1..]));
      NeededAppend(previous, algorithm, held, [s[0]], s[1..]);
      assert s == [s[0]] + s[1..];
    }
  }

  // ------------------------------------------------------------------ derivation

  /** The chat client, and how often it was asked. `answers` is the model: it may
      fail, or answer nothing. */
  class ChatClient {
    const answers: Model
    var calls: nat

    constructor (answers: Model)
      ensures calls == 0 && this.answers == answers
    {
      this.answers := answers;
      calls := 0;
    }

    method Complete(c: Community, summaries: map<Id, Passage>) returns (text: Option<Text>)
      modifies `calls
      ensures calls == old(calls) + 1 && text == answers(c, summaries)
    {
      calls := calls + 1;
      text := answers(c, summaries);
    }
  }

  /** Counts the communities without a usable fingerprint, and those whose reused
      source the store lost. */
  method CountWork(previous: Option<Manifest>, algorithm: Text, held: map<Id, Passage>, s: seq<Community>) returns (unseen: nat, torn: nat)
    ensures unseen + torn == Needed(previous, algorithm, held, s) <= |s|
    ensures unseen == Fresh(previous, algorithm, s)
  {
    unseen, torn := 0, 0;
    for i := 0 to |s|
      invariant unseen + torn == Needed(previous, algorithm, held, s[..i]) <= i
      invariant unseen == Fresh(previous, algorithm, s[..i])
    {
      assert s[..i + 1][..i] == s[..i];
      var id := ReusedId(previous, algorithm, s[i]);
      if id.None? {
        unseen := unseen + 1;
      } else if id.value !in held {
        torn := torn + 1;
      }
    }
    assert s[..|s|] == s;
  }

  datatype Report = Report(generated: nat, reused: nat, retracted: nat, rebuilt: bool)


  /** The model was shown summaries that were settled on, those of every lower level
      among them. */
  ghost predicate Shown(s: seq<Community>, c: Community, shown: map<Id, Passage>, summaries: map<Id, Passage>) {
    && (forall id | id in shown :: id in summaries && shown[id] == summaries[id])
    && (forall o | o in s && o.level < c.level :: o.id in shown)
  }

  /** The community's summary is what the model answered, and the answer has a text. */
  ghost predicate IsAnswer(answers: Model, s: seq<Community>, c: Community, summaries: map<Id, Passage>) {
    c.id in summaries && summaries[c.id].text != []
    && exists shown :: Shown(s, c, shown, summaries) && answers(c, shown) == Some(summaries[c.id].text)
  }

  /** Of the communities in `done`, each one without a summary to reuse got the model's. */
  ghost predicate Answered(answers: Model, previous: Option<Manifest>, a: Analysis, held: map<Id, Passage>, done: seq<Community>,
                           summaries: map<Id, Passage>) {
    forall c | c in done && ReusedPassage(previous, a.algorithm, held, c).None? :: IsAnswer(answers, a.communities, c, summaries)
  }

  /** A question the model fails, or answers without a text. */
  ghost predicate Unanswered(answers: Model, previous: Option<Manifest>, a: Analysis, held: map<Id, Passage>) {
    exists c, shown :: c in a.communities && ReusedPassage(previous, a.algorithm, held, c).None?
      && Shown(a.communities, c, shown, shown) && (answers(c, shown).None? || answers(c, shown).value == [])
  }

  lemma {:induction false} AnsweredMore(answers: Model, previous: Option<Manifest>, a: Analysis, held: map<Id, Passage>, done: seq<Community>,
                       c: Community, summaries: map<Id, Passage>, p: Passage)
    requires Answered(answers, previous, a, held, done, summaries) && c.id !in summaries
    requires forall o | o in a.communities && o.level < c.level :: o.id in summaries
    requires ReusedPassage(previous, a.algorithm, held, c).None? ==> answers(c, summaries) == Some(p.text) && p.text != []
    ensures Answered(answers, previous, a, held, done + [c], summaries[c.id := p])
  {
    hide ReusedPassage;
    var next := summaries[c.id := p];
    forall o | o in done + [c] && ReusedPassage(previous, a.algorithm, held, o).None? ensures IsAnswer(answers, a.communities, o, next) {
      if o in done {
        assert IsAnswer(answers, a.communities, o, summaries);
        var shown :| Shown(a.communities, o, shown, summaries) && answers(o, shown) == Some(summaries[o.id].text);
        assert Shown(a.communities, o, shown, next);
      } else {
        assert Shown(a.communities, c, summaries, next);
      }
    }
  }

  lemma {:induction false} AnsweredAnyOrder(answers: Model, previous: Option<Manifest>, a: Analysis, held: map<Id, Passage>, s: seq<Community>,
                           t: seq<Community>, summaries: map<Id, Passage>)
    requires Answered(answers, previous, a, held, s, summaries) && forall c :: c in s <==> c in t
    ensures Answered(answers, previous, a, held, t, summaries)
  {
    hide ReusedPassage, IsAnswer;
  }

  /** One summary. The client is only absent when nothing asks for one, and every
      community of a lower level is summarized before. */
  method Summarize(chat: ChatClient?, c: Community, s: seq<Community>, algorithm: Text, summaries: map<Id, Passage>) returns (r: Result<Passage>)
    requires chat != null
    requires forall o | o in s && o.level < c.level :: o.id in summaries
    modifies chat
    ensures chat.calls == old(chat.calls) + 1
    ensures r.Ok? ==> chat.answers(c, summaries) == Some(r.value.text) && r.value.text != [] && r.value.origin == Origin(algorithm, c.fingerprint)
    ensures r.Err? ==> chat.answers(c, summaries).None? || chat.answers(c, summaries).value == []
  {
    var text := chat.Complete(c, summaries);
    if text.None? {
      return Err("the model failed");
    }
    if text.value == [] {
      return Err("the model answered an empty summary");
    }
    r := Ok(Passage(text.value, Origin(algorithm, c.fingerprint)));
  }

  lemma {:induction false} SummarizedMore(previous: Option<Manifest>, a: Analysis, held: map<Id, Passage>, s: seq<Community>, c: Community,
                       summaries: map<Id, Passage>, p: Passage)
    requires Summarized(previous, a, held, s, summaries) && forall o | o in s :: o.id != c.id
    requires match ReusedPassage(previous, a.algorithm, held, c)
             case Some(q) => p == q
             case None => p.origin == Origin(a.algorithm, c.fingerprint)
    ensures Summarized(previous, a, held, s + [c], summaries[c.id := p])
  {
    hide ReusedPassage;
    assert IdsOf(s + [c]) == IdsOf(s) + {c.id} by {
      assert c in s + [c];
      forall o | o in s ensures o in s + [c] { }
    }
    forall o | o in s + [c] ensures FitSummary(previous, a.algorithm, held, o, summaries[c.id := p]) {
      if o in s { assert FitSummary(previous, a.algorithm, held, o, summaries); }
    }
  }

  lemma {:induction false} LowerAreDone(s: seq<Community>, i: nat)
    requires LevelsRise(s) && i < |s|
    ensures forall o | o in s && o.level < s[i].level :: o.id in IdsOf(s[..i])
  {
    forall o | o in s && o.level < s[i].level ensures o.id in IdsOf(s[..i]) {
      var j :| 0 <= j < |s| && s[j] == o;
      assert s[..i][j] == o && o in s[..i];
    }
  }

  lemma {:induction false} NeededAt(previous: Option<Manifest>, algorithm: Text, held: map<Id, Passage>, s: seq<Community>, i: nat)
    requires i < |s|
    ensures Needed(previous, algorithm, held, s[..i + 1])
         == Needed(previous, algorithm, held, s[..i]) + (if ReusedPassage(previous, algorithm, held, s[i]).None? then 1 else 0)
         <= Needed(previous, algorithm, held, s)
  {
    hide ReusedPassage;
    assert s[..i + 1][..i] == s[..i];
    NeededAppend(previous, algorithm, held, s[..i + 1], s[i + 1..]);
    assert s == s[..i + 1] + s[i + 1..];
  }

  lemma {:induction false} OrderedDistinct(s: seq<Community>, i: nat)
    requires DistinctIds(s) && i < |s|
    ensures forall o | o in s[..i] :: o.id != s[i].id
  {
  }

  /** Reordering keeps ids distinct. */
  lemma {:induction false} DistinctByMultiset(a: seq<Community>, b: seq<Community>)
    requires DistinctIds(a) && multiset(a) == multiset(b)
    ensures DistinctIds(b)
  {
    forall i, j | 0 <= i < j < |b| ensures b[i].id != b[j].id {
      if b[i] == b[j] {
        TwiceInMultiset(b, i, j);
        OnceInMultiset(a, b[i]);
      } else {
        assert b[i] in multiset(b) && b[j] in multiset(b);
        assert b[i] in a && b[j] in a;
      }
    }
  }

  lemma {:induction false} TwiceInMultiset(s: seq<Community>, i: nat, j: nat)
    requires i < j < |s| && s[i] == s[j]
    ensures multiset(s)[s[i]] >= 2
  {
    assert s == s[..i] + [s[i]] + s[i + 1..j] + [s[j]] + s[j + 1..];
  }

  lemma {:induction false} OnceInMultiset(s: seq<Community>, c: Community)
    requires DistinctIds(s)
    ensures multiset(s)[c] <= 1
  {
    if s != [] {
      var n := |s| - 1;
      assert s == s[..n] + [s[n]];
      OnceInMultiset(s[..n], c);
      if c == s[n] { assert c !in s[..n]; }
    }
  }

  /** The summaries of every community, leaves first: reused, or asked of the model. */
  method SummarizeAll(previous: Option<Manifest>, a: Analysis, held: map<Id, Passage>, chat: ChatClient?, ghost answers: Model)
    returns (r: Result<map<Id, Passage>>, generated: nat)
    requires DistinctIds(a.communities)
    requires chat != null <==> Needed(previous, a.algorithm, held, a.communities) > 0
    requires chat != null ==> chat.answers == answers
    modifies chat
    ensures chat != null ==> chat.calls == old(chat.calls) + generated
    ensures r.Ok? ==> Summarized(previous, a, held, a.communities, r.value)
    ensures r.Ok? ==> generated == Needed(previous, a.algorithm, held, a.communities)
    ensures r.Ok? ==> Answered(answers, previous, a, held, a.communities, r.value)
    ensures r.Err? ==> Unanswered(answers, previous, a, held) && Needed(previous, a.algorithm, held, a.communities) > 0
  {
    hide Needed, ReusedPassage, DistinctIds, Summarized, LevelsRise, ByLevel, Answered;
    var ordered := ByLevel(a.communities);
    ByLevelRises(a.communities);
    NeededByLevel(previous, a.algorithm, held, a.communities);
    DistinctByMultiset(a.communities, ordered);
    var summaries: map<Id, Passage> := map[];
    generated := 0;
    StartSummaries(previous, a, held);
    for i := 0 to |ordered|
      invariant Summarized(previous, a, held, ordered[..i], summaries) && summaries.Keys == IdsOf(ordered[..i])
      invariant Answered(answers, previous, a, held, ordered[..i], summaries)
      invariant generated == Needed(previous, a.algorithm, held, ordered[..i])
      invariant chat != null ==> chat.calls == old(chat.calls) + generated
    {
      var c := ordered[i];
      assert ordered[..i + 1] == ordered[..i] + [c];
      NeededAt(previous, a.algorithm, held, ordered, i);
      OrderedDistinct(ordered, i);
      LowerAreDone(ordered, i);
      var passage := ReusedPassage(previous, a.algorithm, held, c);
      var p;
      match passage {
        case Some(stored) => p := stored;
        case None =>
          var answer := Summarize(chat, c, ordered, a.algorithm, summaries);
          generated := generated + 1;
          if answer.Err? {
            assert Shown(a.communities, c, summaries, summaries);
            return Err(answer.error), generated;
          }
          p := answer.value;
      }
      SummarizedMore(previous, a, held, ordered[..i], c, summaries, p);
      AnsweredMore(answers, previous, a, held, ordered[..i], c, summaries, p);
      summaries := summaries[c.id := p];
      SummarizedKeys(previous, a, held, ordered[..i + 1], summaries);
    }
    assert ordered[..|ordered|] == ordered;
    SummarizedAnyOrder(previous, a, held, ordered, a.communities, summaries);
    AnsweredAnyOrder(answers, previous, a, held, ordered, a.communities, summaries);
    r := Ok(summaries);
  }

  lemma {:induction false} StartSummaries(previous: Option<Manifest>, a: Analysis, held: map<Id, Passage>)
    ensures Summarized(previous, a, held, [], map[]) && Needed(previous, a.algorithm, held, []) == 0
    ensures forall answers :: Answered(answers, previous, a, held, [], map[])
  {
  }

  lemma {:induction false} SummarizedKeys(previous: Option<Manifest>, a: Analysis, held: map<Id, Passage>, s: seq<Community>, summaries: map<Id, Passage>)
    requires Summarized(previous, a, held, s, summaries)
    ensures summaries.Keys == IdsOf(s)
  {
  }

  lemma {:induction false} SummarizedAnyOrder(previous: Option<Manifest>, a: Analysis, held: map<Id, Passage>, s: seq<Community>, t: seq<Community>, summaries: map<Id, Passage>)
    requires Summarized(previous, a, held, s, summaries) && forall c :: c in s <==> c in t
    ensures Summarized(previous, a, held, t, summaries)
  {
    hide FitSummary;
    assert IdsOf(s) == IdsOf(t);
  }

  function VanishedIds(previous: Option<Manifest>, s: seq<Community>): set<Id> {
    if previous.Some? then EntryIds(previous.value.entries) - IdsOf(s) else {}
  }

  /** What a completed derivation leaves behind, given the summaries it settled on. */
  ghost predicate Derived(was: map<Id, Passage>, previous: Option<Manifest>, a: Analysis, summaries: map<Id, Passage>,
                          passages: map<Id, Passage>, manifest: Option<Manifest>) {
    && Summarized(previous, a, was, a.communities, summaries)
    && passages == (was + summaries) - VanishedIds(previous, a.communities)
    && manifest == Some(Manifest(a.algorithm, EntriesOf(a.communities)))
  }

  // ------------------------------------------------------------- where a run stops

  /** The first of `n` writes that fails, counted from `from`, or `n`. */
  function FirstFailure(fails: nat -> bool, from: nat, n: nat): (k: nat)
    requires from <= n
    ensures from <= k <= n && (forall j | from <= j < k :: !fails(j)) && (k < n ==> fails(k))
    decreases n - from
  {
    if from == n || fails(from) then from else FirstFailure(fails, from + 1, n)
  }

  /** The store after the first `k` sources are written. */
  function Imported(was: map<Id, Passage>, s: seq<Community>, summaries: map<Id, Passage>, k: nat): map<Id, Passage>
    requires k <= |s| && forall c | c in s :: c.id in summaries
  {
    if k == 0 then was else Imported(was, s, summaries, k - 1)[s[k - 1].id := summaries[s[k - 1].id]]
  }

  lemma {:induction false} ImportedAt(was: map<Id, Passage>, s: seq<Community>, summaries: map<Id, Passage>, k: nat, id: Id)
    requires k <= |s| && forall c | c in s :: c.id in summaries
    ensures var after := Imported(was, s, summaries, k);
      if exists i :: 0 <= i < k && s[i].id == id then id in after && after[id] == summaries[id]
      else (id in after <==> id in was) && (id in after ==> after[id] == was[id])
  {
    if k > 0 {
      ImportedAt(was, s, summaries, k - 1, id);
      assert s[k - 1].id == id || ((exists i :: 0 <= i < k && s[i].id == id) <==> exists i :: 0 <= i < k - 1 && s[i].id == id);
    }
  }

  lemma {:induction false} ImportedWhole(was: map<Id, Passage>, s: seq<Community>, summaries: map<Id, Passage>)
    requires summaries.Keys == IdsOf(s) && forall c | c in s :: c.id in summaries
    ensures Imported(was, s, summaries, |s|) == was + summaries
  {
    hide Imported;
    var after := Imported(was, s, summaries, |s|);
    forall id ensures (id in after <==> id in was + summaries) && (id in after ==> after[id] == (was + summaries)[id]) {
      ImportedAt(was, s, summaries, |s|, id);
      if id in summaries {
        var c :| c in s && c.id == id;
        var i :| 0 <= i < |s| && s[i] == c;
      }
    }
    assert after.Keys == (was + summaries).Keys;
  }

  /** Where a run ends: before the manifest is written, with so many sources written,
      or after it, with so many of the old entries passed. */
  datatype Stop = AtSources(written: nat) | AtRetractions(passed: nat)

  function EntriesIn(previous: Option<Manifest>): seq<Entry> {
    if previous.Some? then previous.value.entries else []
  }

  predicate StopFits(previous: Option<Manifest>, a: Analysis, stop: Stop) {
    match stop
    case AtSources(written) => written <= |a.communities|
    case AtRetractions(passed) => passed <= |EntriesIn(previous)|
  }

  /** Nothing was left to do. */
  predicate Complete(previous: Option<Manifest>, stop: Stop) {
    stop == AtRetractions(|EntriesIn(previous)|)
  }

  /** What a run leaves behind, wherever it stops. */
  ghost function After(was: map<Id, Passage>, previous: Option<Manifest>, a: Analysis, summaries: map<Id, Passage>, stop: Stop)
    : (map<Id, Passage>, Option<Manifest>)
    requires StopFits(previous, a, stop) && summaries.Keys == IdsOf(a.communities)
  {
    AllHaveIds(a.communities);
    match stop
    case AtSources(written) => (Imported(was, a.communities, summaries, written), previous)
    case AtRetractions(passed) =>
      ((was + summaries) - (EntryIds(EntriesIn(previous)[..passed]) - IdsOf(a.communities)),
       Some(Manifest(a.algorithm, EntriesOf(a.communities))))
  }

  function RetractionFails(entries: seq<Entry>, s: seq<Community>, fails: nat -> bool): nat -> bool {
    (k: nat) => k < |entries| && entries[k].id !in IdsOf(s) && fails(k)
  }

  /** Where a run stops when these writes fail. */
  function StopOf(previous: Option<Manifest>, a: Analysis, failures: Failures): (stop: Stop)
    ensures StopFits(previous, a, stop)
  {
    var k, entries := FirstFailure(failures.source, 0, |a.communities|), EntriesIn(previous);
    if k < |a.communities| || failures.manifest then AtSources(k)
    else AtRetractions(FirstFailure(RetractionFails(entries, a.communities, failures.retraction), 0, |entries|))
  }

  /** Writes one source per community, up to the first write that fails. */
  method ImportSources(store: Artifact, s: seq<Community>, summaries: map<Id, Passage>, fails: nat -> bool) returns (done: bool)
    requires forall c | c in s :: c.id in summaries
    modifies store`passages
    ensures old(store.Valid()) ==> store.Valid()
    ensures store.passages == Imported(old(store.passages), s, summaries, FirstFailure(fails, 0, |s|))
    ensures done <==> FirstFailure(fails, 0, |s|) == |s|
  {
    for k := 0 to |s|
      invariant old(store.Valid()) ==> store.Valid()
      invariant store.passages == Imported(old(store.passages), s, summaries, k)
      invariant FirstFailure(fails, 0, |s|) == FirstFailure(fails, k, |s|)
    {
      if fails(k) {
        return false;
      }
      store.Import(s[k].id, summaries[s[k].id]);
    }
    return true;
  }

  /** Retracts the vanished ids, each listed by the previous manifest and not by the
      present one, up to the first retraction that fails. */
  method RetractVanished(store: Artifact, previous: seq<Entry>, s: seq<Community>, fails: nat -> bool) returns (done: bool)
    requires store.Valid() && store.manifest.Some? && EntryIds(store.manifest.value.entries) == IdsOf(s)
    modifies store`passages
    ensures store.Valid()
    ensures var passed := FirstFailure(RetractionFails(previous, s, fails), 0, |previous|);
      && store.passages == old(store.passages) - (EntryIds(previous[..passed]) - IdsOf(s))
      && (done <==> passed == |previous|)
  {
    var ids := IdsOf(s);
    ghost var failing := RetractionFails(previous, s, fails);
    for k := 0 to |previous|
      invariant store.Valid()
      invariant store.passages == old(store.passages) - (EntryIds(previous[..k]) - ids)
      invariant FirstFailure(failing, 0, |previous|) == FirstFailure(failing, k, |previous|)
    {
      EntriesMore(previous, k);
      if previous[k].id !in ids {
        if fails(k) {
          return false;
        }
        store.Retract(previous[k].id);
      }
    }
    return true;
  }

  lemma {:induction false} EntriesMore(s: seq<Entry>, k: nat)
    requires k < |s|
    ensures EntryIds(s[..k + 1]) == EntryIds(s[..k]) + {s[k].id}
  {
    assert s[..k + 1] == s[..k] + [s[k]];
    assert s[k] in s[..k + 1];
    forall o | o in s[..k] ensures o in s[..k + 1] { }
  }

  lemma {:induction false} EntryIdsAre(s: seq<Community>)
    ensures EntryIds(EntriesOf(s)) == IdsOf(s)
  {
    forall c | c in s ensures c.id in EntryIds(EntriesOf(s)) {
      var i :| 0 <= i < |s| && s[i] == c;
      assert EntriesOf(s)[i] in EntriesOf(s) && EntriesOf(s)[i].id == c.id;
    }
    forall e | e in EntriesOf(s) ensures e.id in IdsOf(s) {
      var i :| 0 <= i < |s| && EntriesOf(s)[i] == e;
      assert s[i] in s;
    }
  }

  /** The three writes that can fail: a source, the manifest, a retraction. */
  datatype Failures = Failures(source: nat -> bool, manifest: bool, retraction: nat -> bool)

  /** The writes, in their order: every source, then the manifest, then what vanished
      is retracted. The first that fails ends the run. */
  method WriteArtifact(store: Artifact, a: Analysis, summaries: map<Id, Passage>, failures: Failures)
    returns (done: bool)
    requires store.Valid() && summaries.Keys == IdsOf(a.communities)
    modifies store
    ensures store.Valid()
    ensures var stop := StopOf(old(store.manifest), a, failures);
      && (store.passages, store.manifest) == After(old(store.passages), old(store.manifest), a, summaries, stop)
      && (done <==> Complete(old(store.manifest), stop))
  {
    hide Imported, FirstFailure, EntriesOf;
    AllHaveIds(a.communities);
    EntryIdsAre(a.communities);
    ghost var was := store.passages;
    var previous := store.manifest;
    var imported := ImportSources(store, a.communities, summaries, failures.source);
    if !imported || failures.manifest {
      return false;
    }
    ImportedWhole(was, a.communities, summaries);
    store.ImportManifest(Manifest(a.algorithm, EntriesOf(a.communities)));
    done := RetractVanished(store, EntriesIn(previous), a.communities, failures.retraction);
  }

  /** One derivation. Whatever fails, wherever it stops, the manifest in the store has
      a source for every id it lists; until every summary is settled nothing is
      written, and then the store is what the stop leaves. Completed, it is the derived
      one, at the price of as many model calls as communities had no usable summary. */
  method Derive(store: Artifact, a: Analysis, dryRun: bool, configured: bool,
                answers: Model, failures: Failures)
    returns (r: Result<Report>, calls: nat, ghost settled: bool, ghost summaries: map<Id, Passage>)
    requires DistinctIds(a.communities) && store.Valid()
    modifies store
    ensures store.Valid()
    ensures dryRun ==> calls == 0 && !settled && r.Ok?
    ensures !settled ==> store.passages == old(store.passages) && store.manifest == old(store.manifest)
    ensures !settled && !dryRun ==>
      Needed(old(store.manifest), a.algorithm, old(store.passages), a.communities) > 0
      && (!configured || Unanswered(answers, old(store.manifest), a, old(store.passages)))
    ensures settled ==>
      && (Needed(old(store.manifest), a.algorithm, old(store.passages), a.communities) > 0 ==> configured)
      && Answered(answers, old(store.manifest), a, old(store.passages), a.communities, summaries)
      && Summarized(old(store.manifest), a, old(store.passages), a.communities, summaries)
      && summaries.Keys == IdsOf(a.communities)
      && (store.passages, store.manifest)
         == After(old(store.passages), old(store.manifest), a, summaries, StopOf(old(store.manifest), a, failures))
    ensures !dryRun ==> (r.Ok? <==> settled && Complete(old(store.manifest), StopOf(old(store.manifest), a, failures)))
    ensures r.Ok? ==>
      && r.value.retracted == |VanishedIds(old(store.manifest), a.communities)|
      && r.value.rebuilt == (old(store.manifest).Some? && old(store.manifest).value.algorithm != a.algorithm)
      && (dryRun ==> r.value.generated == Fresh(old(store.manifest), a.algorithm, a.communities))
      && r.value.generated + r.value.reused == |a.communities|
    ensures r.Ok? && !dryRun ==>
      && settled
      && Derived(old(store.passages), old(store.manifest), a, summaries, store.passages, store.manifest)
      && r.value.generated == calls == Needed(old(store.manifest), a.algorithm, old(store.passages), a.communities)
  {
    hide Needed, Fresh, ReusedPassage, Summarized, Answered, Unanswered, DistinctIds, After, StopOf, Derived;
    var previous := store.manifest;
    var held := store.passages;
    var unseen, torn := CountWork(previous, a.algorithm, held, a.communities);
    calls, settled, summaries := 0, false, map[];
    var vanished := VanishedIds(previous, a.communities);
    var rebuilt := previous.Some? && previous.value.algorithm != a.algorithm;
    if dryRun {
      return Ok(Report(unseen, |a.communities| - unseen, |vanished|, rebuilt)), calls, settled, summaries;
    }
    var chat: ChatClient? := null;
    if unseen + torn > 0 {
      if !configured {
        return Err("no chat client"), calls, settled, summaries;
      }
      chat := new ChatClient(answers);
    }
    var texts, generated := SummarizeAll(previous, a, held, chat, answers);
    calls := generated;
    if texts.Err? {
      return Err(texts.error), calls, settled, summaries;
    }
    settled, summaries := true, texts.value;
    SummarizedKeys(previous, a, held, a.communities, texts.value);
    var written := WriteArtifact(store, a, texts.value, failures);
    if !written {
      return Err("a write failed"), calls, settled, summaries;
    }
    CompleteIsDerived(held, previous, a, texts.value, StopOf(previous, a, failures));
    r := Ok(Report(generated, |a.communities| - generated, |vanished|, rebuilt));
  }

  /** A run nothing was left of has derived the artifact. */
  lemma CompleteIsDerived(was: map<Id, Passage>, previous: Option<Manifest>, a: Analysis, summaries: map<Id, Passage>, stop: Stop)
    requires Summarized(previous, a, was, a.communities, summaries) && Complete(previous, stop)
    ensures summaries.Keys == IdsOf(a.communities)
    ensures var (passages, manifest) := After(was, previous, a, summaries, stop);
      Derived(was, previous, a, summaries, passages, manifest)
  {
    hide FitSummary;
    assert EntriesIn(previous)[..|EntriesIn(previous)|] == EntriesIn(previous);
  }

  lemma {:induction false} AllHaveIds(s: seq<Community>)
    ensures forall c | c in s :: c.id in IdsOf(s)
  {
  }

  // ------------------------------------------------------------------ provenance

  /** The stored sources are exactly the manifest's ids. */
  ghost predicate Exact(passages: map<Id, Passage>, manifest: Option<Manifest>) {
    passages.Keys == if manifest.Some? then EntryIds(manifest.value.entries) else {}
  }

  /** Each entry's source holds a summary generated for its fingerprint, under the
      manifest's algorithm. */
  ghost predicate Provenance(passages: map<Id, Passage>, manifest: Option<Manifest>) {
    manifest.Some? ==> forall e | e in manifest.value.entries :: EntryKept(passages, manifest.value.algorithm, e)
  }

  ghost predicate EntryKept(passages: map<Id, Passage>, algorithm: Text, e: Entry) {
    e.id in passages && passages[e.id].origin == Origin(algorithm, e.fingerprint)
  }

  /** What the run is about to reuse was generated for the fingerprint it is reused
      for. */
  ghost predicate Trusted(passages: map<Id, Passage>, manifest: Option<Manifest>, a: Analysis) {
    forall c | c in a.communities :: ReuseRight(passages, manifest, a.algorithm, c)
  }

  ghost predicate ReuseRight(passages: map<Id, Passage>, manifest: Option<Manifest>, algorithm: Text, c: Community) {
    var p := ReusedPassage(manifest, algorithm, passages, c);
    p.Some? ==> p.value.origin == Origin(algorithm, c.fingerprint)
  }

  lemma {:induction false} LastListed(entries: seq<Entry>, fingerprint: Text)
    ensures var id := LastWith(entries, fingerprint); id.Some? ==> Entry(id.value, fingerprint) in entries
  {
    if entries != [] && entries[|entries| - 1].fingerprint != fingerprint {
      LastListed(entries[..|entries| - 1], fingerprint);
    }
  }

  /** A store whose own manifest tells the truth can be trusted for any analysis. */
  lemma {:induction false} ProvenanceIsTrusted(passages: map<Id, Passage>, manifest: Option<Manifest>, a: Analysis)
    requires Provenance(passages, manifest)
    ensures Trusted(passages, manifest, a)
  {
    forall c | c in a.communities ensures ReuseRight(passages, manifest, a.algorithm, c) {
      var id := ReusedId(manifest, a.algorithm, c);
      if id.Some? {
        LastListed(manifest.value.entries, c.fingerprint);
        assert EntryKept(passages, a.algorithm, Entry(id.value, c.fingerprint));
      }
    }
  }

  lemma {:induction false} SourceAfter(was: map<Id, Passage>, previous: Option<Manifest>, a: Analysis, summaries: map<Id, Passage>,
                    passages: map<Id, Passage>, manifest: Option<Manifest>, c: Community)
    requires Derived(was, previous, a, summaries, passages, manifest) && c in a.communities
    ensures c.id in passages && passages[c.id] == summaries[c.id]
    ensures EntryKept(passages, a.algorithm, Entry(c.id, c.fingerprint)) <==> ReuseRight(was, previous, a.algorithm, c)
  {
    hide ReusedPassage;
    assert FitSummary(previous, a.algorithm, was, c, summaries);
    assert c.id in IdsOf(a.communities);
  }

  /** After a completed derivation the manifest tells the truth exactly when what it
      reused was right. */
  lemma {:induction false} ProvenanceExactly(was: map<Id, Passage>, previous: Option<Manifest>, a: Analysis, summaries: map<Id, Passage>,
                          passages: map<Id, Passage>, manifest: Option<Manifest>)
    requires Derived(was, previous, a, summaries, passages, manifest)
    ensures Provenance(passages, manifest) <==> Trusted(was, previous, a)
  {
    hide ReuseRight, EntryKept, Derived;
    assert manifest == Some(Manifest(a.algorithm, EntriesOf(a.communities))) by { ManifestAfter(was, previous, a, summaries, passages, manifest); }
    var entries := EntriesOf(a.communities);
    forall i | 0 <= i < |entries|
      ensures EntryKept(passages, a.algorithm, entries[i]) <==> ReuseRight(was, previous, a.algorithm, a.communities[i])
    {
      SourceAfter(was, previous, a, summaries, passages, manifest, a.communities[i]);
    }
    if Provenance(passages, manifest) {
      forall c | c in a.communities ensures ReuseRight(was, previous, a.algorithm, c) {
        var i :| 0 <= i < |a.communities| && a.communities[i] == c;
        assert entries[i] in entries;
      }
    }
    if Trusted(was, previous, a) {
      forall e | e in entries ensures EntryKept(passages, a.algorithm, e) {
        var i :| 0 <= i < |entries| && entries[i] == e;
        assert a.communities[i] in a.communities;
      }
    }
  }

  lemma {:induction false} ManifestAfter(was: map<Id, Passage>, previous: Option<Manifest>, a: Analysis, summaries: map<Id, Passage>,
                      passages: map<Id, Passage>, manifest: Option<Manifest>)
    requires Derived(was, previous, a, summaries, passages, manifest)
    ensures manifest == Some(Manifest(a.algorithm, EntriesOf(a.communities)))
    ensures passages.Keys == (was.Keys + IdsOf(a.communities)) - VanishedIds(previous, a.communities)
  {
  }

  /** An artifact as completed derivations leave it. */
  ghost predicate Clean(passages: map<Id, Passage>, manifest: Option<Manifest>) {
    Exact(passages, manifest) && Provenance(passages, manifest)
  }

  /** Completed derivations keep the artifact clean. */
  lemma {:induction false} DerivedClean(was: map<Id, Passage>, previous: Option<Manifest>, a: Analysis, summaries: map<Id, Passage>,
                     passages: map<Id, Passage>, manifest: Option<Manifest>)
    requires Clean(was, previous) && Derived(was, previous, a, summaries, passages, manifest)
    ensures Clean(passages, manifest)
  {
    hide Provenance, Derived;
    ProvenanceIsTrusted(was, previous, a);
    ProvenanceExactly(was, previous, a, summaries, passages, manifest);
    ManifestAfter(was, previous, a, summaries, passages, manifest);
    EntryIdsAre(a.communities);
  }

  /** Over a clean store nothing is ever torn: an unchanged analysis needs no model
      call at all. */
  lemma {:induction false} UnchangedNeedsNothing(passages: map<Id, Passage>, manifest: Option<Manifest>, a: Analysis, s: seq<Community>)
    requires Exact(passages, manifest) && manifest.Some? && manifest.value.algorithm == a.algorithm
    requires forall c | c in s :: Entry(c.id, c.fingerprint) in manifest.value.entries
    ensures Needed(manifest, a.algorithm, passages, s) == 0
  {
    if s != [] {
      var n := |s| - 1;
      UnchangedNeedsNothing(passages, manifest, a, s[..n]);
      Listed(manifest.value.entries, s[n].id, s[n].fingerprint);
      LastListed(manifest.value.entries, s[n].fingerprint);
    }
  }

  lemma {:induction false} Listed(entries: seq<Entry>, id: Id, fingerprint: Text)
    requires Entry(id, fingerprint) in entries
    ensures LastWith(entries, fingerprint).Some?
  {
    if entries[|entries| - 1].fingerprint != fingerprint {
      Listed(entries[..|entries| - 1], id, fingerprint);
    }
  }

  // ------------------------------------------------------------------- torn runs

  /** The sources written overwrite no source the manifest lists for something else. */
  ghost predicate Harmless(m: Manifest, a: Analysis, written: nat)
    requires written <= |a.communities|
  {
    forall i, e | 0 <= i < written && e in m.entries :: Respects(m, a, a.communities[i], e)
  }

  /** Writing `c` leaves the source of `e` one for its fingerprint. */
  predicate Respects(m: Manifest, a: Analysis, c: Community, e: Entry) {
    e.id == c.id ==> e.fingerprint == c.fingerprint && m.algorithm == a.algorithm
  }

  /** Over a truthful store, every summary a run settles on is one generated for its
      community's fingerprint. */
  lemma {:induction false} SettledRight(was: map<Id, Passage>, previous: Option<Manifest>, a: Analysis, summaries: map<Id, Passage>, c: Community)
    requires Provenance(was, previous) && Summarized(previous, a, was, a.communities, summaries) && c in a.communities
    ensures c.id in summaries && summaries[c.id].origin == Origin(a.algorithm, c.fingerprint)
  {
    hide Provenance, ReusedPassage;
    ProvenanceIsTrusted(was, previous, a);
    assert ReuseRight(was, previous, a.algorithm, c);
    assert FitSummary(previous, a.algorithm, was, c, summaries);
  }

  /** The source of `id` in a store torn after `k` sources. */
  lemma {:induction false} TornSource(was: map<Id, Passage>, previous: Option<Manifest>, a: Analysis, summaries: map<Id, Passage>, k: nat, id: Id)
    requires Provenance(was, previous) && Summarized(previous, a, was, a.communities, summaries)
    requires k <= |a.communities| && forall c | c in a.communities :: c.id in summaries
    ensures var torn := Imported(was, a.communities, summaries, k);
      && (forall i | 0 <= i < k && a.communities[i].id == id ::
            id in torn && torn[id].origin == Origin(a.algorithm, a.communities[i].fingerprint))
      && ((forall i | 0 <= i < k :: a.communities[i].id != id) ==>
            (id in torn <==> id in was) && (id in torn ==> torn[id] == was[id]))
  {
    hide Imported, Provenance, Summarized;
    ImportedAt(was, a.communities, summaries, k, id);
    forall i | 0 <= i < k && a.communities[i].id == id
      ensures summaries[id].origin == Origin(a.algorithm, a.communities[i].fingerprint)
    {
      SettledRight(was, previous, a, summaries, a.communities[i]);
    }
  }

  /** A run torn after `k` sources leaves a manifest that tells the truth exactly when
      none of them overwrote a source the manifest lists for something else. */
  lemma {:induction false} TornExactly(was: map<Id, Passage>, m: Manifest, a: Analysis, summaries: map<Id, Passage>, k: nat)
    requires Provenance(was, Some(m)) && Summarized(Some(m), a, was, a.communities, summaries)
    requires k <= |a.communities| && forall c | c in a.communities :: c.id in summaries
    ensures Provenance(Imported(was, a.communities, summaries, k), Some(m)) <==> Harmless(m, a, k)
  {
    hide Imported, Summarized;
    var torn := Imported(was, a.communities, summaries, k);
    forall e | e in m.entries
      ensures EntryKept(torn, m.algorithm, e) <==> forall i | 0 <= i < k :: Respects(m, a, a.communities[i], e)
    {
      assert EntryKept(was, m.algorithm, e);
      TornSource(was, Some(m), a, summaries, k, e.id);
    }
  }

  /** The next derivation, of any analysis `b`, reuses only what was generated for its
      fingerprints exactly when no source it would reuse was overwritten for another. */
  lemma {:induction false} NextRunTrusts(was: map<Id, Passage>, m: Manifest, a: Analysis, summaries: map<Id, Passage>, k: nat, b: Analysis)
    requires Provenance(was, Some(m)) && Summarized(Some(m), a, was, a.communities, summaries)
    requires k <= |a.communities| && forall c | c in a.communities :: c.id in summaries
    ensures Trusted(Imported(was, a.communities, summaries, k), Some(m), b)
       <==> forall i, c | 0 <= i < k && c in b.communities && ReusedId(Some(m), b.algorithm, c) == Some(a.communities[i].id) ::
              Respects(m, a, a.communities[i], Entry(a.communities[i].id, c.fingerprint))
  {
    hide Imported, Summarized, Provenance;
    var torn := Imported(was, a.communities, summaries, k);
    ProvenanceIsTrusted(was, Some(m), b);
    forall c | c in b.communities
      ensures ReuseRight(torn, Some(m), b.algorithm, c)
         <==> forall i | 0 <= i < k && ReusedId(Some(m), b.algorithm, c) == Some(a.communities[i].id) ::
                Respects(m, a, a.communities[i], Entry(a.communities[i].id, c.fingerprint))
    {
      assert ReuseRight(was, Some(m), b.algorithm, c);
      var id := ReusedId(Some(m), b.algorithm, c);
      if id.Some? { TornSource(was, Some(m), a, summaries, k, id.value); }
    }
  }

  /** So a completed derivation after a torn one puts the manifest right exactly then. */
  lemma {:induction false} RepairedExactly(was: map<Id, Passage>, m: Manifest, a: Analysis, summaries: map<Id, Passage>, k: nat,
                                           b: Analysis, next: map<Id, Passage>, passages: map<Id, Passage>, manifest: Option<Manifest>)
    requires Provenance(was, Some(m)) && Summarized(Some(m), a, was, a.communities, summaries)
    requires k <= |a.communities| && forall c | c in a.communities :: c.id in summaries
    requires Derived(Imported(was, a.communities, summaries, k), Some(m), b, next, passages, manifest)
    ensures Provenance(passages, manifest)
       <==> forall i, c | 0 <= i < k && c in b.communities && ReusedId(Some(m), b.algorithm, c) == Some(a.communities[i].id) ::
              Respects(m, a, a.communities[i], Entry(a.communities[i].id, c.fingerprint))
  {
    hide Imported, Summarized, Provenance, Trusted, Derived;
    NextRunTrusts(was, m, a, summaries, k, b);
    ProvenanceExactly(Imported(was, a.communities, summaries, k), Some(m), b, next, passages, manifest);
  }

  // ------------------------------------------------------------------- histories

  /** One run of an artifact's life: where it stopped and what it left. */
  datatype Life = Life(a: Analysis, summaries: map<Id, Passage>, stop: Stop, passages: map<Id, Passage>, manifest: Option<Manifest>)

  function Before(runs: seq<Life>, i: nat): (map<Id, Passage>, Option<Manifest>)
    requires i <= |runs|
  {
    if i == 0 then (map[], None) else (runs[i - 1].passages, runs[i - 1].manifest)
  }

  ghost predicate RunHappens(runs: seq<Life>, i: nat)
    requires i < |runs|
  {
    var run, (was, previous) := runs[i], Before(runs, i);
    && Summarized(previous, run.a, was, run.a.communities, run.summaries) && run.summaries.Keys == IdsOf(run.a.communities)
    && StopFits(previous, run.a, run.stop)
    && (run.passages, run.manifest) == After(was, previous, run.a, run.summaries, run.stop)
  }

  /** The first run meets no artifact, and each later one what the last left, completed
      or not. */
  ghost predicate Happened(runs: seq<Life>) {
    forall i | 0 <= i < |runs| :: RunHappens(runs, i)
  }

  /** The run did not stop before its manifest, or what it wrote by then did no harm. */
  ghost predicate StoppedWell(previous: Option<Manifest>, a: Analysis, stop: Stop)
    requires StopFits(previous, a, stop)
  {
    stop.AtSources? && previous.Some? ==> Harmless(previous.value, a, stop.written)
  }

  /** A run past its manifest leaves the truth, whatever was still to be retracted. */
  lemma {:induction false} RetractingKeeps(was: map<Id, Passage>, previous: Option<Manifest>, a: Analysis, summaries: map<Id, Passage>, passed: nat)
    requires Provenance(was, previous) && Summarized(previous, a, was, a.communities, summaries)
    requires summaries.Keys == IdsOf(a.communities) && StopFits(previous, a, AtRetractions(passed))
    ensures var (passages, manifest) := After(was, previous, a, summaries, AtRetractions(passed)); Provenance(passages, manifest)
  {
    hide Provenance, Summarized, Imported;
    var (passages, manifest) := After(was, previous, a, summaries, AtRetractions(passed));
    var entries := EntriesOf(a.communities);
    forall e | e in entries ensures EntryKept(passages, a.algorithm, e) {
      var i :| 0 <= i < |entries| && entries[i] == e;
      SettledRight(was, previous, a, summaries, a.communities[i]);
    }
    assert Provenance(passages, manifest) by { TruthfulEntries(passages, a, entries); }
  }

  lemma TruthfulEntries(passages: map<Id, Passage>, a: Analysis, entries: seq<Entry>)
    requires forall e | e in entries :: EntryKept(passages, a.algorithm, e)
    ensures Provenance(passages, Some(Manifest(a.algorithm, entries)))
  {
  }

  /** One run over a truthful store. */
  lemma {:induction false} RunExactly(was: map<Id, Passage>, previous: Option<Manifest>, a: Analysis, summaries: map<Id, Passage>, stop: Stop)
    requires Provenance(was, previous) && Summarized(previous, a, was, a.communities, summaries)
    requires summaries.Keys == IdsOf(a.communities) && StopFits(previous, a, stop)
    ensures var (passages, manifest) := After(was, previous, a, summaries, stop);
      Provenance(passages, manifest) <==> StoppedWell(previous, a, stop)
  {
    hide Summarized, Imported, Harmless;
    AllHaveIds(a.communities);
    match stop
    case AtRetractions(passed) => RetractingKeeps(was, previous, a, summaries, passed);
    case AtSources(written) =>
      if previous.Some? { TornExactly(was, previous.value, a, summaries, written); }
  }

  ghost predicate RanWell(runs: seq<Life>, i: nat)
    requires i < |runs|
  {
    RunHappens(runs, i) && StoppedWell(Before(runs, i).1, runs[i].a, runs[i].stop)
  }

  /** The manifest told the truth before the first run and after each of the first `n`. */
  ghost predicate Truthful(runs: seq<Life>, n: nat)
    requires n <= |runs|
  {
    forall i | 0 <= i <= n :: Provenance(Before(runs, i).0, Before(runs, i).1)
  }

  /** Over any history of runs, completed or stopped anywhere, the manifest tells the
      truth after every one of them exactly when each stopped well. */
  lemma {:induction false} HistoryExactly(runs: seq<Life>, n: nat)
    requires Happened(runs) && n <= |runs|
    ensures Truthful(runs, n)
       <==> forall i | 0 <= i < n :: RanWell(runs, i)
  {
    hide Provenance, Summarized, After, StoppedWell;
    if n == 0 {
      EmptyIsClean();
    } else {
      HistoryExactly(runs, n - 1);
      assert RunHappens(runs, n - 1);
      var (was, previous) := Before(runs, n - 1);
      assert Truthful(runs, n) <==> Truthful(runs, n - 1) && Provenance(Before(runs, n).0, Before(runs, n).1);
      if Truthful(runs, n - 1) {
        assert Provenance(was, previous);
        RunExactly(was, previous, runs[n - 1].a, runs[n - 1].summaries, runs[n - 1].stop);
        assert RanWell(runs, n - 1) <==> Provenance(Before(runs, n).0, Before(runs, n).1);
      }
    }
  }

  ghost predicate RunCompletes(runs: seq<Life>, i: nat)
    requires i < |runs|
  {
    var run, (was, previous) := runs[i], Before(runs, i);
    Derived(was, previous, run.a, run.summaries, run.passages, run.manifest)
  }

  ghost predicate Completed(runs: seq<Life>) {
    forall i | 0 <= i < |runs| :: RunCompletes(runs, i)
  }

  /** After any sequence of completed derivations the sources are the manifest's ids,
      each with a summary generated for its fingerprint under its algorithm. */
  lemma {:induction false} CompletedRunsAreClean(runs: seq<Life>, i: nat)
    requires Completed(runs) && i < |runs|
    ensures Clean(runs[i].passages, runs[i].manifest)
  {
    hide Derived, Clean;
    assert RunCompletes(runs, i);
    if i == 0 {
      EmptyIsClean();
      DerivedClean(map[], None, runs[0].a, runs[0].summaries, runs[0].passages, runs[0].manifest);
    } else {
      CompletedRunsAreClean(runs, i - 1);
      DerivedClean(runs[i - 1].passages, runs[i - 1].manifest, runs[i].a, runs[i].summaries, runs[i].passages, runs[i].manifest);
    }
  }

  lemma {:induction false} EmptyIsClean()
    ensures Clean(map[], None)
  {
  }

  // --------------------------------------------------------- a torn run that misleads

  /** Two communities that swapped their ids since the manifest was written. */
  function SwapManifest(algorithm: Text, f: Text, g: Text): Manifest {
    Manifest(algorithm, [Entry([0], f), Entry([1], g)])
  }

  function SwapAnalysis(algorithm: Text, f: Text, g: Text): Analysis {
    Analysis(algorithm, [Community([0], 0, g, []), Community([1], 0, f, [])])
  }

  /** The second source write fails. */
  const SECOND_WRITE := Failures(k => k == 1, false, k => false)

  /** Every write succeeds. */
  const NO_FAILURE := Failures(k => false, false, k => false)

  lemma SwapReuse(algorithm: Text, f: Text, g: Text)
    requires f != g
    ensures var previous, a := Some(SwapManifest(algorithm, f, g)), SwapAnalysis(algorithm, f, g);
      && ReusedId(previous, algorithm, a.communities[0]) == Some([1])
      && ReusedId(previous, algorithm, a.communities[1]) == Some([0])
      && IdsOf(a.communities) == {[0], [1]} && EntryIds(previous.value.entries) == {[0], [1]}
  {
    var entries := SwapManifest(algorithm, f, g).entries;
    var a := SwapAnalysis(algorithm, f, g);
    assert entries[..1] == [Entry([0], f)] && [Entry([0], f)][..0] == [];
    assert LastWith(entries, g) == Some([1]) && LastWith(entries, f) == Some([0]);
    assert entries[0] in entries && entries[1] in entries;
    assert a.communities[0] in a.communities && a.communities[1] in a.communities;
  }

  lemma SwapNeedsNothing(algorithm: Text, f: Text, g: Text, held: map<Id, Passage>)
    requires f != g && [0] in held && [1] in held
    ensures Needed(Some(SwapManifest(algorithm, f, g)), algorithm, held, SwapAnalysis(algorithm, f, g).communities) == 0
  {
    SwapReuse(algorithm, f, g);
    var s := SwapAnalysis(algorithm, f, g).communities;
    var previous := Some(SwapManifest(algorithm, f, g));
    assert s[..1] == [s[0]] && [s[0]][..0] == [];
    assert ReusedPassage(previous, algorithm, held, s[0]).Some? && ReusedPassage(previous, algorithm, held, s[1]).Some?;
    assert Needed(previous, algorithm, held, [s[0]]) == 0;
  }

  /** The first summary settled on is the second's stored one. */
  lemma SwapSettled(algorithm: Text, f: Text, g: Text, held: map<Id, Passage>, summaries: map<Id, Passage>)
    requires f != g && [0] in held && [1] in held
    requires var a := SwapAnalysis(algorithm, f, g);
      Summarized(Some(SwapManifest(algorithm, f, g)), a, held, a.communities, summaries)
    ensures summaries == map[[0] := held[[1]], [1] := held[[0]]]
  {
    SwapReuse(algorithm, f, g);
    var a, previous := SwapAnalysis(algorithm, f, g), Some(SwapManifest(algorithm, f, g));
    assert FitSummary(previous, algorithm, held, a.communities[0], summaries);
    assert FitSummary(previous, algorithm, held, a.communities[1], summaries);
  }

  lemma SwapStops(previous: Option<Manifest>, algorithm: Text, f: Text, g: Text)
    ensures StopOf(previous, SwapAnalysis(algorithm, f, g), SECOND_WRITE) == AtSources(1)
    ensures Complete(previous, StopOf(previous, SwapAnalysis(algorithm, f, g), NO_FAILURE))
  {
    assert SECOND_WRITE.source(1) && !SECOND_WRITE.source(0);
    assert |SwapAnalysis(algorithm, f, g).communities| == 2;
    assert FirstFailure(SECOND_WRITE.source, 1, 2) == 1;
  }

  /** The run that stops at its second source write leaves a store every source of
      which is accounted for, and in which the next run takes one community's summary
      for the other's. */
  lemma {:induction false} TornRunMisleads(algorithm: Text, f: Text, g: Text, p: Passage, q: Passage, summaries: map<Id, Passage>)
    requires f != g && p.origin == Origin(algorithm, f) && q.origin == Origin(algorithm, g)
    requires var a := SwapAnalysis(algorithm, f, g);
      && Summarized(Some(SwapManifest(algorithm, f, g)), a, map[[0] := p, [1] := q], a.communities, summaries)
      && summaries.Keys == IdsOf(a.communities)
    ensures
      var m, a, before := SwapManifest(algorithm, f, g), SwapAnalysis(algorithm, f, g), map[[0] := p, [1] := q];
      var (torn, manifest) := After(before, Some(m), a, summaries, StopOf(Some(m), a, SECOND_WRITE));
      && Clean(before, Some(m)) && manifest == Some(m) && torn == map[[0] := q, [1] := q]
      && Accounted(torn, manifest) && !Provenance(torn, manifest) && !Trusted(torn, manifest, a)
      && !Harmless(m, a, 1)
  {
    var m, a, before := SwapManifest(algorithm, f, g), SwapAnalysis(algorithm, f, g), map[[0] := p, [1] := q];
    SwapReuse(algorithm, f, g);
    SwapSettled(algorithm, f, g, before, summaries);
    SwapStops(Some(m), algorithm, f, g);
    AllHaveIds(a.communities);
    var torn := before[[0] := q];
    assert Imported(before, a.communities, summaries, 1) == torn;
    assert m.entries[0] == Entry([0], f) && !EntryKept(torn, algorithm, m.entries[0]);
    assert a.communities[1] in a.communities && !ReuseRight(torn, Some(m), algorithm, a.communities[1]);
    assert !Respects(m, a, a.communities[0], m.entries[0]);
  }

  /** Both runs from end to end: the torn one, and the one after it, which completes
      without a model call and writes a manifest that does not tell the truth. */
  method TornThenRetried(algorithm: Text, f: Text, g: Text, p: Passage, q: Passage, answers: Model)
    returns (store: Artifact, ghost before: map<Id, Passage>, calls: nat)
    requires f != g && p.origin == Origin(algorithm, f) && q.origin == Origin(algorithm, g)
    ensures Clean(before, Some(SwapManifest(algorithm, f, g)))
    ensures calls == 0 && store.manifest == Some(Manifest(algorithm, EntriesOf(SwapAnalysis(algorithm, f, g).communities)))
    ensures !Provenance(store.passages, store.manifest)
  {
    hide Summarized, Provenance, Trusted, Clean, Derived, After, Needed, StopOf, Harmless, DistinctIds;
    var m, a := SwapManifest(algorithm, f, g), SwapAnalysis(algorithm, f, g);
    SwapDistinct(algorithm, f, g);
    SwapReuse(algorithm, f, g);
    SwapStops(Some(m), algorithm, f, g);
    store := new Artifact();
    store.Import([0], p);
    store.Import([1], q);
    store.ImportManifest(m);
    before := store.passages;
    assert before == map[[0] := p, [1] := q];
    SwapNeedsNothing(algorithm, f, g, before);
    ghost var settled, summaries;
    var r;
    r, calls, settled, summaries := Derive(store, a, false, false, answers, SECOND_WRITE);
    TornRunMisleads(algorithm, f, g, p, q, summaries);
    ghost var torn := store.passages;
    SwapNeedsNothing(algorithm, f, g, torn);
    r, calls, settled, summaries := Derive(store, a, false, false, answers, NO_FAILURE);
    ProvenanceExactly(torn, Some(m), a, summaries, store.passages, store.manifest);
    ManifestAfter(torn, Some(m), a, summaries, store.passages, store.manifest);
  }

  lemma SwapDistinct(algorithm: Text, f: Text, g: Text)
    ensures DistinctIds(SwapAnalysis(algorithm, f, g).communities)
  {
  }

  // ------------------------------------------------------- the ledger and the order

  /** Of the entries with a fingerprint the last one is reused. */
  lemma {:induction false} LastWithIsLast(entries: seq<Entry>, fingerprint: Text, k: nat)
    requires k < |entries| && entries[k].fingerprint == fingerprint
    requires forall j | k < j < |entries| :: entries[j].fingerprint != fingerprint
    ensures LastWith(entries, fingerprint) == Some(entries[k].id)
  {
    if k < |entries| - 1 { LastWithIsLast(entries[..|entries| - 1], fingerprint, k); }
  }

  /** The communities of one level, in order. */
  function AtLevel(s: seq<Community>, level: nat): seq<Community> {
    if s == [] then [] else (if s[0].level == level then [s[0]] else []) + AtLevel(s[1..], level)
  }

  lemma {:induction false} InsertKeepsOrder(c: Community, s: seq<Community>, level: nat)
    ensures AtLevel(InsertByLevel(c, s), level) == AtLevel([c] + s, level)
  {
    assert ([c] + s)[1..] == s;
    if s != [] && s[0].level < c.level {
      InsertKeepsOrder(c, s[1..], level);
      assert ([c] + s[1..])[1..] == s[1..];
      assert ([s[0]] + InsertByLevel(c, s[1..]))[1..] == InsertByLevel(c, s[1..]);
    }
  }

  /** Communities of one level are summarized in the order they were given. */
  lemma {:induction false} ByLevelIsStable(s: seq<Community>, level: nat)
    ensures AtLevel(ByLevel(s), level) == AtLevel(s, level)
  {
    if s != [] {
      ByLevelIsStable(s[1..], level);
      InsertKeepsOrder(s[0], ByLevel(s[1..]), level);
      assert ([s[0]] + ByLevel(s[1..]))[1..] == ByLevel(s[1..]);
    }
  }
}
