/** Hot reloads of the keyring under every interleaving (`apply_reload` and
    `SharedKeyring` in `src/auth.rs`). */
module Reload {
  import opened Common
  import opened Auth

  /** The names a reload changes. */
  datatype Diff = Diff(added: seq<string>, removed: seq<string>, rotated: seq<string>, regranted: seq<string>)

  predicate Empty(d: Diff) {
    d.added == [] && d.removed == [] && d.rotated == [] && d.regranted == []
  }

  predicate Added(was: Keyring, next: Keyring, k: Key) {
    !HasName(was.keys, k.name)
  }

  predicate Rotated(was: Keyring, next: Keyring, k: Key) {
    HasName(was.keys, k.name) && k !in was.keys
  }

  predicate Regranted(was: Keyring, next: Keyring, k: Key) {
    HasName(was.keys, k.name) && GrantOf(was, k.name) != GrantOf(next, k.name)
  }

  predicate Removed(was: Keyring, next: Keyring, k: Key) {
    !HasName(next.keys, k.name)
  }

  /** The names of the keys for which `test` holds, in order. */
  function NamesWhere(keys: seq<Key>, was: Keyring, next: Keyring, test: (Keyring, Keyring, Key) -> bool): seq<string> {
    if keys == [] then []
    else
      var init, last := NamesWhere(keys[..|keys| - 1], was, next, test), keys[|keys| - 1];
      if test(was, next, last) then init + [last.name] else init
  }

  lemma {:induction false} NoneWhere(keys: seq<Key>, was: Keyring, next: Keyring, test: (Keyring, Keyring, Key) -> bool)
    ensures NamesWhere(keys, was, next, test) == [] <==> forall k | k in keys :: !test(was, next, k)
  {
    if keys != [] {
      var n := |keys| - 1;
      NoneWhere(keys[..n], was, next, test);
      assert keys == keys[..n] + [keys[n]];
    }
  }

  /** What differs, by name: keys of `next` that are new, or whose token or effective
      grant changed, and keys of `was` that are gone. */
  function DiffOf(was: Keyring, next: Keyring): Diff {
    Diff(NamesWhere(next.keys, was, next, Added), NamesWhere(was.keys, was, next, Removed),
         NamesWhere(next.keys, was, next, Rotated), NamesWhere(next.keys, was, next, Regranted))
  }

  function TokenOf(keys: seq<Key>, name: string): Option<string> {
    if keys == [] then None
    else if keys[|keys| - 1].name == name then Some(keys[|keys| - 1].token)
    else TokenOf(keys[..|keys| - 1], name)
  }

  lemma {:induction false} TokenFound(keys: seq<Key>, name: string)
    requires DistinctNames(keys)
    ensures TokenOf(keys, name).Some? <==> HasName(keys, name)
    ensures forall token :: TokenOf(keys, name) == Some(token) <==> Key(name, token) in keys
  {
    if keys != [] {
      var n := |keys| - 1;
      TokenFound(keys[..n], name);
      assert keys == keys[..n] + [keys[n]];
      assert forall k | k in keys[..n] :: k.name != keys[n].name;
      if HasName(keys[..n], name) {
        var i :| 0 <= i < n && keys[..n][i].name == name;
        assert keys[i].name == name;
      }
    }
  }

  method DiffRings(was: Keyring, next: Keyring) returns (diff: Diff)
    requires DistinctNames(was.keys)
    ensures diff == DiffOf(was, next)
  {
    hide HasName, GrantOf, DistinctNames;
    var tokens: map<string, string> := map[];
    for i := 0 to |was.keys|
      invariant forall name :: TokenOf(was.keys[..i], name) == if name in tokens then Some(tokens[name]) else None
    {
      assert was.keys[..i + 1][..i] == was.keys[..i];
      tokens := tokens[was.keys[i].name := was.keys[i].token];
    }
    assert was.keys[..|was.keys|] == was.keys;
    diff := Diff([], [], [], []);
    for i := 0 to |next.keys|
      invariant diff == Diff(NamesWhere(next.keys[..i], was, next, Added), [],
                             NamesWhere(next.keys[..i], was, next, Rotated), NamesWhere(next.keys[..i], was, next, Regranted))
    {
      assert next.keys[..i + 1][..i] == next.keys[..i];
      var k := next.keys[i];
      TokenFound(was.keys, k.name);
      if k.name !in tokens {
        diff := diff.(added := diff.added + [k.name]);
      } else {
        if tokens[k.name] != k.token {
          diff := diff.(rotated := diff.rotated + [k.name]);
        }
        if GrantOf(was, k.name) != GrantOf(next, k.name) {
          diff := diff.(regranted := diff.regranted + [k.name]);
        }
      }
    }
    assert next.keys[..|next.keys|] == next.keys;
    for i := 0 to |was.keys|
      invariant diff == DiffOf(was, next).(removed := NamesWhere(was.keys[..i], was, next, Removed))
    {
      assert was.keys[..i + 1][..i] == was.keys[..i];
      if !HasName(next.keys, was.keys[i].name) {
        diff := diff.(removed := diff.removed + [was.keys[i].name]);
      }
    }
  }

  // --------------------------------------------------------- what a caller can see

  /** Both rings authenticate, recognize and grant alike, whatever they are asked. */
  ghost predicate SameToCallers(a: Keyring, b: Keyring) {
    forall s: string :: SameAnswers(a, b, s)
  }

  ghost predicate SameAnswers(a: Keyring, b: Keyring, s: string) {
    && LastMatch(a.keys, s) == LastMatch(b.keys, s)
    && Recognizes(a, s) == Recognizes(b, s)
    && GrantOf(a, s) == GrantOf(b, s)
  }

  lemma EmptyMeans(was: Keyring, next: Keyring)
    requires Sound(was) && Sound(next)
    ensures Empty(DiffOf(was, next)) <==>
      (forall k | k in next.keys :: k in was.keys && GrantOf(was, k.name) == GrantOf(next, k.name))
      && (forall k | k in was.keys :: HasName(next.keys, k.name))
  {
    hide Sound, GrantOf, NamesWhere, HasName;
    NoneWhere(next.keys, was, next, Added);
    NoneWhere(next.keys, was, next, Rotated);
    NoneWhere(next.keys, was, next, Regranted);
    NoneWhere(was.keys, was, next, Removed);
    forall k | k in was.keys ensures HasName(was.keys, k.name) { NameIn(was.keys, k); }
  }

  lemma NameIn(keys: seq<Key>, k: Key)
    requires k in keys
    ensures HasName(keys, k.name)
  {
  }

  /** The rings hold the same keys when neither changes a name or a token. */
  lemma SameKeys(was: Keyring, next: Keyring)
    requires Sound(was) && Sound(next) && (forall k | k in next.keys :: k in was.keys)
    requires forall k | k in was.keys :: HasName(next.keys, k.name)
    ensures forall k :: k in was.keys <==> k in next.keys
  {
    forall k | k in was.keys ensures k in next.keys {
      var i :| 0 <= i < |next.keys| && next.keys[i].name == k.name;
      assert next.keys[i] in next.keys;
    }
  }

  lemma NamesAgree(a: seq<Key>, b: seq<Key>, name: string)
    requires forall k | k in a :: k in b
    ensures HasName(a, name) ==> HasName(b, name)
  {
    if HasName(a, name) {
      var i :| 0 <= i < |a| && a[i].name == name;
      assert a[i] in a;
      NameIn(b, a[i]);
    }
  }

  /** A name's grant is that of its key when it has one, and the default otherwise. */
  lemma GrantByKey(ring: Keyring, name: string)
    requires Sound(ring)
    ensures GrantOf(ring, name) == if HasName(ring.keys, name) then GrantOf(ring, name)
      else if HasName(ring.keys, BaseKey(name)) then GrantOf(ring, BaseKey(name)) else DEFAULT_GRANT
  {
    hide Last;
    NamesHoldNoAt(ring, BaseKey(name));
    BaseOf(BaseKey(name), "");
  }

  lemma SameForAll(was: Keyring, next: Keyring, s: string)
    requires Sound(was) && Sound(next) && (forall k :: k in was.keys <==> k in next.keys)
    requires forall k | k in next.keys :: GrantOf(was, k.name) == GrantOf(next, k.name)
    ensures SameAnswers(was, next, s)
  {
    hide Last, BaseKey, GrantOf, LastMatch;
    MatchesItsKey(was.keys, s);
    MatchesItsKey(next.keys, s);
    var base := BaseKey(s);
    NamesAgree(was.keys, next.keys, s);
    NamesAgree(next.keys, was.keys, s);
    NamesAgree(was.keys, next.keys, base);
    NamesAgree(next.keys, was.keys, base);
    GrantByKey(was, s);
    GrantByKey(next, s);
    GrantNamed(was, next, s);
    GrantNamed(was, next, base);
    if LastMatch(was.keys, s).Some? { assert Key(LastMatch(was.keys, s).value, s) in was.keys; }
    if LastMatch(next.keys, s).Some? { assert Key(LastMatch(next.keys, s).value, s) in next.keys; }
  }

  lemma GrantNamed(was: Keyring, next: Keyring, name: string)
    requires forall k | k in next.keys :: GrantOf(was, k.name) == GrantOf(next, k.name)
    ensures HasName(next.keys, name) ==> GrantOf(was, name) == GrantOf(next, name)
  {
    hide GrantOf;
    if HasName(next.keys, name) {
      var i :| 0 <= i < |next.keys| && next.keys[i].name == name;
      assert next.keys[i] in next.keys;
    }
  }

  /** The difference is empty exactly when no caller could tell the rings apart. */
  lemma {:induction false} UnchangedIsUnobservable(was: Keyring, next: Keyring)
    requires Sound(was) && Sound(next)
    ensures Empty(DiffOf(was, next)) <==> SameToCallers(was, next)
  {
    hide Sound, GrantOf, Recognizes, LastMatch, DiffOf, Empty, SameAnswers;
    EmptyMeans(was, next);
    if Empty(DiffOf(was, next)) {
      SameKeys(was, next);
      forall s ensures SameAnswers(was, next, s) { SameForAll(was, next, s); }
    }
    if SameToCallers(was, next) {
      forall k | k in next.keys ensures k in was.keys && GrantOf(was, k.name) == GrantOf(next, k.name) {
        KeySeen(next, was, k);
      }
      forall k | k in was.keys ensures HasName(next.keys, k.name) {
        KeySeen(was, next, k);
        NameIn(next.keys, k);
      }
    }
  }

  /** A key shows: presenting its token names it, and its name shows its grant. */
  lemma KeySeen(a: Keyring, b: Keyring, k: Key)
    requires Sound(a) && Sound(b) && k in a.keys && (SameToCallers(a, b) || SameToCallers(b, a))
    ensures k in b.keys && GrantOf(a, k.name) == GrantOf(b, k.name)
  {
    hide GrantOf, Recognizes, LastMatch;
    assert SameAnswers(a, b, k.token) || SameAnswers(b, a, k.token);
    assert SameAnswers(a, b, k.name) || SameAnswers(b, a, k.name);
    MatchesItsKey(a.keys, k.token);
    MatchesItsKey(b.keys, k.token);
    assert Key(k.name, k.token) == k;
  }

  // ---------------------------------------------------------------------- reloads

  datatype ReloadOutcome = Applied | Unchanged | Refused

  type Reader = string -> Option<map<string, GrantSpec>>

  /** One reload from values read earlier: none when they could not be read. */
  ghost function Step(ring: Keyring, values: Option<Sources>, read: Reader, isContextId: string -> bool): (ReloadOutcome, Keyring) {
    if values.None? || Built(values.value, read, isContextId).None? then (Refused, ring)
    else
      var next := Built(values.value, read, isContextId).value;
      if next.keys == [] && ring.keys != [] then (Refused, ring)
      else if Empty(DiffOf(ring, next)) then (Unchanged, ring)
      else (Applied, next)
  }

  class SharedKeyring {
    var ring: Keyring

    constructor (ring: Keyring)
      requires Sound(ring)
      ensures this.ring == ring
    {
      this.ring := ring;
    }

    /** Rebuilds the ring from the values and swaps it in, keeping the old one on
        every failure and when the swap would disarm the server. */
    method ApplyReload(values: Option<Sources>, read: Reader, isContextId: string -> bool) returns (outcome: ReloadOutcome)
      requires Sound(ring)
      modifies this
      ensures Sound(ring) && (outcome, ring) == Step(old(ring), values, read, isContextId)
      ensures old(ring).keys != [] ==> ring.keys != []
    {
      hide Accepts, GrantsAccepted, GrantsOf, AllKeys, DiffOf, Sound, Empty;
      if values.None? {
        return Refused;
      }
      var parsed := Parse(values.value.single, values.value.named);
      if parsed.Err? {
        return Refused;
      }
      var granted := ApplyGrants(parsed.value, values.value.grants, read, isContextId);
      if granted.Err? {
        return Refused;
      }
      var next := granted.value;
      assert Built(values.value, read, isContextId) == Some(next);
      BuiltSound(values.value, read, isContextId);
      if next.keys == [] && ring.keys != [] {
        return Refused;
      }
      SoundNames(ring);
      var diff := DiffRings(ring, next);
      if Empty(diff) {
        return Unchanged;
      }
      ring := next;
      return Applied;
    }
  }

  lemma SoundNames(ring: Keyring)
    requires Sound(ring)
    ensures DistinctNames(ring.keys)
  {
  }

  // --------------------------------------------------------------- interleavings

  /** The sources change at any time; a reload reads them at one moment and applies
      what it read at a later one, other reloads coming between. */
  datatype Event = Change(sources: Option<Sources>) | Look(reload: nat) | Apply(reload: nat)

  /** The sources as they stand, what each reload has read, and the armed ring. */
  datatype System = System(sources: Option<Sources>, pending: map<nat, Option<Sources>>, ring: Keyring)

  ghost function Next(s: System, e: Event, read: Reader, isContextId: string -> bool): System {
    match e
    case Change(sources) => s.(sources := sources)
    case Look(reload) => s.(pending := s.pending[reload := s.sources])
    case Apply(reload) =>
      if reload in s.pending then
        s.(ring := Step(s.ring, s.pending[reload], read, isContextId).1, pending := s.pending - {reload})
      else s
  }

  ghost function Run(s: System, events: seq<Event>, read: Reader, isContextId: string -> bool): System {
    if events == [] then s else Next(Run(s, events[..|events| - 1], read, isContextId), events[|events| - 1], read, isContextId)
  }

  /** Every state the sources were in. */
  function Seen(s: System, events: seq<Event>): set<Option<Sources>> {
    {s.sources} + (set e | e in events && e.Change? :: e.sources)
  }

  lemma {:induction false} StepKeeps(ring: Keyring, values: Option<Sources>, read: Reader, isContextId: string -> bool)
    requires Sound(ring)
    ensures var (outcome, next) := Step(ring, values, read, isContextId);
      && Sound(next) && (ring.keys != [] ==> next.keys != [])
      && (outcome == Unchanged ==> next == ring && SameToCallers(ring, Built(values.value, read, isContextId).value))
      && (outcome == Applied ==> !SameToCallers(ring, next))
  {
    hide Built, DiffOf, Sound, Empty, SameToCallers;
    if values.Some? && Built(values.value, read, isContextId).Some? {
      BuiltSound(values.value, read, isContextId);
      UnchangedIsUnobservable(ring, Built(values.value, read, isContextId).value);
    }
  }

  /** The ring is the first one or built from a state the sources were really in. */
  ghost predicate Traced(ring: Keyring, first: Keyring, seen: set<Option<Sources>>, read: Reader, isContextId: string -> bool) {
    ring == first || exists v :: v in seen && v.Some? && Built(v.value, read, isContextId) == Some(ring)
  }

  ghost predicate Legitimate(t: System, first: Keyring, seen: set<Option<Sources>>, read: Reader, isContextId: string -> bool) {
    && Sound(t.ring) && (first.keys != [] ==> t.ring.keys != [])
    && t.sources in seen && (forall r | r in t.pending :: t.pending[r] in seen)
    && Traced(t.ring, first, seen, read, isContextId)
  }

  lemma {:induction false} NextLegitimate(t: System, e: Event, first: Keyring, seen: set<Option<Sources>>, read: Reader, isContextId: string -> bool)
    requires Legitimate(t, first, seen, read, isContextId) && (e.Change? ==> e.sources in seen)
    ensures Legitimate(Next(t, e, read, isContextId), first, seen, read, isContextId)
  {
    hide Sound, Built, Step, Traced;
    if e.Apply? && e.reload in t.pending {
      var v := t.pending[e.reload];
      StepKeeps(t.ring, v, read, isContextId);
      StepTraced(t.ring, v, first, seen, read, isContextId);
    }
  }

  lemma StepTraced(ring: Keyring, v: Option<Sources>, first: Keyring, seen: set<Option<Sources>>, read: Reader, isContextId: string -> bool)
    requires Traced(ring, first, seen, read, isContextId) && v in seen
    ensures Traced(Step(ring, v, read, isContextId).1, first, seen, read, isContextId)
  {
    hide Built, Step;
    StepBuilds(ring, v, read, isContextId);
  }

  lemma SeenGrows(t: System, first: Keyring, seen: set<Option<Sources>>, more: set<Option<Sources>>, read: Reader, isContextId: string -> bool)
    requires Legitimate(t, first, seen, read, isContextId) && seen <= more
    ensures Legitimate(t, first, more, read, isContextId)
  {
    hide Sound, Built;
    if t.ring != first {
      var v :| v in seen && v.Some? && Built(v.value, read, isContextId) == Some(t.ring);
      assert v in more;
    }
  }

  /** Under every interleaving, stale reads included: the armed ring is sound, an
      armed server is never disarmed, and the ring is the first one or one built from
      a state the sources were really in. */
  lemma {:induction false} EveryInterleaving(s: System, events: seq<Event>, read: Reader, isContextId: string -> bool)
    requires Sound(s.ring) && s.pending == map[]
    ensures Legitimate(Run(s, events, read, isContextId), s.ring, Seen(s, events), read, isContextId)
  {
    hide Sound, Built;
    if events != [] {
      hide Seen, Legitimate, Next;
      var n := |events| - 1;
      var init, e := events[..n], events[n];
      EveryInterleaving(s, init, read, isContextId);
      var t := Run(s, init, read, isContextId);
      SeenMore(s, init, e);
      assert events == init + [e];
      SeenGrows(t, s.ring, Seen(s, init), Seen(s, events), read, isContextId);
      NextLegitimate(t, e, s.ring, Seen(s, events), read, isContextId);
    }
  }

  lemma StepBuilds(ring: Keyring, values: Option<Sources>, read: Reader, isContextId: string -> bool)
    ensures var next := Step(ring, values, read, isContextId).1;
      next == ring || (values.Some? && Built(values.value, read, isContextId) == Some(next))
  {
    hide Built, DiffOf, Empty;
  }

  lemma SeenMore(s: System, init: seq<Event>, e: Event)
    ensures Seen(s, init) <= Seen(s, init + [e])
    ensures e.Change? ==> e.sources in Seen(s, init + [e])
  {
    assert e in init + [e];
    forall o | o in init ensures o in init + [e] { }
  }

  // ------------------------------------------------------- when the newest sources win

  /** What was read builds a ring, and swapping it in would not disarm the server. */
  ghost predicate Accepted(ring: Keyring, values: Option<Sources>, read: Reader, isContextId: string -> bool) {
    values.Some? && Built(values.value, read, isContextId).Some?
    && (Built(values.value, read, isContextId).value.keys != [] || ring.keys == [])
  }

  /** An accepted reload ends with the ring it built, or one no caller can tell from it. */
  lemma AcceptedArmed(ring: Keyring, values: Option<Sources>, read: Reader, isContextId: string -> bool)
    requires Sound(ring) && Accepted(ring, values, read, isContextId)
    ensures SameToCallers(Step(ring, values, read, isContextId).1, Built(values.value, read, isContextId).value)
  {
    hide Sound, Built, DiffOf, Empty;
    BuiltSound(values.value, read, isContextId);
    UnchangedIsUnobservable(ring, Built(values.value, read, isContextId).value);
  }

  lemma SameEither(a: Keyring, b: Keyring, c: Keyring)
    requires SameToCallers(a, b)
    ensures SameToCallers(a, c) <==> SameToCallers(b, c)
  {
    hide SameAnswers;
    forall s: string ensures SameAnswers(a, c, s) <==> SameAnswers(b, c, s) {
      assert SameAnswers(a, b, s);
      SameAnswer(a, b, c, s);
    }
  }

  lemma SameAnswer(a: Keyring, b: Keyring, c: Keyring, s: string)
    requires SameAnswers(a, b, s)
    ensures SameAnswers(a, c, s) <==> SameAnswers(b, c, s)
  {
    hide LastMatch, Recognizes, GrantOf;
  }

  /** After any run, the reload that applies next leaves the newest sources armed
      exactly when what it read builds a ring no caller can tell from theirs. */
  lemma {:induction false} NewestExactly(s: System, events: seq<Event>, reload: nat, read: Reader, isContextId: string -> bool)
    requires Sound(s.ring) && s.pending == map[]
    requires var t := Run(s, events, read, isContextId);
      && reload in t.pending && Accepted(t.ring, t.pending[reload], read, isContextId)
      && t.sources.Some? && Built(t.sources.value, read, isContextId).Some?
    ensures var t := Run(s, events, read, isContextId);
      var newest := Built(t.sources.value, read, isContextId).value;
      SameToCallers(Next(t, Apply(reload), read, isContextId).ring, newest)
      <==> SameToCallers(Built(t.pending[reload].value, read, isContextId).value, newest)
  {
    hide Sound, Built, Step, Run, SameToCallers, Accepted;
    EveryInterleaving(s, events, read, isContextId);
    var t := Run(s, events, read, isContextId);
    var newest := Built(t.sources.value, read, isContextId).value;
    AcceptedArmed(t.ring, t.pending[reload], read, isContextId);
    AcceptedSome(t.ring, t.pending[reload], read, isContextId);
    SameEither(Step(t.ring, t.pending[reload], read, isContextId).1, Built(t.pending[reload].value, read, isContextId).value, newest);
  }

  lemma AcceptedSome(ring: Keyring, values: Option<Sources>, read: Reader, isContextId: string -> bool)
    requires Accepted(ring, values, read, isContextId)
    ensures values.Some? && Built(values.value, read, isContextId).Some?
  {
  }

  /** No change of the sources, and no end of this reload. */
  predicate Undisturbed(events: seq<Event>, reload: nat) {
    forall e | e in events :: !e.Change? && e != Apply(reload)
  }

  lemma {:induction false} ReadStands(s: System, events: seq<Event>, reload: nat, read: Reader, isContextId: string -> bool)
    requires reload in s.pending && s.pending[reload] == s.sources && Undisturbed(events, reload)
    ensures var t := Run(s, events, read, isContextId);
      t.sources == s.sources && reload in t.pending && t.pending[reload] == t.sources
  {
    hide Step;
    if events != [] {
      var n := |events| - 1;
      assert events[n] in events;
      forall e | e in events[..n] ensures e in events { }
      ReadStands(s, events[..n], reload, read, isContextId);
    }
  }

  lemma {:induction false} RunOn(s: System, a: seq<Event>, b: seq<Event>, read: Reader, isContextId: string -> bool)
    ensures Run(s, a + b, read, isContextId) == Run(Run(s, a, read, isContextId), b, read, isContextId)
  {
    hide Next;
    if b == [] {
      assert a + b == a;
    } else {
      var n := |b| - 1;
      RunOn(s, a, b[..n], read, isContextId);
      assert (a + b)[..|a + b| - 1] == a + b[..n];
    }
  }

  /** When the sources do not change between the look of a reload and its end, the
      newest sources are armed by it, whatever other reloads do around and between. */
  lemma {:induction false} UnchangedSinceLook(s: System, before: seq<Event>, reload: nat, between: seq<Event>, read: Reader, isContextId: string -> bool)
    requires Sound(s.ring) && s.pending == map[] && Undisturbed(between, reload)
    requires var t := Run(s, before + [Look(reload)] + between, read, isContextId);
      Accepted(t.ring, t.sources, read, isContextId)
    ensures var t := Run(s, before + [Look(reload)] + between + [Apply(reload)], read, isContextId);
      t.sources.Some? && Built(t.sources.value, read, isContextId).Some?
      && SameToCallers(t.ring, Built(t.sources.value, read, isContextId).value)
  {
    hide Sound, Built, Step, SameToCallers, Accepted, Undisturbed;
    var looked := before + [Look(reload)];
    var run := looked + between;
    assert looked[..|before|] == before && (run + [Apply(reload)])[..|run|] == run;
    RunOn(s, looked, between, read, isContextId);
    ReadStands(Run(s, looked, read, isContextId), between, reload, read, isContextId);
    var t := Run(s, run, read, isContextId);
    EveryInterleaving(s, run, read, isContextId);
    AcceptedSome(t.ring, t.sources, read, isContextId);
    AcceptedArmed(t.ring, t.sources, read, isContextId);
  }

  /** What the last reload to end had read; none when no reload ended. */
  ghost function LastEnded(s: System, events: seq<Event>, read: Reader, isContextId: string -> bool): Option<Option<Sources>> {
    if events == [] then None
    else
      var n := |events| - 1;
      var t, e := Run(s, events[..n], read, isContextId), events[n];
      if e.Apply? && e.reload in t.pending then Some(t.pending[e.reload]) else LastEnded(s, events[..n], read, isContextId)
  }

  /** A state of the sources that builds an armed ring. */
  ghost predicate Arms(v: Option<Sources>, read: Reader, isContextId: string -> bool) {
    v.Some? && Built(v.value, read, isContextId).Some? && Built(v.value, read, isContextId).value.keys != []
  }

  /** While every state of the sources is one that arms, the ring after a run is that
      of the last reload to end, or the first one. */
  lemma {:induction false} LastEndedArmed(s: System, events: seq<Event>, read: Reader, isContextId: string -> bool)
    requires Sound(s.ring) && s.pending == map[]
    requires forall v | v in Seen(s, events) :: Arms(v, read, isContextId)
    ensures var last := LastEnded(s, events, read, isContextId);
      var ring := Run(s, events, read, isContextId).ring;
      if last.None? then ring == s.ring
      else Arms(last.value, read, isContextId) && SameToCallers(ring, Built(last.value.value, read, isContextId).value)
  {
    hide Sound, Built, Step, SameToCallers, Seen, Traced;
    if events != [] {
      var n := |events| - 1;
      var init, e := events[..n], events[n];
      assert events == init + [e];
      SeenMore(s, init, e);
      EveryInterleaving(s, init, read, isContextId);
      LastEndedArmed(s, init, read, isContextId);
      var t := Run(s, init, read, isContextId);
      if e.Apply? && e.reload in t.pending {
        assert t.pending[e.reload] in Seen(s, events);
        AcceptedArmed(t.ring, t.pending[e.reload], read, isContextId);
      }
    }
  }

  /** So after a whole run the newest sources are armed exactly when the reload that
      ended last had read a ring no caller can tell from theirs. */
  lemma {:induction false} NewestAfterRun(s: System, events: seq<Event>, read: Reader, isContextId: string -> bool)
    requires Sound(s.ring) && s.pending == map[]
    requires forall v | v in Seen(s, events) :: Arms(v, read, isContextId)
    requires LastEnded(s, events, read, isContextId).Some?
    ensures var t, last := Run(s, events, read, isContextId), LastEnded(s, events, read, isContextId).value;
      && Arms(t.sources, read, isContextId) && Arms(last, read, isContextId)
      && (SameToCallers(t.ring, Built(t.sources.value, read, isContextId).value)
          <==> SameToCallers(Built(last.value, read, isContextId).value, Built(t.sources.value, read, isContextId).value))
  {
    hide Sound, Built, Step, Run, LastEnded, SameToCallers, Seen;
    var t, last := Run(s, events, read, isContextId), LastEnded(s, events, read, isContextId).value;
    EveryInterleaving(s, events, read, isContextId);
    LastEndedArmed(s, events, read, isContextId);
    SameEither(t.ring, Built(last.value, read, isContextId).value, Built(t.sources.value, read, isContextId).value);
  }

  /** Two reloads around a change, the one that read before it ending last. */
  function StaleSchedule(newer: Sources): seq<Event> {
    [Look(0), Change(Some(newer)), Look(1), Apply(1), Apply(0)]
  }

  /** The newest sources do not always win: a reload that read before a change may
      apply after the reload that read the change, and its ring then stays. */
  lemma {:induction false} StaleReadWins(ring: Keyring, older: Sources, newer: Sources, read: Reader, isContextId: string -> bool)
    requires Sound(ring)
    requires Built(older, read, isContextId).Some? && Built(newer, read, isContextId).Some?
    requires Built(older, read, isContextId).value.keys != [] && Built(newer, read, isContextId).value.keys != []
    ensures var t := Run(System(Some(older), map[], ring), StaleSchedule(newer), read, isContextId);
      && t.sources == Some(newer) && t.pending == map[]
      && SameToCallers(t.ring, Built(older, read, isContextId).value)
      && (SameToCallers(t.ring, Built(newer, read, isContextId).value)
          <==> SameToCallers(Built(older, read, isContextId).value, Built(newer, read, isContextId).value))
  {
    hide Sound, Built, DiffOf, Empty, Step, SameToCallers;
    var s0 := System(Some(older), map[], ring);
    var e := StaleSchedule(newer);
    var p := map[0 := Some(older), 1 := Some(newer)];
    assert e[..4][..3] == e[..3] && e[..3][..2] == e[..2] && e[..2][..1] == e[..1] && e[..1][..0] == [];
    var s1 := Next(s0, e[0], read, isContextId);
    var s2 := Next(s1, e[1], read, isContextId);
    var s3 := Next(s2, e[2], read, isContextId);
    assert s3 == System(Some(newer), p, ring);
    var s4 := Next(s3, e[3], read, isContextId);
    assert s4.pending == map[0 := Some(older)];
    var s5 := Next(s4, e[4], read, isContextId);
    assert Run(s0, e[..1], read, isContextId) == s1;
    assert Run(s0, e[..2], read, isContextId) == s2;
    assert Run(s0, e[..3], read, isContextId) == s3;
    assert Run(s0, e[..4], read, isContextId) == s4;
    assert Run(s0, e, read, isContextId) == s5;
    StepKeeps(ring, Some(newer), read, isContextId);
    StepKeeps(s4.ring, Some(older), read, isContextId);
    StepBuilds(s4.ring, Some(older), read, isContextId);
    AcceptedArmed(s4.ring, Some(older), read, isContextId);
    SameEither(s5.ring, Built(older, read, isContextId).value, Built(newer, read, isContextId).value);
  }

  /** A single token's ring. */
  lemma SingleRing(token: string, read: Reader, isContextId: string -> bool)
    requires token != ""
    ensures Built(Sources(Some(token), None, None), read, isContextId) == Some(Keyring([Key("default", token)], map[]))
  {
    assert AllKeys(Some(token), None) == [Key("default", token)];
  }

  /** Replacing a single token: the old one then still authenticates after both
      reloads, the new one does not, and no reload is left to change that. */
  lemma {:induction false} ReplacedTokenLives(old': string, new': string, read: Reader, isContextId: string -> bool)
    requires old' != "" && new' != "" && old' != new'
    ensures var older, newer := Sources(Some(old'), None, None), Sources(Some(new'), None, None);
      var ring := Keyring([Key("default", old')], map[]);
      var t := Run(System(Some(older), map[], ring), StaleSchedule(newer), read, isContextId);
      && Built(newer, read, isContextId).Some? && t.sources == Some(newer) && t.pending == map[]
      && !SameToCallers(t.ring, Built(newer, read, isContextId).value)
      && LastMatch(t.ring.keys, old') == Some("default") && LastMatch(t.ring.keys, new') == None
  {
    hide Built, Run, SameToCallers;
    var older, newer := Sources(Some(old'), None, None), Sources(Some(new'), None, None);
    var ring, next := Keyring([Key("default", old')], map[]), Keyring([Key("default", new')], map[]);
    SingleRing(old', read, isContextId);
    SingleRing(new', read, isContextId);
    BuiltSound(older, read, isContextId);
    StaleReadWins(ring, older, newer, read, isContextId);
    var t := Run(System(Some(older), map[], ring), StaleSchedule(newer), read, isContextId);
    TokensTold(old', new');
    SeenAlike(t.ring, ring, old');
    SeenAlike(t.ring, ring, new');
    if SameToCallers(t.ring, next) { SeenAlike(t.ring, next, old'); }
  }

  lemma TokensTold(token: string, other: string)
    ensures LastMatch([Key("default", token)], token) == Some("default")
    ensures token != other ==> LastMatch([Key("default", token)], other) == None && LastMatch([Key("default", other)], token) == None
  {
    assert forall k: Key :: [k][..0] == [];
  }

  lemma SeenAlike(a: Keyring, b: Keyring, token: string)
    requires SameToCallers(a, b)
    ensures LastMatch(a.keys, token) == LastMatch(b.keys, token)
  {
    assert SameAnswers(a, b, token);
  }

  // -------------------------------------------------------------- which list is which

  lemma {:induction false} InNamesWhere(keys: seq<Key>, was: Keyring, next: Keyring, test: (Keyring, Keyring, Key) -> bool, name: string)
    ensures name in NamesWhere(keys, was, next, test) <==> exists k :: k in keys && k.name == name && test(was, next, k)
  {
    if keys != [] {
      var n := |keys| - 1;
      InNamesWhere(keys[..n], was, next, test, name);
      assert keys == keys[..n] + [keys[n]];
    }
  }

  /** A name is added when only the new ring has it and removed when only the old one
      does; a name of both is rotated when its token changed and regranted when its
      grant did. */
  lemma {:induction false} DiffMeans(was: Keyring, next: Keyring, name: string)
    requires Sound(was) && Sound(next)
    ensures var d := DiffOf(was, next);
      var before, after := TokenOf(was.keys, name), TokenOf(next.keys, name);
      && (name in d.added <==> before.None? && after.Some?)
      && (name in d.removed <==> before.Some? && after.None?)
      && (name in d.rotated <==> before.Some? && after.Some? && before != after)
      && (name in d.regranted <==> before.Some? && after.Some? && GrantOf(was, name) != GrantOf(next, name))
  {
    hide NamesWhere, GrantOf;
    SoundNames(was);
    SoundNames(next);
    hide Sound;
    TokenFound(was.keys, name);
    TokenFound(next.keys, name);
    InNamesWhere(next.keys, was, next, Added, name);
    InNamesWhere(was.keys, was, next, Removed, name);
    InNamesWhere(next.keys, was, next, Rotated, name);
    InNamesWhere(next.keys, was, next, Regranted, name);
    hide TokenOf, HasName, DistinctNames;
    if TokenOf(was.keys, name).Some? { assert Key(name, TokenOf(was.keys, name).value) in was.keys; }
    if TokenOf(next.keys, name).Some? { assert Key(name, TokenOf(next.keys, name).value) in next.keys; }
    assert forall k: Key | k.name == name :: k == Key(name, k.token);
  }
}
