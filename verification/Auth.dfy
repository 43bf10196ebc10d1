/** The bearer keyring and its hot reload (`src/auth.rs`). */
module Auth {
  import opened Common

  datatype Role = Read | Write | Admin

  /** A role, and the contexts it covers: none listed covers every context. */
  datatype KeyGrant = KeyGrant(role: Role, contexts: Option<set<string>>)

  const DEFAULT_GRANT := KeyGrant(Admin, None)

  /** One entry of the grants variable, as its JSON reads. */
  datatype GrantSpec = GrantSpec(role: string, contexts: Option<seq<string>>)

  datatype Key = Key(name: string, token: string)

  /** One snapshot of the table; it is replaced, never changed, once shared. */
  datatype Keyring = Keyring(keys: seq<Key>, grants: map<string, KeyGrant>)

  // ---------------------------------------------------------------------- strings

  /** The Unicode White_Space characters, which `trim` strips. */
  predicate IsSpace(c: char) {
    || '\t' <= c <= '\r' || c == ' ' || c == '\U{85}' || c == '\U{A0}' || c == '\U{1680}'
    || '\U{2000}' <= c <= '\U{200A}' || c == '\U{2028}' || c == '\U{2029}' || c == '\U{202F}'
    || c == '\U{205F}' || c == '\U{3000}'
  }

  function TrimStart(s: string): string {
    if s != [] && IsSpace(s[0]) then TrimStart(s[1..]) else s
  }

  function TrimEnd(s: string): string {
    if s != [] && IsSpace(s[|s| - 1]) then TrimEnd(s[..|s| - 1]) else s
  }

  function Trim(s: string): string {
    TrimEnd(TrimStart(s))
  }

  /** The first occurrence of `c`, or the length when there is none. */
  function First(s: string, c: char): (n: nat)
    ensures n <= |s| && c !in s[..n]
    ensures n < |s| ==> s[n] == c
  {
    if s == [] || s[0] == c then 0
    else
      var n := First(s[1..], c);
      assert s[..n + 1] == [s[0]] + s[1..][..n];
      n + 1
  }

  /** The pieces between the occurrences of `c`. */
  function Split(s: string, c: char): (pieces: seq<string>)
    ensures pieces != []
    decreases |s|
  {
    var n := First(s, c);
    if n == |s| then [s] else [s[..n]] + Split(s[n + 1..], c)
  }

  function Joined(pieces: seq<string>, c: char): string
    requires pieces != []
  {
    if |pieces| == 1 then pieces[0] else pieces[0] + [c] + Joined(pieces[1..], c)
  }

  lemma {:induction false} SplitJoins(s: string, c: char)
    ensures Joined(Split(s, c), c) == s
    ensures forall piece | piece in Split(s, c) :: c !in piece
    decreases |s|
  {
    hide First;
    var n := First(s, c);
    if n < |s| {
      SplitJoins(s[n + 1..], c);
      assert s == s[..n] + [s[n]] + s[n + 1..];
      assert Split(s, c)[1..] == Split(s[n + 1..], c);
    } else {
      assert s[..n] == s;
    }
  }

  /** The last occurrence of `c`, or the length when there is none. */
  function Last(s: string, c: char): (n: nat)
    ensures n <= |s|
    ensures n < |s| ==> s[n] == c && c !in s[n + 1..]
    ensures n == |s| ==> c !in s
  {
    if s == [] then 0
    else if s[|s| - 1] == c then |s| - 1
    else
      var init := s[..|s| - 1];
      assert s == init + [s[|s| - 1]];
      var n := Last(init, c);
      assert n < |init| ==> s[n + 1..] == init[n + 1..] + [s[|s| - 1]];
      if n < |init| then n else |s|
  }

  /** The key a name is billed to: the part before its last '@'. */
  function BaseKey(name: string): string {
    var n := Last(name, '@');
    name[..n]
  }

  // ---------------------------------------------------------------------- parsing

  /** The entries of the named ring: trimmed pieces, empty ones skipped. */
  function Entries(pieces: seq<string>): seq<string> {
    if pieces == [] then []
    else
      var init, last := Entries(pieces[..|pieces| - 1]), Trim(pieces[|pieces| - 1]);
      if last == "" then init else init + [last]
  }

  /** The key an entry names, its name and token trimmed. */
  function KeyOf(entry: string): Key {
    var n := First(entry, ':');
    Key(Trim(entry[..n]), if n < |entry| then Trim(entry[n + 1..]) else "")
  }

  /** A colon, a name without '@', and a token. */
  predicate ProperEntry(entry: string) {
    ':' in entry && KeyOf(entry).name != "" && KeyOf(entry).token != "" && '@' !in KeyOf(entry).name
  }

  function KeysOf(entries: seq<string>): (r: seq<Key>)
    ensures |r| == |entries|
  {
    seq(|entries|, i requires 0 <= i < |entries| => KeyOf(entries[i]))
  }

  function SingleKeys(single: Option<string>): seq<Key> {
    if single.Some? then [Key("default", single.value)] else []
  }

  function NamedEntries(named: Option<string>): seq<string> {
    if named.Some? then Entries(Split(named.value, ',')) else []
  }

  /** The keys the two variables spell out. */
  function AllKeys(single: Option<string>, named: Option<string>): seq<Key> {
    SingleKeys(single) + KeysOf(NamedEntries(named))
  }

  ghost predicate DistinctNames(keys: seq<Key>) {
    forall i, j | 0 <= i < j < |keys| :: keys[i].name != keys[j].name
  }

  ghost predicate DistinctTokens(keys: seq<Key>) {
    forall i, j | 0 <= i < j < |keys| :: keys[i].token != keys[j].token
  }

  /** When the variables are accepted: no empty single token, at least one key when
      the ring is set, proper entries, and no name or token twice. */
  ghost predicate Accepts(single: Option<string>, named: Option<string>) {
    && (single.Some? ==> single.value != "")
    && (named.Some? ==> Trim(named.value) != "" && AllKeys(single, named) != [])
    && (forall e | e in NamedEntries(named) :: ProperEntry(e))
    && DistinctNames(AllKeys(single, named)) && DistinctTokens(AllKeys(single, named))
  }

  predicate HasName(keys: seq<Key>, name: string) {
    exists i | 0 <= i < |keys| :: keys[i].name == name
  }

  predicate HasToken(keys: seq<Key>, token: string) {
    exists i | 0 <= i < |keys| :: keys[i].token == token
  }

  lemma OneMoreKey(keys: seq<Key>, k: Key)
    ensures DistinctNames(keys + [k]) <==> DistinctNames(keys) && !HasName(keys, k.name)
    ensures DistinctTokens(keys + [k]) <==> DistinctTokens(keys) && !HasToken(keys, k.token)
  {
    var more := keys + [k];
    assert forall i | 0 <= i < |keys| :: more[i] == keys[i];
    assert more[|keys|] == k;
    if DistinctNames(more) {
      forall i, j | 0 <= i < j < |keys| ensures keys[i].name != keys[j].name {
        assert more[i].name != more[j].name;
      }
      forall i | 0 <= i < |keys| ensures keys[i].name != k.name {
        assert more[i].name != more[|keys|].name;
      }
    }
    if DistinctTokens(more) {
      forall i, j | 0 <= i < j < |keys| ensures keys[i].token != keys[j].token {
        assert more[i].token != more[j].token;
      }
      forall i | 0 <= i < |keys| ensures keys[i].token != k.token {
        assert more[i].token != more[|keys|].token;
      }
    }
  }

  /** Distinctness fails already in a prefix that repeats. */
  lemma PrefixDistinct(keys: seq<Key>, n: nat)
    requires n <= |keys|
    ensures DistinctNames(keys) ==> DistinctNames(keys[..n])
    ensures DistinctTokens(keys) ==> DistinctTokens(keys[..n])
  {
  }

  lemma EntryAt(pieces: seq<string>, i: nat)
    requires i < |pieces|
    ensures var piece := Trim(pieces[i]);
      Entries(pieces[..i + 1]) == if piece == "" then Entries(pieces[..i]) else Entries(pieces[..i]) + [piece]
  {
    assert pieces[..i + 1][..i] == pieces[..i];
  }

  lemma {:induction false} EntriesPrefix(pieces: seq<string>, n: nat)
    requires n <= |pieces|
    ensures Entries(pieces[..n]) <= Entries(pieces)
  {
    if n == |pieces| {
      assert pieces[..n] == pieces;
    } else {
      EntriesPrefix(pieces[..|pieces| - 1], n);
      assert pieces[..|pieces| - 1][..n] == pieces[..n];
    }
  }

  /** An entry refused at its position is an entry the whole ring is refused for. */
  lemma {:induction false} BadEntry(keys: seq<Key>, pieces: seq<string>, i: nat, e: string)
    requires i < |pieces| && e == Trim(pieces[i]) && e != ""
    ensures e in Entries(pieces)
    ensures keys + KeysOf(Entries(pieces[..i])) + [KeyOf(e)] <= keys + KeysOf(Entries(pieces))
  {
    hide Entries, KeyOf, Trim, KeysOf;
    EntryAt(pieces, i);
    EntriesPrefix(pieces, i + 1);
    var before, all := Entries(pieces[..i]), Entries(pieces);
    assert all[..|before| + 1] == before + [e];
    assert all[|before|] == e;
    KeysPrefix(all, |before| + 1);
    KeysMore(before, e);
    assert keys + KeysOf(before) + [KeyOf(e)] == keys + KeysOf(before + [e]);
    assert KeysOf(before + [e]) <= KeysOf(all);
  }

  lemma KeysPrefix(entries: seq<string>, n: nat)
    requires n <= |entries|
    ensures KeysOf(entries[..n]) == KeysOf(entries)[..n]
  {
  }

  lemma KeysMore(entries: seq<string>, e: string)
    ensures KeysOf(entries + [e]) == KeysOf(entries) + [KeyOf(e)]
  {
  }

  lemma RepeatRefused(keys: seq<Key>, all: seq<Key>, k: Key)
    requires keys + [k] <= all
    ensures HasName(keys, k.name) ==> !DistinctNames(all)
    ensures HasToken(keys, k.token) ==> !DistinctTokens(all)
  {
    OneMoreKey(keys, k);
    assert all[..|keys| + 1] == keys + [k];
    PrefixDistinct(all, |keys| + 1);
  }

  /** Adds the named ring's entries to the keys so far. */
  method ParseRing(base: seq<Key>, pieces: seq<string>) returns (r: Result<seq<Key>>)
    requires DistinctNames(base) && DistinctTokens(base)
    ensures r.Ok? ==> r.value == base + KeysOf(Entries(pieces))
    ensures r.Ok? <==> (forall e | e in Entries(pieces) :: ProperEntry(e))
                       && DistinctNames(base + KeysOf(Entries(pieces))) && DistinctTokens(base + KeysOf(Entries(pieces)))
  {
    hide DistinctNames, DistinctTokens, Entries, First, Trim;
    var keys := base;
    NoEntries(base);
    for i := 0 to |pieces|
      invariant keys == base + KeysOf(Entries(pieces[..i]))
      invariant forall e | e in Entries(pieces[..i]) :: ProperEntry(e)
      invariant DistinctNames(keys) && DistinctTokens(keys)
    {
      var entry := Trim(pieces[i]);
      EntryAt(pieces, i);
      if entry == "" {
        continue;
      }
      BadEntry(base, pieces, i, entry);
      KeysMore(Entries(pieces[..i]), entry);
      FirstMeans(entry, ':');
      var n := First(entry, ':');
      if n == |entry| {
        return Err("not name:token");
      }
      var name, token := Trim(entry[..n]), Trim(entry[n + 1..]);
      if name == "" || token == "" {
        return Err("empty name or token");
      }
      if '@' in name {
        return Err("name holds '@'");
      }
      RepeatRefused(keys, base + KeysOf(Entries(pieces)), Key(name, token));
      if HasName(keys, name) {
        return Err("name configured twice");
      }
      if HasToken(keys, token) {
        return Err("token reused");
      }
      OneMoreKey(keys, Key(name, token));
      keys := keys + [Key(name, token)];
    }
    assert pieces[..|pieces|] == pieces;
    r := Ok(keys);
  }

  lemma NoEntries(base: seq<Key>)
    ensures Entries([]) == [] && base + KeysOf([]) == base
  {
  }

  lemma FirstMeans(s: string, c: char)
    ensures First(s, c) < |s| <==> c in s
  {
    if First(s, c) == |s| {
      assert s[..|s|] == s;
    }
  }

  /** Builds the ring's keys from the two token variables, or refuses. */
  method Parse(single: Option<string>, named: Option<string>) returns (r: Result<Keyring>)
    ensures r.Ok? <==> Accepts(single, named)
    ensures r.Ok? ==> r.value == Keyring(AllKeys(single, named), map[])
  {
    hide First, Entries, Split, Trim;
    if single.Some? && single.value == "" {
      return Err("TAGURU_API_TOKEN is set but empty");
    }
    var keys := SingleKeys(single);
    assert keys + KeysOf([]) == keys;
    if named.Some? {
      if Trim(named.value) == "" {
        return Err("TAGURU_API_TOKENS is set but holds no entries");
      }
      var ring := ParseRing(keys, Split(named.value, ','));
      if ring.Err? {
        return Err(ring.error);
      }
      keys := ring.value;
      if keys == [] {
        return Err("TAGURU_API_TOKENS is set but holds no entries");
      }
    }
    r := Ok(Keyring(keys, map[]));
  }

  // ------------------------------------------------------------ writing a ring out

  /** A name and a token that can be written in the named ring's form. */
  predicate Writable(k: Key) {
    && k.name != "" && Trim(k.name) == k.name && ':' !in k.name && ',' !in k.name && '@' !in k.name
    && k.token != "" && Trim(k.token) == k.token && ',' !in k.token
  }

  function Written(k: Key): string { k.name + ":" + k.token }

  function WrittenAll(keys: seq<Key>): (r: seq<string>)
    ensures |r| == |keys|
  {
    seq(|keys|, i requires 0 <= i < |keys| => Written(keys[i]))
  }

  lemma {:induction false} TrimmedEnds(s: string)
    ensures s != [] ==> (Trim(s) == s <==> !IsSpace(s[0]) && !IsSpace(s[|s| - 1]))
  {
    hide IsSpace;
    StartShorter(s);
    EndShorter(TrimStart(s));
    if s != [] && Trim(s) == s {
      assert |TrimStart(s)| == |s|;
    }
  }

  lemma {:induction false} StartShorter(s: string)
    ensures |TrimStart(s)| <= |s| && (TrimStart(s) == s <==> s == [] || !IsSpace(s[0]))
    ensures |TrimStart(s)| == |s| ==> TrimStart(s) == s
  {
    hide IsSpace;
    if s != [] && IsSpace(s[0]) { StartShorter(s[1..]); }
  }

  lemma {:induction false} EndShorter(s: string)
    ensures |TrimEnd(s)| <= |s| && (TrimEnd(s) == s <==> s == [] || !IsSpace(s[|s| - 1]))
    ensures |TrimEnd(s)| == |s| ==> TrimEnd(s) == s
  {
    hide IsSpace;
    if s != [] && IsSpace(s[|s| - 1]) { EndShorter(s[..|s| - 1]); }
  }

  lemma {:induction false} FirstAt(s: string, rest: string, c: char)
    requires c !in s
    ensures First(s + [c] + rest, c) == |s|
  {
    var all := s + [c] + rest;
    if s != [] {
      FirstAt(s[1..], rest, c);
      assert all[1..] == s[1..] + [c] + rest;
    }
  }

  lemma WrittenKey(k: Key)
    requires Writable(k)
    ensures KeyOf(Written(k)) == k && Trim(Written(k)) == Written(k) && ',' !in Written(k) && ProperEntry(Written(k))
  {
    var s := Written(k);
    TrimmedEnds(k.name);
    TrimmedEnds(k.token);
    TrimmedEnds(s);
    FirstAt(k.name, k.token, ':');
    hide Trim, First, IsSpace;
    assert s[..|k.name|] == k.name && s[|k.name| + 1..] == k.token && s[|k.name|] == ':';
    assert s[0] == k.name[0] && s[|s| - 1] == k.token[|k.token| - 1];
  }

  lemma {:induction false} SplitOfJoined(pieces: seq<string>, c: char)
    requires pieces != [] && forall p | p in pieces :: c !in p
    ensures Split(Joined(pieces, c), c) == pieces
  {
    hide First;
    var s := Joined(pieces, c);
    if |pieces| == 1 {
      FirstMeans(s, c);
    } else {
      var rest := Joined(pieces[1..], c);
      FirstAt(pieces[0], rest, c);
      assert s[..|pieces[0]|] == pieces[0] && s[|pieces[0]| + 1..] == rest;
      SplitOfJoined(pieces[1..], c);
    }
  }

  lemma {:induction false} EntriesWhole(pieces: seq<string>)
    requires forall p | p in pieces :: p != "" && Trim(p) == p
    ensures Entries(pieces) == pieces
  {
    hide Trim;
    if pieces != [] {
      var n := |pieces| - 1;
      forall p | p in pieces[..n] ensures p in pieces { }
      EntriesWhole(pieces[..n]);
      assert pieces[n] in pieces;
    }
  }

  /** Keys written out as the named ring are read back as they were, in order, and
      accepted when no name or token repeats. */
  lemma {:induction false} WrittenRingReads(keys: seq<Key>)
    requires keys != [] && forall k | k in keys :: Writable(k)
    ensures AllKeys(None, Some(Joined(WrittenAll(keys), ','))) == keys
    ensures DistinctNames(keys) && DistinctTokens(keys) ==> Accepts(None, Some(Joined(WrittenAll(keys), ',')))
  {
    hide Writable, Written, KeyOf, Trim, First, Entries, Split, ProperEntry, DistinctNames, DistinctTokens, Joined;
    var pieces := WrittenAll(keys);
    forall p | p in pieces ensures ',' !in p && p != "" && Trim(p) == p && ProperEntry(p) {
      var i :| 0 <= i < |pieces| && pieces[i] == p;
      WrittenKey(keys[i]);
      NotEmpty(keys[i]);
    }
    SplitOfJoined(pieces, ',');
    EntriesWhole(pieces);
    forall i | 0 <= i < |keys| ensures KeyOf(pieces[i]) == keys[i] { WrittenKey(keys[i]); }
    JoinedStarts(pieces, ',');
    assert Trim(pieces[0]) == pieces[0] && pieces[0] != "";
    TrimmedEnds(pieces[0]);
    NotBlank(Joined(pieces, ','));
  }

  lemma JoinedStarts(pieces: seq<string>, c: char)
    requires pieces != []
    ensures pieces[0] <= Joined(pieces, c)
  {
  }

  lemma NotBlank(s: string)
    requires s != "" && !IsSpace(s[0])
    ensures Trim(s) != ""
  {
    StartShorter(s);
    EndKeeps(s);
  }

  lemma {:induction false} EndKeeps(s: string)
    requires s != "" && !IsSpace(s[0])
    ensures TrimEnd(s) != ""
  {
    hide IsSpace;
    if IsSpace(s[|s| - 1]) { EndKeeps(s[..|s| - 1]); }
  }

  lemma NotEmpty(k: Key)
    ensures Written(k) != ""
  {
  }

  // ----------------------------------------------------------------------- grants

  function RoleOf(role: string): Option<Role> {
    if role == "read" then Some(Read)
    else if role == "write" then Some(Write)
    else if role == "admin" then Some(Admin)
    else None
  }

  /** A known role, and when contexts are listed at least one, each a context id. */
  predicate Fits(spec: GrantSpec, isContextId: string -> bool) {
    && RoleOf(spec.role).Some?
    && (spec.contexts.Some? ==> spec.contexts.value != [] && forall c | c in spec.contexts.value :: isContextId(c))
  }

  function GrantFor(spec: GrantSpec): KeyGrant
    requires RoleOf(spec.role).Some?
  {
    KeyGrant(RoleOf(spec.role).value, if spec.contexts.Some? then Some(set c | c in spec.contexts.value) else None)
  }

  /** When the grants variable is accepted: set, it reads as specs that fit, each for
      a configured key. */
  ghost predicate GrantsAccepted(keys: seq<Key>, json: Option<string>, read: string -> Option<map<string, GrantSpec>>, isContextId: string -> bool) {
    json.Some? ==>
      && Trim(json.value) != "" && read(json.value).Some?
      && forall n | n in read(json.value).value :: HasName(keys, n) && Fits(read(json.value).value[n], isContextId)
  }

  ghost function GrantsOf(keys: seq<Key>, json: Option<string>, read: string -> Option<map<string, GrantSpec>>, isContextId: string -> bool): map<string, KeyGrant>
    requires GrantsAccepted(keys, json, read, isContextId)
  {
    if json.None? then map[]
    else
      var specs := read(json.value).value;
      map n | n in specs :: GrantFor(specs[n])
  }

  /** One entry of the grants: the key it names, its role and its contexts. */
  method CheckedGrant(keys: seq<Key>, name: string, spec: GrantSpec, isContextId: string -> bool) returns (r: Result<KeyGrant>)
    ensures r.Ok? <==> HasName(keys, name) && Fits(spec, isContextId)
    ensures r.Ok? ==> r.value == GrantFor(spec)
  {
    if !HasName(keys, name) {
      return Err("grant for no configured key");
    }
    if RoleOf(spec.role).None? {
      return Err("unknown role");
    }
    if spec.contexts.Some? && spec.contexts.value == [] {
      return Err("empty contexts list");
    }
    if spec.contexts.Some? && exists c | c in spec.contexts.value :: !isContextId(c) {
      return Err("not a context id");
    }
    r := Ok(GrantFor(spec));
  }

  /** Adds the grants to a freshly parsed ring, entry by entry in no particular
      order, or refuses. `read` is the JSON reading, `isContextId` the id syntax. */
  method ApplyGrants(ring: Keyring, json: Option<string>, read: string -> Option<map<string, GrantSpec>>, isContextId: string -> bool)
    returns (r: Result<Keyring>)
    requires ring.grants == map[]
    ensures r.Ok? <==> GrantsAccepted(ring.keys, json, read, isContextId)
    ensures r.Ok? ==> r.value == Keyring(ring.keys, GrantsOf(ring.keys, json, read, isContextId))
  {
    hide Trim, RoleOf, HasName, GrantFor;
    if json.None? {
      return Ok(ring);
    }
    if Trim(json.value) == "" {
      return Err("TAGURU_KEY_GRANTS is set but empty");
    }
    if read(json.value).None? {
      return Err("TAGURU_KEY_GRANTS is not the documented JSON shape");
    }
    var specs := read(json.value).value;
    var grants, left := ring.grants, specs.Keys;
    while left != {}
      invariant left <= specs.Keys && grants.Keys == specs.Keys - left
      invariant forall n | n in grants :: HasName(ring.keys, n) && Fits(specs[n], isContextId) && grants[n] == GrantFor(specs[n])
      decreases |left|
    {
      var name :| name in left;
      var one := CheckedGrant(ring.keys, name, specs[name], isContextId);
      if one.Err? {
        return Err(one.error);
      }
      grants := grants[name := one.value];
      left := left - {name};
    }
    r := Ok(Keyring(ring.keys, grants));
  }

  /** What every ring built from accepted variables is: names and tokens distinct, no
      '@' in a name, and grants only for configured names. */
  ghost predicate Sound(ring: Keyring) {
    && DistinctNames(ring.keys) && DistinctTokens(ring.keys)
    && (forall k | k in ring.keys :: '@' !in k.name)
    && (forall n | n in ring.grants :: HasName(ring.keys, n))
  }

  datatype Sources = Sources(single: Option<string>, named: Option<string>, grants: Option<string>)

  /** The ring the variables describe, if they are accepted. */
  ghost function Built(v: Sources, read: string -> Option<map<string, GrantSpec>>, isContextId: string -> bool): Option<Keyring> {
    var keys := AllKeys(v.single, v.named);
    if Accepts(v.single, v.named) && GrantsAccepted(keys, v.grants, read, isContextId) then
      Some(Keyring(keys, GrantsOf(keys, v.grants, read, isContextId)))
    else None
  }

  lemma {:induction false} BuiltSound(v: Sources, read: string -> Option<map<string, GrantSpec>>, isContextId: string -> bool)
    requires Built(v, read, isContextId).Some?
    ensures Sound(Built(v, read, isContextId).value)
  {
    hide Entries, Split, DistinctNames, DistinctTokens, KeyOf;
    var entries := NamedEntries(v.named);
    forall k | k in AllKeys(v.single, v.named) ensures '@' !in k.name {
      if k !in SingleKeys(v.single) {
        assert k in KeysOf(entries);
        var i :| 0 <= i < |entries| && KeysOf(entries)[i] == k;
        assert ProperEntry(entries[i]);
      }
    }
  }

  // ---------------------------------------------------------------------- lookups

  /** The name of the last key whose token is presented. */
  function LastMatch(keys: seq<Key>, presented: string): Option<string> {
    if keys == [] then None
    else if keys[|keys| - 1].token == presented then Some(keys[|keys| - 1].name)
    else LastMatch(keys[..|keys| - 1], presented)
  }

  /** Compares every key even after a match. */
  method Authenticate(ring: Keyring, presented: string) returns (matched: Option<string>)
    ensures matched == LastMatch(ring.keys, presented)
  {
    matched := None;
    for i := 0 to |ring.keys|
      invariant matched == LastMatch(ring.keys[..i], presented)
    {
      assert ring.keys[..i + 1][..i] == ring.keys[..i];
      if ring.keys[i].token == presented {
        matched := Some(ring.keys[i].name);
      }
    }
    assert ring.keys[..|ring.keys|] == ring.keys;
  }

  /** With distinct tokens, presenting a key's token names that key and nothing else
      authenticates. */
  lemma {:induction false} MatchesItsKey(keys: seq<Key>, presented: string)
    requires DistinctTokens(keys)
    ensures forall name :: LastMatch(keys, presented) == Some(name) <==> Key(name, presented) in keys
  {
    if keys != [] {
      var n := |keys| - 1;
      MatchesItsKey(keys[..n], presented);
      assert keys == keys[..n] + [keys[n]];
      assert forall k | k in keys[..n] :: k.token != keys[n].token;
    }
  }

  function GrantOf(ring: Keyring, name: string): KeyGrant {
    if name in ring.grants then ring.grants[name]
    else if BaseKey(name) in ring.grants then ring.grants[BaseKey(name)]
    else DEFAULT_GRANT
  }

  predicate Recognizes(ring: Keyring, name: string) {
    HasName(ring.keys, name) || HasName(ring.keys, BaseKey(name))
  }

  /** The part before the last '@' is the name itself when it holds none, and a
      delegation's key: what precedes an '@' client that holds none. */
  lemma {:induction false} BaseOf(name: string, client: string)
    ensures '@' !in name ==> BaseKey(name) == name
    ensures '@' !in client ==> BaseKey(name + "@" + client) == name
  {
    assert name[..|name|] == name;
    if '@' !in client {
      var all := name + "@" + client;
      assert all[|name|] == '@' && all[|name| + 1..] == client;
      LastIs(all, '@', |name|);
      assert all[..|name|] == name;
    }
  }

  lemma LastIs(s: string, c: char, n: nat)
    requires n < |s| && s[n] == c && c !in s[n + 1..]
    ensures Last(s, c) == n
  {
    var m := Last(s, c);
    forall k | m < k < |s| ensures s[k] != c { assert s[m + 1..][k - m - 1] == s[k]; }
    forall k | n < k < |s| ensures s[k] != c { assert s[n + 1..][k - n - 1] == s[k]; }
  }

  /** A delegation acts with the grant of its key, and lives as long as it. */
  lemma {:induction false} DelegationInherits(ring: Keyring, key: string, client: string)
    requires Sound(ring) && HasName(ring.keys, key) && '@' !in client
    ensures GrantOf(ring, key + "@" + client) == GrantOf(ring, key)
    ensures Recognizes(ring, key + "@" + client)
  {
    hide Last, BaseKey, DistinctNames, DistinctTokens;
    BaseOf(key, client);
    NamesHoldNoAt(ring, key);
    NamesHoldNoAt(ring, key + "@" + client);
    assert (key + "@" + client)[|key|] == '@';
  }

  lemma NamesHoldNoAt(ring: Keyring, name: string)
    requires Sound(ring)
    ensures HasName(ring.keys, name) ==> '@' !in name
  {
    if HasName(ring.keys, name) {
      var i :| 0 <= i < |ring.keys| && ring.keys[i].name == name;
      assert ring.keys[i] in ring.keys;
    }
  }

  /** What a configured key may do: what the grants say of its name, and everything when
      they do not name it. */
  lemma {:induction false} GrantMeans(v: Sources, read: string -> Option<map<string, GrantSpec>>, isContextId: string -> bool, k: Key)
    requires Built(v, read, isContextId).Some? && k in Built(v, read, isContextId).value.keys
    ensures var grant := GrantOf(Built(v, read, isContextId).value, k.name);
      if v.grants.Some? && read(v.grants.value).Some? && k.name in read(v.grants.value).value then
        var spec := read(v.grants.value).value[k.name];
        && (grant.role == Read <==> spec.role == "read") && (grant.role == Write <==> spec.role == "write")
        && (grant.role == Admin <==> spec.role == "admin") && (grant.contexts.None? <==> spec.contexts.None?)
        && (grant.contexts.Some? ==> forall c :: c in grant.contexts.value <==> c in spec.contexts.value)
      else grant == KeyGrant(Admin, None)
  {
    hide Accepts, AllKeys, Trim;
    var ring := Built(v, read, isContextId).value;
    BuiltSound(v, read, isContextId);
    hide Last;
    NoBase(k.name);
  }

  lemma NoBase(name: string)
    requires '@' !in name
    ensures BaseKey(name) == name
  {
    assert name[..|name|] == name;
  }

  /** No accepted key lacks a name or a token. */
  lemma {:induction false} NothingEmpty(single: Option<string>, named: Option<string>, k: Key)
    requires Accepts(single, named) && k in AllKeys(single, named)
    ensures k.name != "" && k.token != ""
  {
    hide Entries, Split, DistinctNames, DistinctTokens, KeyOf, Trim;
    var entries := NamedEntries(named);
    if k !in SingleKeys(single) {
      assert k in KeysOf(entries);
      var i :| 0 <= i < |entries| && KeysOf(entries)[i] == k;
      assert ProperEntry(entries[i]);
    }
  }
}
