/** How far an extraction's associations are found in the text they were drawn
    from (`src/anchoring.rs`): the groups that alias pairs join
    spellings into, and the judgment of each association against them. */
module Anchoring {
  import opened Common
  import opened Connectivity
  import opened Orders

  type Text = seq<byte>

  /** An alias: a spelling and the name it stands for. */
  type Alias = (Text, Text)

  function Normalized(aliases: seq<Alias>, normalize: Text -> Text): (r: seq<Alias>)
    ensures |r| == |aliases|
  {
    seq(|aliases|, i requires 0 <= i < |aliases| => (normalize(aliases[i].0), normalize(aliases[i].1)))
  }

  /** The members of `s` other than `x`, in order. */
  function Without(s: seq<Text>, x: Text): seq<Text> {
    if s == [] then [] else (if s[0] == x then [] else [s[0]]) + Without(s[1..], x)
  }

  lemma {:induction false} ConsOnce(x: Text, s: seq<Text>)
    ensures NoDuplicates([x] + s) <==> x !in s && NoDuplicates(s)
  {
    var all := [x] + s;
    assert forall k | 0 <= k < |s| :: all[k + 1] == s[k];
    if NoDuplicates(all) {
      forall k | 0 <= k < |s| ensures x != s[k] {
        assert all[0] != all[k + 1];
      }
      forall i, j | 0 <= i < j < |s| ensures s[i] != s[j] {
        assert all[i + 1] != all[j + 1];
      }
    }
  }

  lemma {:induction false} WithoutElements(s: seq<Text>, x: Text)
    ensures forall y :: y in Without(s, x) <==> y in s && y != x
    ensures NoDuplicates(s) ==> NoDuplicates(Without(s, x))
  {
    if s != [] {
      hide NoDuplicates;
      WithoutElements(s[1..], x);
      assert s == [s[0]] + s[1..];
      assert Without(s, x) == if s[0] == x then Without(s[1..], x) else [s[0]] + Without(s[1..], x);
      ConsOnce(s[0], s[1..]);
      ConsOnce(s[0], Without(s[1..], x));
    }
  }

  /** `x` is listed under the root `r`. */
  ghost predicate Holds(members: map<Text, seq<Text>>, r: Text, x: Text) {
    r in members && x in members[r]
  }

  /** The lists hold the spellings of `done`, each once, under its root. */
  ghost predicate Listed(members: map<Text, seq<Text>>, f: Shape<Text>, done: seq<Text>) {
    && (forall r | r in members :: NoDuplicates(members[r]))
    && (forall r, x :: Holds(members, r, x) <==> x in done && x in f.root && f.root[x] == r)
  }

  /** Filing one more spelling: appended to its root's list unless it is there. */
  function Filed(members: map<Text, seq<Text>>, r: Text, x: Text): map<Text, seq<Text>> {
    var group := if r in members then members[r] else [];
    members[r := if x in group then group else group + [x]]
  }

  lemma {:induction false} FiledListed(members: map<Text, seq<Text>>, f: Shape<Text>, done: seq<Text>, x: Text)
    requires Listed(members, f, done) && x in f.root
    ensures Listed(Filed(members, f.root[x], x), f, done + [x])
  {
    var r := f.root[x];
    var group := if r in members then members[r] else [];
    var next := Filed(members, r, x);
    forall s, y ensures Holds(next, s, y) <==> y in done + [x] && y in f.root && f.root[y] == s {
      assert Holds(members, s, y) <==> y in done && y in f.root && f.root[y] == s;
      assert Holds(members, r, x) <==> x in group;
    }
  }

  /** Every spelling the aliases mention, in the order they do. */
  function Mentioned(aliases: seq<Alias>): seq<Text> {
    if aliases == [] then []
    else
      var last := aliases[|aliases| - 1];
      Mentioned(aliases[..|aliases| - 1]) + [last.0, last.1]
  }

  lemma {:induction false} MentionedNodes(aliases: seq<Alias>)
    ensures forall x :: x in Mentioned(aliases) <==> x in Nodes(aliases)
  {
    if aliases != [] {
      var init, last := aliases[..|aliases| - 1], aliases[|aliases| - 1];
      MentionedNodes(init);
      NodesMore(init, last.0, last.1);
      assert aliases == init + [(last.0, last.1)];
    }
  }

  lemma {:induction false} MentionedGrows(aliases: seq<Alias>, i: nat)
    requires i < |aliases|
    ensures aliases[..i + 1] == aliases[..i] + [aliases[i]]
    ensures Mentioned(aliases[..i + 1]) == Mentioned(aliases[..i]) + [aliases[i].0, aliases[i].1]
  {
    assert aliases[..i + 1][..i] == aliases[..i];
  }

  lemma {:induction false} OldNode(parent: map<Text, Text>, f: Shape<Text>, node: Text)
    requires Forest(parent, f) && node in parent
    ensures parent[node] in parent && Grown(f, node) == f && Grown(f, parent[node]) == f
    ensures f.root[node] in parent && f.root[parent[node]] == f.root[node]
    ensures parent[node] == node <==> f.root[node] == node
    ensures parent[node] != node ==> f.rank[node] < f.rank[parent[node]] && f.rank[node] < f.rank[f.root[node]]
    ensures f.rank[parent[node]] <= f.top
  {
    assert Placed(parent, f, node) && Placed(parent, f, parent[node]);
  }

  lemma {:induction false} EmptyRepresents(f: Shape<Text>)
    requires f == Shape(map[], map[], 0)
    ensures Represents(f, []) && Forest(map[], f) && Mentioned([]) == []
  {
  }

  lemma {:induction false} MentionedAreNodes(f: Shape<Text>, pairs: seq<Alias>)
    requires Represents(f, pairs)
    ensures forall x :: x in Mentioned(pairs) <==> x in f.root
  {
    MentionedNodes(pairs);
  }

  lemma {:induction false} EmptyListed(f: Shape<Text>)
    ensures Listed(map[], f, [])
  {
  }

  lemma {:induction false} GrownKeeps(f: Shape<Text>, x: Text)
    requires x in f.root
    ensures Grown(f, x) == f
  {
  }

  lemma {:induction false} ListedOnce(members: map<Text, seq<Text>>, f: Shape<Text>, pairs: seq<Alias>)
    requires Listed(members, f, Mentioned(pairs))
    ensures forall r | r in members :: NoDuplicates(members[r])
  {
  }

  /** A node whose own link ends at `root` is listed under it with its component,
      and what is not a node is a component of its own. */
  lemma {:induction false} GroupIsComponent(f: Shape<Text>, pairs: seq<Alias>, members: map<Text, seq<Text>>, x: Text, root: Text, y: Text)
    requires Represents(f, pairs) && Listed(members, f, Mentioned(pairs))
    requires Closed(f) && root == if x in f.root then f.root[x] else x
    ensures Connected(pairs, x, y) <==> Holds(members, root, y) || y == x
  {
    MentionedNodes(pairs);
    Reflexive(pairs, x);
    if x in f.root {
      if Connected(pairs, x, y) { ConnectedNodes(pairs, x, y); }
      if y in f.root { assert SameTree(f, x, y) <==> Connected(pairs, x, y); }
      assert Holds(members, root, y) <==> y in Mentioned(pairs) && y in f.root && f.root[y] == root;
    } else {
      Alone(pairs, x, y);
      assert Holds(members, root, y) <==> y in Mentioned(pairs) && y in f.root && f.root[y] == root;
    }
  }

  class AliasGroups {
    var parent: map<Text, Text>
    var members: map<Text, seq<Text>>
    ghost var shape: Shape<Text>
    ghost var pairs: seq<Alias>

    ghost predicate Valid()
      reads this
    {
      && Forest(parent, shape)
      && Represents(shape, pairs)
      && Listed(members, shape, Mentioned(pairs))
    }

    /** The root of `node`, which is inserted as its own root when missing; the
        links on the way are pointed at the root. */
    method Find(node: Text) returns (root: Text)
      requires Forest(parent, shape)
      modifies `parent, `shape
      ensures Forest(parent, shape)
      ensures shape == Grown(old(shape), node)
      ensures root == shape.root[node]
      decreases if node in shape.rank then shape.top - shape.rank[node] else 0
    {
      hide Grown, Placed;
      if node !in parent {
        GrownForest(parent, shape, node);
        parent := parent[node := node];
        shape := Grown(shape, node);
        return node;
      }
      OldNode(parent, shape, node);
      var up := parent[node];
      if up == node {
        return up;
      }
      root := Find(up);
      OldNode(parent, shape, node);
      RootsAreFixed(parent, shape, node);
      Relinked(parent, shape, node, root);
      parent := parent[node := root];
    }

    /** Joins the two spellings of every alias, then lists each spelling under
        its root in the order the aliases mention them. */
    constructor (aliases: seq<Alias>, normalize: Text -> Text)
      ensures Valid() && pairs == Normalized(aliases, normalize)
    {
      parent, members := map[], map[];
      shape, pairs := Shape(map[], map[], 0), [];
      new;
      hide Connected, Placed, Grown, United, Represents, Listed;
      var names: seq<Text> := [];
      EmptyRepresents(shape);
      for i := 0 to |aliases|
        invariant pairs == Normalized(aliases, normalize)[..i] && names == Mentioned(pairs)
        invariant Forest(parent, shape) && Represents(shape, pairs) && members == map[]
      {
        var spelling, canonical := normalize(aliases[i].0), normalize(aliases[i].1);
        names := names + [spelling, canonical];
        Join(spelling, canonical);
        MentionedGrows(Normalized(aliases, normalize), i);
      }
      List(names);
    }

    method Join(spelling: Text, canonical: Text)
      requires Forest(parent, shape) && Represents(shape, pairs)
      modifies `parent, `shape, `pairs
      ensures Forest(parent, shape) && Represents(shape, pairs)
      ensures pairs == old(pairs) + [(spelling, canonical)]
    {
      hide Connected, Placed, United, Represents, Grown, Forest, Closed;
      ForestClosed(parent, shape);
      var spellingRoot := Find(spelling);
      var canonicalRoot := Find(canonical);
      PairJoined(parent, old(shape), shape, pairs, spelling, canonical);
      parent := parent[spellingRoot := canonicalRoot];
      shape := United(shape, spellingRoot, canonicalRoot);
      pairs := pairs + [(spelling, canonical)];
    }

    method List(names: seq<Text>)
      requires Forest(parent, shape) && Represents(shape, pairs) && names == Mentioned(pairs) && members == map[]
      modifies `parent, `shape, `members
      ensures Valid()
    {
      hide Connected, Placed, Grown, Represents, Listed, Mentioned;
      MentionedAreNodes(shape, pairs);
      EmptyListed(shape);
      for i := 0 to |names|
        invariant Forest(parent, shape) && shape == old(shape)
        invariant Listed(members, shape, names[..i])
      {
        var name := names[i];
        GrownKeeps(shape, name);
        var root := Find(name);
        FiledListed(members, shape, names[..i], name);
        members := Filed(members, root, name);
        assert names[..i + 1] == names[..i] + [name];
      }
      assert names[..|names|] == names;
    }

    /** Every spelling in the group of `name`, itself first. */
    method Group(name: Text) returns (group: seq<Text>)
      requires Valid()
      ensures group != [] && group[0] == name && NoDuplicates(group)
      ensures forall y :: y in group <==> Connected(pairs, name, y)
    {
      hide Connected, Represents, Listed;
      var root := name;
      while root in parent && parent[root] != root
        invariant name in parent ==> root in parent && shape.root[root] == shape.root[name]
        invariant name !in parent ==> root == name
        decreases if root in shape.rank then shape.top - shape.rank[root] else 0
      {
        assert Placed(parent, shape, root) && Placed(parent, shape, parent[root]);
        root := parent[root];
      }
      if name in parent { assert Placed(parent, shape, root); }
      ForestClosed(parent, shape);
      forall y ensures Connected(pairs, name, y) <==> Holds(members, root, y) || y == name {
        GroupIsComponent(shape, pairs, members, name, root, y);
      }
      group := [name];
      if root in members {
        WithoutElements(members[root], name);
        ListedOnce(members, shape, pairs);
        ConsOnce(name, Without(members[root], name));
        group := group + Without(members[root], name);
      }
    }
  }

  // -------------------------------------------------------------------- judging

  datatype Association = Association(subject: Text, obj: Text, paragraph: Option<nat>)

  datatype Verdict = Verdict(index: nat, strict: bool, withAliases: bool, locatorValid: Option<bool>)

  datatype Counts = Counts(associations: nat, anchoredStrict: nat, anchoredWithAliases: nat, cited: nat, locatorValid: nat)

  predicate OccursAt(text: Text, name: Text, i: nat) {
    i + |name| <= |text| && text[i..i + |name|] == name
  }

  /** A substring match. */
  predicate Contains(text: Text, name: Text) {
    exists i | 0 <= i <= |text| :: OccursAt(text, name, i)
  }

  /** Some spelling the aliases connect with `name` occurs in the text. */
  ghost predicate AnySpelling(text: Text, pairs: seq<Alias>, name: Text) {
    exists y :: Connected(pairs, name, y) && Contains(text, y)
  }

  function Cited(paragraphs: seq<Text>, a: Association): Option<Text> {
    if a.paragraph.Some? && a.paragraph.value < |paragraphs| then Some(paragraphs[a.paragraph.value]) else None
  }

  /** The paragraph an association cites, or the whole passage. */
  function Haystack(whole: Text, paragraphs: seq<Text>, a: Association): Text {
    match Cited(paragraphs, a)
    case Some(text) => text
    case None => whole
  }

  /** The verdict on an association, all its texts being normalized. */
  ghost function VerdictOf(whole: Text, paragraphs: seq<Text>, pairs: seq<Alias>, a: Association, i: nat): Verdict {
    var text := Haystack(whole, paragraphs, a);
    var subject, obj := AnySpelling(text, pairs, a.subject), AnySpelling(text, pairs, a.obj);
    Verdict(i, Contains(text, a.subject) && Contains(text, a.obj), subject && obj,
            if a.paragraph.Some? then Some(Cited(paragraphs, a).Some? && (subject || obj)) else None)
  }

  ghost function Verdicts(whole: Text, paragraphs: seq<Text>, pairs: seq<Alias>, associations: seq<Association>): (r: seq<Verdict>)
    ensures |r| == |associations|
  {
    seq(|associations|, i requires 0 <= i < |associations| => VerdictOf(whole, paragraphs, pairs, associations[i], i))
  }

  function Plus(c: Counts, v: Verdict): Counts {
    Counts(c.associations + 1,
           c.anchoredStrict + (if v.strict then 1 else 0),
           c.anchoredWithAliases + (if v.withAliases then 1 else 0),
           c.cited + (if v.locatorValid.Some? then 1 else 0),
           c.locatorValid + (if v.locatorValid == Some(true) then 1 else 0))
  }

  /** The counts that summarize the verdicts. */
  function Tally(verdicts: seq<Verdict>): Counts {
    if verdicts == [] then Counts(0, 0, 0, 0, 0)
    else Plus(Tally(verdicts[..|verdicts| - 1]), verdicts[|verdicts| - 1])
  }

  method AnyOccurs(text: Text, spellings: seq<Text>) returns (found: bool)
    ensures found <==> exists y | y in spellings :: Contains(text, y)
  {
    for i := 0 to |spellings|
      invariant forall k | 0 <= k < i :: !Contains(text, spellings[k])
    {
      if Contains(text, spellings[i]) {
        return true;
      }
    }
    return false;
  }

  function NormalizedAll(texts: seq<Text>, normalize: Text -> Text): (r: seq<Text>)
    ensures |r| == |texts|
  {
    seq(|texts|, i requires 0 <= i < |texts| => normalize(texts[i]))
  }

  function NormalizedAssociation(a: Association, normalize: Text -> Text): Association {
    a.(subject := normalize(a.subject), obj := normalize(a.obj))
  }

  function NormalizedAssociations(associations: seq<Association>, normalize: Text -> Text): (r: seq<Association>)
    ensures |r| == |associations|
  {
    seq(|associations|, i requires 0 <= i < |associations| => NormalizedAssociation(associations[i], normalize))
  }

  method JudgeOne(groups: AliasGroups, whole: Text, paragraphs: seq<Text>, a: Association, i: nat) returns (v: Verdict)
    requires groups.Valid()
    ensures v == VerdictOf(whole, paragraphs, groups.pairs, a, i)
  {
    hide Connected, Contains;
    var cited := Cited(paragraphs, a);
    var text := if cited.Some? then cited.value else whole;
    var strict := Contains(text, a.subject) && Contains(text, a.obj);
    var spellings := groups.Group(a.subject);
    var subject := AnyOccurs(text, spellings);
    var others := groups.Group(a.obj);
    var obj := AnyOccurs(text, others);
    var locatorValid := None;
    if a.paragraph.Some? {
      locatorValid := Some(cited.Some? && (subject || obj));
    }
    v := Verdict(i, strict, subject && obj, locatorValid);
  }

  /** Judges every association against its cited paragraph, or the whole passage
      when it cites none or one that does not exist. The passage comes split. */
  method Judge(passage: Text, paragraphs: seq<Text>, associations: seq<Association>, own: seq<Alias>, context: seq<Alias>,
               normalize: Text -> Text)
    returns (counts: Counts, verdicts: seq<Verdict>)
    ensures verdicts == Verdicts(normalize(passage), NormalizedAll(paragraphs, normalize),
                                 Normalized(own + context, normalize), NormalizedAssociations(associations, normalize))
    ensures counts == Tally(verdicts)
  {
    hide VerdictOf;
    var groups := new AliasGroups(own + context, normalize);
    var haystacks := NormalizedAll(paragraphs, normalize);
    var whole := normalize(passage);
    ghost var expected := Verdicts(whole, haystacks, groups.pairs, NormalizedAssociations(associations, normalize));
    counts, verdicts := Counts(0, 0, 0, 0, 0), [];
    for i := 0 to |associations|
      invariant groups.Valid() && groups.pairs == Normalized(own + context, normalize)
      invariant verdicts == expected[..i] && counts == Tally(verdicts)
    {
      var v := JudgeOne(groups, whole, haystacks, NormalizedAssociation(associations[i], normalize), i);
      assert expected[..i + 1] == expected[..i] + [v];
      assert (verdicts + [v])[..i] == verdicts;
      verdicts := verdicts + [v];
      counts := Plus(counts, v);
    }
    assert expected[..|associations|] == expected;
  }

  // ------------------------------------------------------------------ properties

  /** Listing aliases in another order, or turned around, or twice changes no
      group. */
  lemma {:induction false} GroupsIgnoreOrder(pairs: seq<Alias>, others: seq<Alias>, x: Text, y: Text)
    requires forall a, b :: Joined(pairs, a, b) <==> Joined(others, a, b)
    ensures Connected(pairs, x, y) <==> Connected(others, x, y)
  {
    if Connected(pairs, x, y) { Monotone(pairs, others, x, y); }
    if Connected(others, x, y) { Monotone(others, pairs, x, y); }
  }

  lemma {:induction false} OneMoreAnchors(whole: Text, paragraphs: seq<Text>, pairs: seq<Alias>, more: seq<Alias>, a: Association, i: nat)
    requires forall p | p in pairs :: p in more
    ensures var v, w := VerdictOf(whole, paragraphs, pairs, a, i), VerdictOf(whole, paragraphs, more, a, i);
      && v.strict == w.strict && (v.strict ==> v.withAliases)
      && (v.withAliases ==> w.withAliases)
      && v.locatorValid.Some? == w.locatorValid.Some?
      && (v.locatorValid == Some(true) ==> w.locatorValid == Some(true))
  {
    hide Connected, Contains;
    var text := Haystack(whole, paragraphs, a);
    SpellingsGrow(text, pairs, more, a.subject);
    SpellingsGrow(text, pairs, more, a.obj);
  }

  lemma {:induction false} SpellingsGrow(text: Text, pairs: seq<Alias>, more: seq<Alias>, name: Text)
    requires forall p | p in pairs :: p in more
    ensures Contains(text, name) ==> AnySpelling(text, pairs, name)
    ensures AnySpelling(text, pairs, name) ==> AnySpelling(text, more, name)
  {
    hide Connected, Contains;
    Reflexive(pairs, name);
    if y :| Connected(pairs, name, y) && Contains(text, y) {
      Monotone(pairs, more, name, y);
    }
  }

  /** More aliases never anchor fewer associations nor validate fewer citations,
      and change neither the strict count nor the citations; what is anchored
      strictly is anchored. */
  lemma {:induction false} MoreAliasesAnchorMore(
      whole: Text, paragraphs: seq<Text>, pairs: seq<Alias>, more: seq<Alias>, associations: seq<Association>)
    requires forall p | p in pairs :: p in more
    ensures
      var before := Tally(Verdicts(whole, paragraphs, pairs, associations));
      var after := Tally(Verdicts(whole, paragraphs, more, associations));
      && after.anchoredStrict == before.anchoredStrict && after.cited == before.cited
      && before.anchoredStrict <= before.anchoredWithAliases <= after.anchoredWithAliases
      && before.locatorValid <= after.locatorValid <= after.cited
      && before.associations == after.associations == |associations|
  {
    var before, after := Verdicts(whole, paragraphs, pairs, associations), Verdicts(whole, paragraphs, more, associations);
    if associations != [] {
      hide VerdictOf;
      var n := |associations| - 1;
      MoreAliasesAnchorMore(whole, paragraphs, pairs, more, associations[..n]);
      assert before[..n] == Verdicts(whole, paragraphs, pairs, associations[..n]);
      assert after[..n] == Verdicts(whole, paragraphs, more, associations[..n]);
      OneMoreAnchors(whole, paragraphs, pairs, more, associations[n], n);
    }
  }

  // --------------------------------------------------------- what a verdict says

  /** The name stands somewhere in the text. */
  ghost predicate Inside(text: Text, name: Text) {
    exists before: Text, after: Text :: text == before + name + after
  }

  lemma {:induction false} ContainsMeans(text: Text, name: Text)
    ensures Contains(text, name) <==> Inside(text, name)
  {
    if Contains(text, name) {
      var i :| 0 <= i <= |text| && OccursAt(text, name, i);
      assert text == text[..i] + name + text[i + |name|..];
    }
    if before: Text, after: Text :| text == before + name + after {
      assert OccursAt(text, name, |before|);
    }
  }

  /** An association is strict when both its ends stand in the text it is judged by,
      anchored when a spelling of each does; that text is the paragraph it cites, if
      there is one, and the passage otherwise. A citation is valid when its paragraph
      exists and holds a spelling of either end. */
  lemma {:induction false} VerdictMeans(whole: Text, paragraphs: seq<Text>, pairs: seq<Alias>, a: Association, i: nat)
    ensures var v := VerdictOf(whole, paragraphs, pairs, a, i);
      var exists' := a.paragraph.Some? && a.paragraph.value < |paragraphs|;
      var text := if exists' then paragraphs[a.paragraph.value] else whole;
      && (v.strict <==> Inside(text, a.subject) && Inside(text, a.obj))
      && (v.withAliases <==> SpelledInside(text, pairs, a.subject) && SpelledInside(text, pairs, a.obj))
      && (v.locatorValid.Some? <==> a.paragraph.Some?)
      && (v.locatorValid == Some(true) <==>
            exists' && (SpelledInside(text, pairs, a.subject) || SpelledInside(text, pairs, a.obj)))
  {
    hide Connected, Contains, Inside;
    var text := Haystack(whole, paragraphs, a);
    ContainsMeans(text, a.subject);
    ContainsMeans(text, a.obj);
    SpelledMeans(text, pairs, a.subject);
    SpelledMeans(text, pairs, a.obj);
  }

  ghost predicate SpelledInside(text: Text, pairs: seq<Alias>, name: Text) {
    exists y :: Connected(pairs, name, y) && Inside(text, y)
  }

  lemma SpelledMeans(text: Text, pairs: seq<Alias>, name: Text)
    ensures AnySpelling(text, pairs, name) <==> SpelledInside(text, pairs, name)
  {
    hide Connected, Contains, Inside;
    forall y ensures Contains(text, y) <==> Inside(text, y) { ContainsMeans(text, y); }
  }

  /** The verdicts of a kind, by their places. */
  ghost function Places(verdicts: seq<Verdict>, kind: Verdict -> bool): set<nat> {
    set i: nat | i < |verdicts| && kind(verdicts[i])
  }

  lemma PlacesMore(verdicts: seq<Verdict>, v: Verdict, kind: Verdict -> bool)
    ensures |Places(verdicts + [v], kind)| == |Places(verdicts, kind)| + if kind(v) then 1 else 0
  {
    assert Places(verdicts + [v], kind) == Places(verdicts, kind) + if kind(v) then {|verdicts|} else {};
  }

  predicate StrictOne(v: Verdict) { v.strict }

  predicate AnchoredOne(v: Verdict) { v.withAliases }

  predicate CitedOne(v: Verdict) { v.locatorValid.Some? }

  predicate ValidOne(v: Verdict) { v.locatorValid == Some(true) }

  /** Each count is the number of its verdicts. */
  lemma {:induction false} TallyCounts(verdicts: seq<Verdict>)
    ensures var c := Tally(verdicts);
      && c.associations == |verdicts|
      && c.anchoredStrict == |Places(verdicts, StrictOne)| && c.anchoredWithAliases == |Places(verdicts, AnchoredOne)|
      && c.cited == |Places(verdicts, CitedOne)| && c.locatorValid == |Places(verdicts, ValidOne)|
  {
    if verdicts != [] {
      var init, v := verdicts[..|verdicts| - 1], verdicts[|verdicts| - 1];
      TallyCounts(init);
      PlacesMore(init, v, StrictOne);
      PlacesMore(init, v, AnchoredOne);
      PlacesMore(init, v, CitedOne);
      PlacesMore(init, v, ValidOne);
      hide Places;
      assert verdicts == init + [v];
    }
  }
}
