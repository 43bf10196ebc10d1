/** The contexts a group reaches through its child groups (`group_members` in
    `src/communities.rs`). */
module GroupMembers {
  import opened Common

  type Name = seq<byte>
  type Id = seq<byte>

  /** A group record as the server answers it. */
  datatype Group = Group(contexts: seq<Id>, children: seq<Name>)

  /** The group that could not be read, or the contexts reached. */
  datatype Members = Members(contexts: set<Id>) | Missing(group: Name)

  ghost predicate Path(groups: map<Name, Group>, p: seq<Name>) {
    p != [] && forall i | 0 <= i < |p| - 1 :: Step(groups, p[i], p[i + 1])
  }

  ghost predicate Step(groups: map<Name, Group>, a: Name, b: Name) {
    a in groups && b in groups[a].children
  }

  ghost predicate PathTo(groups: map<Name, Group>, p: seq<Name>, a: Name, b: Name) {
    Path(groups, p) && p[0] == a && p[|p| - 1] == b
  }

  ghost predicate Reaches(groups: map<Name, Group>, a: Name, b: Name) {
    exists p :: PathTo(groups, p, a, b)
  }

  ghost predicate Holds(groups: map<Name, Group>, name: Name, id: Id) {
    name in groups && id in groups[name].contexts
  }

  lemma ReachesItself(groups: map<Name, Group>, a: Name)
    ensures Reaches(groups, a, a)
  {
    assert PathTo(groups, [a], a, a);
  }

  lemma ReachesChild(groups: map<Name, Group>, a: Name, b: Name, c: Name)
    requires Reaches(groups, a, b) && Step(groups, b, c)
    ensures Reaches(groups, a, c)
  {
    var p :| PathTo(groups, p, a, b);
    assert PathTo(groups, p + [c], a, c);
  }

  /** A set of groups closed under children holds all its members reach. */
  lemma {:induction false} ClosedHoldsPath(groups: map<Name, Group>, seen: set<Name>, p: seq<Name>)
    requires Path(groups, p) && p[0] in seen
    requires forall a, b | a in seen && Step(groups, a, b) :: b in seen
    ensures p[|p| - 1] in seen
  {
    if |p| > 1 {
      assert Step(groups, p[0], p[0 + 1]);
      var rest := p[1..];
      assert forall i | 0 <= i < |rest| - 1 :: Step(groups, p[i + 1], p[i + 1 + 1]) && rest[i] == p[i + 1];
      ClosedHoldsPath(groups, seen, rest);
    }
  }

  /** Works through the pending groups, each read once however often it is met: the
      answer is the contexts of every group reached, cycles or not, unless one of
      those cannot be read. */
  method GroupMembers(groups: map<Name, Group>, start: Name) returns (r: Members)
    ensures r.Missing? ==> Reaches(groups, start, r.group) && r.group !in groups
    ensures r.Members? ==> forall g | Reaches(groups, start, g) :: g in groups
    ensures r.Members? ==> forall id :: id in r.contexts <==> exists g :: Reaches(groups, start, g) && Holds(groups, g, id)
  {
    hide Reaches;
    var contexts: set<Id> := {};
    var pending, seen: set<Name> := [start], {};
    ReachesItself(groups, start);
    while pending != []
      invariant seen <= groups.Keys
      invariant start in seen || start in pending
      invariant forall g | g in seen || g in pending :: Reaches(groups, start, g)
      invariant forall a, b | a in seen && Step(groups, a, b) :: b in seen || b in pending
      invariant forall id :: id in contexts <==> exists g :: g in seen && Holds(groups, g, id)
      decreases |groups.Keys - seen|, |pending|
    {
      var name := pending[|pending| - 1];
      ghost var before := pending;
      assert pending == pending[..|pending| - 1] + [name];
      pending := pending[..|pending| - 1];
      if name in seen {
        continue;
      }
      if name !in groups {
        return Missing(name);
      }
      var group := groups[name];
      assert groups.Keys - (seen + {name}) < groups.Keys - seen;
      FewerLeft(groups.Keys - (seen + {name}), groups.Keys - seen);
      forall c | c in group.children ensures Reaches(groups, start, c) {
        ReachesChild(groups, start, name, c);
      }
      ContextsMore(groups, seen, name, contexts);
      seen := seen + {name};
      contexts := contexts + set id | id in group.contexts;
      pending := pending + group.children;
    }
    forall g | Reaches(groups, start, g) ensures g in seen {
      ReachedIsSeen(groups, seen, start, g);
    }
    r := Members(contexts);
  }

  lemma FewerLeft(a: set<Name>, b: set<Name>)
    requires a < b
    ensures |a| < |b|
  {
    assert |b| == |a| + |b - a| by { assert b == a + (b - a); }
    assert b - a != {};
  }

  lemma ContextsMore(groups: map<Name, Group>, seen: set<Name>, name: Name, contexts: set<Id>)
    requires name in groups && forall id :: id in contexts <==> exists g :: g in seen && Holds(groups, g, id)
    ensures forall id :: id in contexts || id in groups[name].contexts <==> exists g :: g in seen + {name} && Holds(groups, g, id)
  {
    forall id ensures id in contexts || id in groups[name].contexts <==> exists g :: g in seen + {name} && Holds(groups, g, id) {
      assert id in groups[name].contexts <==> Holds(groups, name, id);
      if id in contexts {
        var g :| g in seen && Holds(groups, g, id);
        assert g in seen + {name};
      } else if id in groups[name].contexts {
        assert name in seen + {name};
      }
    }
  }

  lemma ReachedIsSeen(groups: map<Name, Group>, seen: set<Name>, start: Name, g: Name)
    requires Reaches(groups, start, g) && start in seen
    requires forall a, b | a in seen && Step(groups, a, b) :: b in seen
    ensures g in seen
  {
    var p :| PathTo(groups, p, start, g);
    ClosedHoldsPath(groups, seen, p);
  }
}
