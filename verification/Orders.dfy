/** Strict orders, sorting, and the uniqueness of a strictly sorted list. */
module Orders {
  import opened Common

  /** `less` is a strict total order on the elements of `s`. */
  ghost predicate TotalOn<T(!new)>(less: (T, T) -> bool, s: set<T>) {
    && (forall x | x in s :: !less(x, x))
    && (forall x, y | x in s && y in s && x != y :: less(x, y) || less(y, x))
    && (forall x, y, z | x in s && y in s && z in s && less(x, y) && less(y, z) :: less(x, z))
  }

  ghost predicate StrictlySorted<T>(s: seq<T>, less: (T, T) -> bool) {
    forall i, j | 0 <= i < j < |s| :: less(s[i], s[j])
  }

  function Elements<T>(s: seq<T>): (r: set<T>) {
    set x | x in s
  }

  ghost predicate NoDuplicates<T>(s: seq<T>) {
    forall i, j | 0 <= i < j < |s| :: s[i] != s[j]
  }

  /** Places `x` before the first element it precedes. */
  function Insert<T>(x: T, s: seq<T>, less: (T, T) -> bool): (r: seq<T>)
    ensures |r| == |s| + 1
    ensures multiset(r) == multiset(s) + multiset{x}
  {
    if s == [] then [x]
    else if less(x, s[0]) then [x] + s
    else
      assert s == [s[0]] + s[1..];
      [s[0]] + Insert(x, s[1..], less)
  }

  /** The list `s` in the order `less`: what a comparison sort returns. */
  function Sort<T>(s: seq<T>, less: (T, T) -> bool): (r: seq<T>)
    ensures |r| == |s|
    ensures multiset(r) == multiset(s)
  {
    if s == [] then []
    else
      assert s == [s[0]] + s[1..];
      Insert(s[0], Sort(s[1..], less), less)
  }

  lemma SameElements<T>(a: seq<T>, b: seq<T>)
    requires multiset(a) == multiset(b)
    ensures Elements(a) == Elements(b)
  {
    forall x ensures x in a <==> x in b {
      assert x in a <==> x in multiset(a);
      assert x in b <==> x in multiset(b);
    }
  }

  lemma PrependSorted<T>(x: T, s: seq<T>, less: (T, T) -> bool)
    requires StrictlySorted(s, less) && forall y | y in s :: less(x, y)
    ensures StrictlySorted([x] + s, less)
  {
    var r := [x] + s;
    forall i, j | 0 <= i < j < |r| ensures less(r[i], r[j]) {
      assert r[j] == s[j - 1] && s[j - 1] in s;
    }
  }

  lemma {:induction false} InsertSorted<T(!new)>(x: T, s: seq<T>, less: (T, T) -> bool)
    requires TotalOn(less, Elements(s) + {x})
    requires StrictlySorted(s, less) && x !in s
    ensures StrictlySorted(Insert(x, s, less), less)
  {
    if s == [] {
    } else if less(x, s[0]) {
      assert s[0] in Elements(s) + {x} && x in Elements(s) + {x};
      forall y | y in s ensures less(x, y) {
        var j :| 0 <= j < |s| && s[j] == y;
        assert y in Elements(s) + {x};
      }
      PrependSorted(x, s, less);
    } else {
      var tail := s[1..];
      assert Elements(tail) + {x} <= Elements(s) + {x};
      assert s[0] in Elements(s) + {x} && x in Elements(s) + {x};
      InsertSorted(x, tail, less);
      var rest := Insert(x, tail, less);
      forall y | y in rest ensures less(s[0], y) {
        assert y in multiset(rest);
        assert y == x || y in multiset(tail);
        if y in tail {
          var j :| 0 <= j < |tail| && tail[j] == y;
          assert s[j + 1] == y;
        }
      }
      PrependSorted(s[0], rest, less);
    }
  }

  /** Sorting a list of distinct elements by a total order sorts it strictly. */
  lemma {:induction false} SortSorts<T(!new)>(s: seq<T>, less: (T, T) -> bool)
    requires TotalOn(less, Elements(s)) && NoDuplicates(s)
    ensures StrictlySorted(Sort(s, less), less)
    ensures Elements(Sort(s, less)) == Elements(s)
  {
    SameElements(Sort(s, less), s);
    if s != [] {
      var tail := s[1..];
      assert Elements(tail) <= Elements(s);
      SortSorts(tail, less);
      assert s[0] !in tail;
      assert s[0] in Elements(s);
      assert Elements(Sort(tail, less)) + {s[0]} <= Elements(s);
      InsertSorted(s[0], Sort(tail, less), less);
    }
  }

  lemma HeadFirst<T(!new)>(a: seq<T>, less: (T, T) -> bool, x: T)
    requires x in a && StrictlySorted(a, less)
    ensures x == a[0] || less(a[0], x)
  {
  }

  lemma SameHead<T(!new)>(a: seq<T>, b: seq<T>, less: (T, T) -> bool)
    requires Elements(a) == Elements(b) && TotalOn(less, Elements(a)) && a != [] && b != []
    requires StrictlySorted(a, less) && StrictlySorted(b, less)
    ensures a[0] == b[0]
  {
    assert a[0] in Elements(b) && b[0] in Elements(a);
    HeadFirst(a, less, b[0]);
    HeadFirst(b, less, a[0]);
  }

  /** A set has one strictly sorted listing. */
  lemma {:induction false} SortedUnique<T(!new)>(a: seq<T>, b: seq<T>, less: (T, T) -> bool)
    requires Elements(a) == Elements(b) && TotalOn(less, Elements(a))
    requires StrictlySorted(a, less) && StrictlySorted(b, less)
    ensures a == b
  {
    assert b != [] ==> b[0] in Elements(b);
    if a != [] {
      assert a[0] in Elements(b);
      SameHead(a, b, less);
      forall x ensures x in Elements(a[1..]) <==> x in Elements(b[1..]) {
        assert x in a <==> x in Elements(a);
        assert x in b <==> x in Elements(b);
        SortedTail(a, less, x);
        SortedTail(b, less, x);
      }
      assert Elements(a[1..]) <= Elements(a);
      SortedUnique(a[1..], b[1..], less);
      assert a == [a[0]] + a[1..] && b == [b[0]] + b[1..];
    }
  }

  lemma SortedTail<T(!new)>(a: seq<T>, less: (T, T) -> bool, x: T)
    requires a != [] && TotalOn(less, Elements(a)) && StrictlySorted(a, less)
    ensures x in a[1..] <==> x in a && x != a[0]
  {
    assert a[0] in Elements(a);
    if x in a[1..] {
      var i :| 0 <= i < |a| - 1 && a[1..][i] == x;
      assert a[i + 1] == x;
    }
    if x in a && x != a[0] {
      var i :| 0 <= i < |a| && a[i] == x;
      assert a[1..][i - 1] == x;
    }
  }

  /** A strictly sorted list does not repeat an element. */
  lemma SortedNoDuplicates<T(!new)>(a: seq<T>, less: (T, T) -> bool)
    requires TotalOn(less, Elements(a)) && StrictlySorted(a, less)
    ensures NoDuplicates(a)
  {
    forall i, j | 0 <= i < j < |a| ensures a[i] != a[j] {
      assert a[i] in Elements(a);
    }
  }

  /** Without repeats a sequence is as long as its elements are many. */
  lemma {:induction false} DistinctLength<T>(s: seq<T>)
    requires NoDuplicates(s)
    ensures |s| == |Elements(s)|
  {
    if s != [] {
      var init := s[..|s| - 1];
      DistinctLength(init);
      assert Elements(s) == Elements(init) + {s[|s| - 1]};
      assert s[|s| - 1] !in init;
    }
  }

  /** Byte strings in the order Rust gives `str`. */
  predicate BytesLess(a: seq<byte>, b: seq<byte>) {
    if b == [] then false
    else if a == [] then true
    else if a[0] != b[0] then a[0] < b[0]
    else BytesLess(a[1..], b[1..])
  }

  /** The first byte that differs decides, and a proper prefix comes first. */
  lemma {:induction false} BytesLessMeans(a: seq<byte>, b: seq<byte>)
    ensures BytesLess(a, b) <==> exists k | 0 <= k <= |a| && k < |b| :: a[..k] == b[..k] && (k == |a| || a[k] < b[k])
  {
    if a != [] && b != [] && a[0] == b[0] {
      BytesLessMeans(a[1..], b[1..]);
      if k :| 0 <= k <= |a| - 1 && k < |b| - 1 && a[1..][..k] == b[1..][..k] && (k == |a| - 1 || a[1..][k] < b[1..][k]) {
        assert a[..k + 1] == [a[0]] + a[1..][..k] && b[..k + 1] == [b[0]] + b[1..][..k];
      }
      if k :| 0 <= k <= |a| && k < |b| && a[..k] == b[..k] && (k == |a| || a[k] < b[k]) {
        assert k > 0 && a[1..][..k - 1] == a[..k][1..] && b[1..][..k - 1] == b[..k][1..];
      }
    } else if b != [] {
      assert a[..0] == b[..0];
      forall k | 0 < k <= |a| && k < |b| ensures a[..k] != b[..k] {
        assert a[..k][0] == a[0] && b[..k][0] == b[0];
      }
    }
  }

  lemma {:induction false} BytesIrreflexive(a: seq<byte>)
    ensures !BytesLess(a, a)
  {
    if a != [] { BytesIrreflexive(a[1..]); }
  }

  lemma {:induction false} BytesTrichotomy(a: seq<byte>, b: seq<byte>)
    ensures BytesLess(a, b) || a == b || BytesLess(b, a)
    ensures !(BytesLess(a, b) && BytesLess(b, a))
  {
    if a != [] && b != [] && a[0] == b[0] {
      BytesTrichotomy(a[1..], b[1..]);
      assert a == [a[0]] + a[1..] && b == [b[0]] + b[1..];
    }
  }

  lemma {:induction false} BytesTransitive(a: seq<byte>, b: seq<byte>, c: seq<byte>)
    requires BytesLess(a, b) && BytesLess(b, c)
    ensures BytesLess(a, c)
  {
    if a != [] && a[0] == b[0] && b[0] == c[0] {
      BytesTransitive(a[1..], b[1..], c[1..]);
    }
  }

  lemma BytesTotal(s: set<seq<byte>>)
    ensures TotalOn(BytesLess, s)
  {
    forall x | x in s ensures !BytesLess(x, x) { BytesIrreflexive(x); }
    forall x, y | x in s && y in s && x != y ensures BytesLess(x, y) || BytesLess(y, x) {
      BytesTrichotomy(x, y);
    }
    forall x, y, z | x in s && y in s && z in s && BytesLess(x, y) && BytesLess(y, z)
      ensures BytesLess(x, z)
    {
      BytesTransitive(x, y, z);
    }
  }
}
