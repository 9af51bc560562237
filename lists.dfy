/** Shared helpers. Index lists as the tracker builds them: ranges, ascending lists of the indices
    not yet matched, and Python's list.remove (which deletes the first occurrence),
    and sorted() of a set of keys. */
module Lists {

  /** A value or Python's None. */
  datatype Option<T> = None | Some(value: T)

  predicate StrictlyIncreasing(xs: seq<int>) {
    forall i, j :: 0 <= i < j < |xs| ==> xs[i] < xs[j]
  }

  /** list(range(n)) */
  function Range(n: nat): (r: seq<int>)
    ensures |r| == n && forall i :: 0 <= i < n ==> r[i] == i
  {
    seq(n, i => i)
  }

  /** The indices 0 .. n-1 that are not in s, in ascending order. */
  function Excluding(n: nat, s: set<int>): (r: seq<int>)
    ensures StrictlyIncreasing(r)
    ensures forall x :: x in r <==> 0 <= x < n && x !in s
    ensures forall i :: 0 <= i < |r| ==> 0 <= r[i] < n
  {
    if n == 0 then []
    else
      var front := Excluding(n - 1, s);
      front + (if n - 1 in s then [] else [n - 1])
  }

  /** The position of the first occurrence of x (list.index). */
  function IndexOf<T(==)>(xs: seq<T>, x: T): (i: nat)
    requires x in xs
    ensures i < |xs| && xs[i] == x && x !in xs[..i]
  {
    if xs[0] == x then 0 else 1 + IndexOf(xs[1..], x)
  }

  /** list.remove(x): deletes the first occurrence of x. */
  function RemoveFirst<T(==)>(xs: seq<T>, x: T): (r: seq<T>)
    requires x in xs
    ensures |r| == |xs| - 1
  {
    var i := IndexOf(xs, x);
    xs[..i] + xs[i + 1..]
  }

  /** list.remove(x) takes away one copy of x and keeps every other element. */
  lemma RemoveFirstDeletesOne<T>(xs: seq<T>, x: T)
    requires x in xs
    ensures multiset(RemoveFirst(xs, x)) == multiset(xs) - multiset{x}
  {
    var i := IndexOf(xs, x);
    assert xs == xs[..i] + [xs[i]] + xs[i + 1..];
  }

  /** The elements of xs that are not in s, in their original order. */
  function Without(xs: seq<int>, s: set<int>): (r: seq<int>)
    ensures forall x :: x in r <==> x in xs && x !in s
    ensures |r| <= |xs|
  {
    if xs == [] then []
    else
      var front := Without(xs[..|xs| - 1], s);
      var last := xs[|xs| - 1];
      assert forall x :: x in xs <==> x in xs[..|xs| - 1] || x == last;
      front + (if last in s then [] else [last])
  }

  lemma HeadIn(s: seq<int>)
    ensures s != [] ==> s[0] in s
  {
  }

  /** Two ascending lists with the same elements are the same list. */
  lemma {:induction false} SortedUnique(a: seq<int>, b: seq<int>)
    requires StrictlyIncreasing(a) && StrictlyIncreasing(b)
    requires forall x :: x in a <==> x in b
    ensures a == b
  {
    HeadIn(a);
    HeadIn(b);
    if a != [] && b != [] {
      assert a[0] in b;
      assert b[0] in a;
      assert a[0] == b[0];
      forall x
        ensures x in a[1..] <==> x in b[1..]
      {
        assert x in a[1..] <==> x in a && x != a[0];
        assert x in b[1..] <==> x in b && x != b[0];
      }
      SortedUnique(a[1..], b[1..]);
      assert a == [a[0]] + a[1..] && b == [b[0]] + b[1..];
    }
  }

  /** Dropping elements from an ascending list leaves it ascending. */
  lemma {:induction false} WithoutIncreasing(xs: seq<int>, s: set<int>)
    requires StrictlyIncreasing(xs)
    ensures StrictlyIncreasing(Without(xs, s))
  {
    if xs != [] {
      var init, last := xs[..|xs| - 1], xs[|xs| - 1];
      WithoutIncreasing(init, s);
      var front := Without(init, s);
      forall x | x in front
        ensures x < last
      {
        var k :| 0 <= k < |init| && init[k] == x;
        assert xs[k] == x;
      }
      var r := Without(xs, s);
      assert r == front + (if last in s then [] else [last]);
      forall i, j | 0 <= i < j < |r|
        ensures r[i] < r[j]
      {
        if j < |front| {
          assert r[i] == front[i] && r[j] == front[j];
        } else {
          assert r[i] == front[i] && front[i] in front;
        }
      }
    }
  }

  /** Deleting position i of an ascending list leaves it ascending. */
  lemma DeleteAtIncreasing(xs: seq<int>, i: nat)
    requires StrictlyIncreasing(xs) && i < |xs|
    ensures StrictlyIncreasing(xs[..i] + xs[i + 1..])
  {
    var r := xs[..i] + xs[i + 1..];
    forall a, b | 0 <= a < b < |r|
      ensures r[a] < r[b]
    {
      var a' := if a < i then a else a + 1;
      var b' := if b < i then b else b + 1;
      assert r[a] == xs[a'] && r[b] == xs[b'];
    }
  }

  /** Deleting position i of an ascending list removes the value there and nothing else. */
  lemma DeleteAtMembers(xs: seq<int>, i: nat)
    requires StrictlyIncreasing(xs) && i < |xs|
    ensures forall y :: y in xs[..i] + xs[i + 1..] <==> y in xs && y != xs[i]
  {
    var r := xs[..i] + xs[i + 1..];
    forall y
      ensures y in r <==> y in xs && y != xs[i]
    {
      if y in r {
        var j :| 0 <= j < |r| && r[j] == y;
        var j' := if j < i then j else j + 1;
        assert xs[j'] == y;
        assert j' < i ==> xs[j'] < xs[i];
        assert j' > i ==> xs[i] < xs[j'];
      }
      if y in xs && y != xs[i] {
        var j :| 0 <= j < |xs| && xs[j] == y;
        assert j < i ==> r[j] == y;
        assert j > i ==> r[j - 1] == y;
      }
    }
  }

  /** In an ascending list, removing the element at position i deletes exactly that position,
      and what is left is ascending and holds every other element. */
  lemma RemoveFirstAt(xs: seq<int>, i: nat)
    requires StrictlyIncreasing(xs) && i < |xs|
    ensures RemoveFirst(xs, xs[i]) == xs[..i] + xs[i + 1..]
    ensures StrictlyIncreasing(RemoveFirst(xs, xs[i]))
    ensures forall y :: y in RemoveFirst(xs, xs[i]) <==> y in xs && y != xs[i]
  {
    var k := IndexOf(xs, xs[i]);
    assert k == i;
    DeleteAtIncreasing(xs, i);
    DeleteAtMembers(xs, i);
  }

  /** Removing x from the unmatched list for s yields the unmatched list for s + {x}. */
  lemma ExcludingRemove(n: nat, s: set<int>, x: int)
    requires 0 <= x < n && x !in s
    ensures x in Excluding(n, s)
    ensures RemoveFirst(Excluding(n, s), x) == Excluding(n, s + {x})
  {
    var e := Excluding(n, s);
    assert x in e;
    var i := IndexOf(e, x);
    RemoveFirstAt(e, i);
    SortedUnique(RemoveFirst(e, x), Excluding(n, s + {x}));
  }

  /** In an ascending list, list.remove of the element at i drops exactly that element. */
  lemma RemoveFirstIsWithout(xs: seq<int>, i: nat)
    requires StrictlyIncreasing(xs) && i < |xs|
    ensures RemoveFirst(xs, xs[i]) == Without(xs, {xs[i]})
  {
    RemoveFirstAt(xs, i);
    WithoutIncreasing(xs, {xs[i]});
    SortedUnique(RemoveFirst(xs, xs[i]), Without(xs, {xs[i]}));
  }

  /** Removing one more element (not yet dropped) from a filtered ascending list. */
  lemma WithoutRemove(xs: seq<int>, s: set<int>, x: int)
    requires StrictlyIncreasing(xs) && x in xs && x !in s
    ensures x in Without(xs, s)
    ensures RemoveFirst(Without(xs, s), x) == Without(xs, s + {x})
  {
    var w := Without(xs, s);
    WithoutIncreasing(xs, s);
    WithoutIncreasing(xs, s + {x});
    var i := IndexOf(w, x);
    RemoveFirstAt(w, i);
    SortedUnique(RemoveFirst(w, x), Without(xs, s + {x}));
  }

  /** list(range(n)) is the unmatched list before anything matched. */
  lemma RangeIsExcludingNothing(n: nat)
    ensures Range(n) == Excluding(n, {})
  {
    forall x | 0 <= x < n
      ensures x in Range(n)
    {
      assert Range(n)[x] == x;
    }
    SortedUnique(Range(n), Excluding(n, {}));
  }

  /** A subset has no more elements than its superset. */
  lemma {:induction false} SubsetCard<T>(a: set<T>, b: set<T>)
    requires a <= b
    ensures |a| <= |b|
  {
    if a != {} {
      var x :| x in a;
      SubsetCard(a - {x}, b - {x});
    }
  }

  lemma NoMemberEmpty(s: set<int>)
    requires forall x :: x !in s
    ensures s == {}
  {
    assert forall x :: x in s <==> x in {};
  }

  /** A non-empty set has a member (what iterating over a set relies on). */
  lemma HasMember(s: set<int>)
    requires s != {}
    ensures exists x :: x in s
  {
    if forall x :: x !in s {
      NoMemberEmpty(s);
      assert false;
    }
  }

  /** A non-empty set of integers has a least element. */
  lemma {:induction false} HasMin(s: set<int>)
    requires s != {}
    ensures exists m :: m in s && forall y :: y in s ==> m <= y
    decreases |s|
  {
    HasMember(s);
    var x :| x in s;
    if s - {x} == {} {
      forall y | y in s
        ensures y == x
      {
        assert y !in s - {x};
      }
    } else {
      HasMin(s - {x});
      var m :| m in s - {x} && forall y :: y in s - {x} ==> m <= y;
      var least := if x < m then x else m;
      forall y | y in s
        ensures least <= y
      {
        if y != x {
          assert y in s - {x};
        }
      }
      assert least in s;
    }
  }

  /** sorted(s): the elements of s in ascending order. */
  ghost function Ascending(s: set<int>): (r: seq<int>)
    ensures StrictlyIncreasing(r)
    ensures forall x :: x in r <==> x in s
    decreases |s|
  {
    if s == {} then []
    else
      HasMin(s);
      var m :| m in s && forall y :: y in s ==> m <= y;
      var rest := Ascending(s - {m});
      assert forall k :: 0 <= k < |rest| ==> rest[k] in s - {m};
      [m] + rest
  }

  /** sorted(keys), by repeatedly taking the least remaining key. */
  method SortedKeys(s: set<int>) returns (r: seq<int>)
    ensures r == Ascending(s)
  {
    r := [];
    var rest := s;
    while rest != {}
      invariant StrictlyIncreasing(r)
      invariant forall x :: x in r <==> x in s && x !in rest
      invariant rest <= s
      invariant forall x, y :: x in r && y in rest ==> x < y
      decreases |rest|
    {
      HasMin(rest);
      var m :| m in rest && forall y :: y in rest ==> m <= y;
      assert forall k :: 0 <= k < |r| ==> r[k] in r;
      r := r + [m];
      rest := rest - {m};
    }
    SortedUnique(r, Ascending(s));
  }
}
