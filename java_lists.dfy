/** The java.util list operations the chat actor relies on, stated over immutable
    sequences: indexOf, remove(int), remove(Object), containsAll, Collections.max,
    and the "every member except me" filter that each multicast loop performs. */
module JavaLists {

  /** Number of occurrences of x in s. */
  function Count<T(==)>(s: seq<T>, x: T): (n: nat)
    ensures n <= |s|
    ensures n == 0 <==> x !in s
  {
    if s == [] then 0
    else
      assert s == [s[0]] + s[1..];
      (if s[0] == x then 1 else 0) + Count(s[1..], x)
  }

  /** List.indexOf: the position of the first occurrence of x, or -1 when x is absent. */
  function IndexOf<T(==)>(s: seq<T>, x: T): (i: int)
    ensures -1 <= i < |s|
    ensures i == -1 <==> x !in s
    ensures 0 <= i ==> s[i] == x && x !in s[..i]
  {
    if s == [] then -1
    else if s[0] == x then 0
    else
      assert s == [s[0]] + s[1..];
      var j := IndexOf(s[1..], x);
      if j == -1 then -1
      else
        assert s[..j + 1] == [s[0]] + s[1..][..j];
        j + 1
  }

  /** List.remove(int): the list without its element at position i. */
  function RemoveAt<T>(s: seq<T>, i: nat): (r: seq<T>)
    requires i < |s|
    ensures |r| == |s| - 1
  {
    s[..i] + s[i + 1..]
  }

  /** The elements before position i keep their places, the later ones move down by
      one, and the removed element together with the rest is exactly the old contents. */
  lemma RemoveAtSpec<T>(s: seq<T>, i: nat)
    requires i < |s|
    ensures forall j :: 0 <= j < i ==> RemoveAt(s, i)[j] == s[j]
    ensures forall j :: i <= j < |s| - 1 ==> RemoveAt(s, i)[j] == s[j + 1]
    ensures multiset(RemoveAt(s, i)) + multiset{s[i]} == multiset(s)
  {
    RemoveAtMultiset(s, i);
  }

  /** The multiset part of RemoveAtSpec on its own, free of quantifiers, for callers
      that need only that the removal loses and invents nothing. */
  lemma RemoveAtMultiset<T>(s: seq<T>, i: nat)
    requires i < |s|
    ensures multiset(RemoveAt(s, i)) + multiset{s[i]} == multiset(s)
  {
    assert s == s[..i] + [s[i]] + s[i + 1..];
  }

  /** Removing the element that separates two parts joins the parts. */
  lemma RemoveAtMiddle<T>(a: seq<T>, x: T, b: seq<T>)
    ensures RemoveAt(a + ([x] + b), |a|) == a + b
  {
  }

  /** List.remove(Object): the list without the first occurrence of x, unchanged when
      x is absent. */
  function RemoveFirst<T(==)>(s: seq<T>, x: T): (r: seq<T>)
    ensures x in s ==> |r| == |s| - 1
    ensures x !in s ==> r == s
  {
    if s == [] then []
    else if s[0] == x then s[1..]
    else
      assert s == [s[0]] + s[1..];
      [s[0]] + RemoveFirst(s[1..], x)
  }

  /** Removing by value takes away exactly one occurrence of a present element and
      leaves the count of every other value alone. */
  lemma {:induction false} RemoveFirstCount<T>(s: seq<T>, x: T, y: T)
    ensures Count(RemoveFirst(s, x), y) == if x in s && x == y then Count(s, y) - 1 else Count(s, y)
  {
    if s != [] && s[0] != x {
      assert s == [s[0]] + s[1..];
      RemoveFirstCount(s[1..], x, y);
      var t := RemoveFirst(s[1..], x);
      assert ([s[0]] + t)[0] == s[0];
      assert ([s[0]] + t)[1..] == t;
    }
  }

  /** Removing an element by value hits the position indexOf reports for it, so the
      same index can be removed from a parallel list. */
  lemma {:induction false} RemoveFirstIsRemoveAtIndexOf<T>(s: seq<T>, x: T)
    requires x in s
    ensures RemoveFirst(s, x) == RemoveAt(s, IndexOf(s, x))
  {
    if s[0] == x {
      assert IndexOf(s, x) == 0;
      assert s[..0] + s[1..] == s[1..];
    } else {
      var t := s[1..];
      assert x in t by {
        assert s == [s[0]] + t;
      }
      RemoveFirstIsRemoveAtIndexOf(t, x);
      var j := IndexOf(t, x);
      assert IndexOf(s, x) == j + 1;
      assert RemoveFirst(s, x) == [s[0]] + RemoveFirst(t, x);
      assert RemoveFirst(t, x) == t[..j] + t[j + 1..];
      assert s[..j + 1] == [s[0]] + t[..j];
      assert s[j + 2..] == t[j + 1..];
    }
  }

  /** List.containsAll: every element of t occurs in s. */
  predicate ContainsAll<T(==,!new)>(s: seq<T>, t: seq<T>) {
    forall x :: x in t ==> x in s
  }

  /** No element occurs twice in s. */
  ghost predicate NoRepeats<T(!new)>(s: seq<T>) {
    forall x :: Count(s, x) <= 1
  }

  /** A list that contains every element of a list without repetitions is at least as
      long as it: a flush record that covers a view holds an entry per member. */
  lemma {:induction false} ContainsAllLength<T(!new)>(s: seq<T>, t: seq<T>)
    requires ContainsAll(s, t)
    requires NoRepeats(t)
    ensures |t| <= |s|
    decreases t
  {
    if t != [] {
      var x := t[0];
      var rest := t[1..];
      forall y ensures Count(rest, y) <= 1 && (y in rest ==> y != x) {
        assert Count(t, y) == (if x == y then 1 else 0) + Count(rest, y);
      }
      forall y | y in rest ensures y in RemoveFirst(s, x) {
        assert y in t;
        RemoveFirstCount(s, x, y);
      }
      assert x in s;
      ContainsAllLength(RemoveFirst(s, x), rest);
    }
  }

  /** Collections.max of a non-empty list. */
  function MaxOf(s: seq<int>): (m: int)
    requires s != []
    ensures m in s
    ensures forall x :: x in s ==> x <= m
  {
    if |s| == 1 then s[0]
    else
      assert s == [s[0]] + s[1..];
      var rest := MaxOf(s[1..]);
      if s[0] > rest then s[0] else rest
  }

  /** The elements of s other than me, in order: the peers reached by a loop over s
      that skips `p.equals(getSelf())`. */
  function Without<T(==)>(s: seq<T>, me: T): (r: seq<T>)
    ensures |r| == |s| - Count(s, me)
  {
    if s == [] then []
    else
      assert s == [s[0]] + s[1..];
      (if s[0] == me then [] else [s[0]]) + Without(s[1..], me)
  }

  /** The filter keeps exactly the elements other than me. */
  lemma {:induction false} WithoutMembers<T>(s: seq<T>, me: T, x: T)
    ensures x in Without(s, me) <==> x in s && x != me
  {
    if s != [] {
      assert s == [s[0]] + s[1..];
      WithoutMembers(s[1..], me, x);
    }
  }

  /** Filtering a concatenation filters each part. */
  lemma {:induction false} WithoutConcat<T(!new)>(a: seq<T>, b: seq<T>, me: T)
    ensures Without(a + b, me) == Without(a, me) + Without(b, me)
  {
    if a == [] {
      assert a + b == b;
    } else {
      assert (a + b)[0] == a[0];
      assert (a + b)[1..] == a[1..] + b;
      WithoutConcat(a[1..], b, me);
    }
  }

  /** When every element before position i is me and s[i] is not, s[i] is the first
      element the filter keeps. */
  lemma {:induction false} WithoutFirstOther<T(!new)>(s: seq<T>, i: nat, me: T)
    requires i < |s| && s[i] != me
    requires forall j :: 0 <= j < i ==> s[j] == me
    ensures Without(s, me) != [] && Without(s, me)[0] == s[i]
  {
    if i > 0 {
      assert s == [s[0]] + s[1..];
      assert forall j :: 0 <= j < i - 1 ==> s[1..][j] == s[j + 1];
      WithoutFirstOther(s[1..], i - 1, me);
    }
  }

  /** A list holding nothing but me filters to nothing. */
  lemma {:induction false} WithoutOnlyMe<T(!new)>(s: seq<T>, me: T)
    requires forall j :: 0 <= j < |s| ==> s[j] == me
    ensures Without(s, me) == []
  {
    if s != [] {
      WithoutOnlyMe(s[1..], me);
    }
  }

  /** Filtering a list extended by one element. */
  lemma WithoutSnoc<T(!new)>(s: seq<T>, p: T, me: T)
    ensures p == me ==> Without(s + [p], me) == Without(s, me)
    ensures p != me ==> Without(s + [p], me) == Without(s, me) + [p]
  {
    WithoutConcat(s, [p], me);
    assert [p][1..] == [];
    assert Without(s, me) + [] == Without(s, me);
  }
}
