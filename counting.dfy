/**
  Counting the elements of a sequence that satisfy a predicate: the
  `COUNT(*) ... WHERE` of the repositories, and the facts about it that the
  announcement store needs (appending, replacing one element, splitting a
  predicate into two disjoint ones).
 */
module Counting {

  function CountWhere<T>(s: seq<T>, p: T -> bool): nat
  {
    if s == [] then 0 else (if p(s[0]) then 1 else 0) + CountWhere(s[1..], p)
  }

  lemma {:induction false} CountWhereConcat<T>(a: seq<T>, b: seq<T>, p: T -> bool)
    ensures CountWhere(a + b, p) == CountWhere(a, p) + CountWhere(b, p)
    decreases |a|
  {
    if a == [] {
      assert a + b == b;
    } else {
      assert (a + b)[1..] == a[1..] + b;
      CountWhereConcat(a[1..], b, p);
    }
  }

  lemma CountWhereAppend<T>(s: seq<T>, x: T, p: T -> bool)
    ensures CountWhere(s + [x], p) == CountWhere(s, p) + if p(x) then 1 else 0
  {
    CountWhereConcat(s, [x], p);
    assert [x][1..] == [];
  }

  /** Replacing one element changes the count by what that element contributed. */
  lemma CountWhereUpdate<T>(s: seq<T>, i: nat, x: T, p: T -> bool)
    requires i < |s|
    ensures CountWhere(s[i := x], p)
            == CountWhere(s, p) - (if p(s[i]) then 1 else 0) + (if p(x) then 1 else 0)
  {
    assert s == s[..i] + [s[i]] + s[i + 1..];
    assert s[i := x] == s[..i] + [x] + s[i + 1..];
    CountWhereConcat(s[..i] + [s[i]], s[i + 1..], p);
    CountWhereConcat(s[..i] + [x], s[i + 1..], p);
    CountWhereAppend(s[..i], s[i], p);
    CountWhereAppend(s[..i], x, p);
  }

  /** Removing one element lowers the count by what that element contributed. */
  lemma CountWhereRemove<T>(s: seq<T>, i: nat, p: T -> bool)
    requires i < |s|
    ensures CountWhere(s[..i] + s[i + 1..], p) == CountWhere(s, p) - if p(s[i]) then 1 else 0
  {
    var before, x, after := s[..i], s[i], s[i + 1..];
    assert s[..i + 1] == before + [x];
    assert s == s[..i + 1] + after;
    CountWhereConcat(before + [x], after, p);
    CountWhereConcat(before, after, p);
    CountWhereAppend(before, x, p);
  }

  /** Removing one element takes exactly that element out of the multiset. */
  lemma MultisetRemove<T>(s: seq<T>, i: nat)
    requires i < |s|
    ensures multiset(s[..i] + s[i + 1..]) + multiset{s[i]} == multiset(s)
  {
    assert s == s[..i] + [s[i]] + s[i + 1..];
  }

  lemma {:induction false} CountWhereZero<T>(s: seq<T>, p: T -> bool)
    ensures CountWhere(s, p) == 0 <==> forall j :: 0 <= j < |s| ==> !p(s[j])
    decreases |s|
  {
    if s != [] {
      CountWhereZero(s[1..], p);
      assert forall j :: 1 <= j < |s| ==> s[j] == s[1..][j - 1];
    }
  }

  /** With a count of one, the element that satisfies `p` is unique. */
  lemma {:induction false} CountWhereOne<T>(s: seq<T>, p: T -> bool, i: nat)
    requires i < |s| && p(s[i]) && CountWhere(s, p) == 1
    ensures forall j :: 0 <= j < |s| && p(s[j]) ==> j == i
  {
    var rest := s[..i] + s[i + 1..];
    CountWhereRemove(s, i, p);
    CountWhereZero(rest, p);
    forall j | 0 <= j < |s| && j != i ensures !p(s[j]) {
      if j < i {
        assert s[j] == rest[j];
      } else {
        assert s[j] == rest[j - 1];
      }
    }
  }

  /** A predicate that is the disjoint union of two others counts their sum. */
  lemma {:induction false} CountWhereSplit<T>(s: seq<T>, p: T -> bool, q: T -> bool, r: T -> bool)
    requires forall x :: p(x) == (q(x) || r(x))
    requires forall x :: !(q(x) && r(x))
    ensures CountWhere(s, p) == CountWhere(s, q) + CountWhere(s, r)
    decreases |s|
  {
    if s != [] {
      CountWhereSplit(s[1..], p, q, r);
    }
  }

  /** Two predicates that agree everywhere count the same. */
  lemma {:induction false} CountWhereSame<T>(s: seq<T>, p: T -> bool, q: T -> bool)
    requires forall x :: p(x) == q(x)
    ensures CountWhere(s, p) == CountWhere(s, q)
    decreases |s|
  {
    if s != [] {
      CountWhereSame(s[1..], p, q);
    }
  }
}
