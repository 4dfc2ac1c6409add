/**
 * Datatypes and sequence vocabulary shared by every component.
 *
 * Lists without duplicates, and what mapping, filtering and flattening do to appended lists; two
 * lists with the same elements, one by one or as multisets.
 */
module Prelude {

  datatype Option<+T> = None | Some(value: T)

  datatype Result<+T, +E> = Ok(value: T) | Err(error: E)

  datatype Unit = Unit

  predicate Distinct<T(==)>(s: seq<T>) {
    forall i, j :: 0 <= i < j < |s| ==> s[i] != s[j]
  }

  /** Every element of `a` occurs in `b`: Ruby's `(a - b).empty?`. */
  predicate Covered<T(==)>(a: seq<T>, b: seq<T>) {
    forall x :: x in a ==> x in b
  }

  function Map<A, B>(f: A -> B, s: seq<A>): (r: seq<B>)
    ensures |r| == |s|
    ensures forall i :: 0 <= i < |s| ==> r[i] == f(s[i])
  {
    seq(|s|, i requires 0 <= i < |s| => f(s[i]))
  }

  function Filter<A(!new)>(p: A -> bool, s: seq<A>): (r: seq<A>)
    ensures forall x :: x in r <==> x in s && p(x)
    ensures |r| <= |s|
  {
    if |s| == 0 then []
    else if p(s[0]) then [s[0]] + Filter(p, s[1..])
    else Filter(p, s[1..])
  }

  function Flatten<A(!new)>(s: seq<seq<A>>): (r: seq<A>)
    ensures forall x :: x in r <==> exists i :: 0 <= i < |s| && x in s[i]
  {
    if |s| == 0 then []
    else
      var rest := Flatten(s[1..]);
      assert forall x :: x in rest ==> exists i :: 1 <= i < |s| && x in s[i] by {
        forall x | x in rest ensures exists i :: 1 <= i < |s| && x in s[i] {
          var i :| 0 <= i < |s[1..]| && x in s[1..][i];
          assert x in s[i + 1];
        }
      }
      assert forall i :: 1 <= i < |s| ==> s[i] == s[1..][i - 1];
      s[0] + rest
  }

  /** A duplicate-free sequence has as many elements as its element set. */
  lemma {:induction false} DistinctCardinality<T>(s: seq<T>)
    requires Distinct(s)
    ensures |set x | x in s| == |s|
  {
    var elements := set x | x in s;
    if |s| == 0 {
      assert elements == {};
    } else {
      var last := |s| - 1;
      DistinctCardinality(s[..last]);
      assert s == s[..last] + [s[last]];
      assert elements == (set x | x in s[..last]) + {s[last]};
      assert s[last] !in s[..last];
    }
  }

  /** Duplicate-free sequences over the same elements are permutations of one another. */
  lemma {:induction false} DistinctSameElements<T>(a: seq<T>, b: seq<T>)
    requires Distinct(a) && Distinct(b)
    requires forall x :: x in a <==> x in b
    ensures multiset(a) == multiset(b)
  {
    forall x ensures multiset(a)[x] == multiset(b)[x] {
      DistinctMultiplicity(a, x);
      DistinctMultiplicity(b, x);
    }
  }

  lemma {:induction false} DistinctMultiplicity<T>(s: seq<T>, x: T)
    requires Distinct(s)
    ensures multiset(s)[x] == if x in s then 1 else 0
  {
    if |s| > 0 {
      var last := |s| - 1;
      DistinctMultiplicity(s[..last], x);
      assert s == s[..last] + [s[last]];
      assert s[last] !in s[..last];
    }
  }

  lemma {:induction false} PermutationKeepsDistinct<T>(a: seq<T>, b: seq<T>)
    requires Distinct(a) && multiset(a) == multiset(b)
    ensures Distinct(b)
  {
    forall i, j | 0 <= i < j < |b| ensures b[i] != b[j] {
      if b[i] == b[j] {
        var rest := b[..j] + b[j + 1..];
        assert b == b[..j] + [b[j]] + b[j + 1..];
        assert multiset(b) == multiset(rest) + multiset{b[j]};
        assert rest[i] == b[i] && b[i] in rest;
        assert multiset(b)[b[j]] >= 2;
        DistinctMultiplicity(a, b[j]);
      }
    }
  }

  /** Permutations have the same elements. */
  lemma {:induction false} SameMembers<A>(a: seq<A>, b: seq<A>)
    requires multiset(a) == multiset(b)
    ensures forall x :: x in a <==> x in b
  {
    forall x ensures x in a <==> x in b {
      assert x in a <==> x in multiset(a);
      assert x in b <==> x in multiset(b);
    }
  }

  lemma {:induction false} SamePermutation<T>(a: seq<T>, b: seq<T>)
    requires Distinct(a)
    ensures multiset(a) == multiset(b) <==> Distinct(b) && forall p :: p in a <==> p in b
  {
    if multiset(a) == multiset(b) {
      PermutationKeepsDistinct(a, b);
      SameMembers(a, b);
    }
    if Distinct(b) && forall p :: p in a <==> p in b {
      DistinctSameElements(a, b);
    }
  }

  /** An element of a sequence occurs at some index of every permutation of it. */
  lemma {:induction false} IndexIn<T>(x: T, s: seq<T>, t: seq<T>) returns (h: nat)
    requires x in s && multiset(s) == multiset(t)
    ensures h < |t| && t[h] == x
  {
    assert x in multiset(s);
    assert x in multiset(t);
    h :| 0 <= h < |t| && t[h] == x;
  }

  lemma {:induction false} FilterAppend<A(!new)>(p: A -> bool, s: seq<A>, t: seq<A>)
    ensures Filter(p, s + t) == Filter(p, s) + Filter(p, t)
  {
    if |s| == 0 {
      assert s + t == t;
    } else {
      assert (s + t)[1..] == s[1..] + t;
      FilterAppend(p, s[1..], t);
    }
  }

  lemma {:induction false} FilterOne<A(!new)>(p: A -> bool, x: A)
    ensures Filter(p, [x]) == if p(x) then [x] else []
  {
    assert [x][1..] == [];
  }

  lemma {:induction false} FilterEmpty<A(!new)>(p: A -> bool, s: seq<A>)
    ensures Filter(p, s) == [] <==> forall x :: x in s ==> !p(x)
  {
    if |s| > 0 {
      FilterEmpty(p, s[1..]);
      assert forall x :: x in s <==> x == s[0] || x in s[1..];
    }
  }

  lemma {:induction false} FilterTwo<A(!new)>(p: A -> bool, s: seq<A>, i: nat, j: nat)
    requires i < j < |s| && p(s[i]) && p(s[j])
    ensures |Filter(p, s)| >= 2
  {
    var rest := s[1..];
    assert rest[j - 1] == s[j];
    if i == 0 {
      assert s[j] in Filter(p, rest);
    } else {
      assert rest[i - 1] == s[i];
      FilterTwo(p, rest, i - 1, j - 1);
    }
  }

  lemma {:induction false} FlattenAppend<A(!new)>(s: seq<seq<A>>, t: seq<seq<A>>)
    ensures Flatten(s + t) == Flatten(s) + Flatten(t)
  {
    if |s| == 0 {
      assert s + t == t;
    } else {
      assert (s + t)[1..] == s[1..] + t;
      FlattenAppend(s[1..], t);
    }
  }
}
