/** Listener values and the order-preserving removal that `off` applies to a
    listener sequence (the `filter(listener => listener !== listenerToRemove)`
    of src/emitter.ts). */
module Listeners {

  /** A registered callback. `ref` stands for the function reference that the
      emitter compares with `!==`; `isAsync` is the kind the runtime reports
      for that function (an `async function` or not). Listeners are compared
      as values; when every reference carries one kind (`WellKinded`), that is
      reference identity. Duplicates in a sequence are allowed. */
  datatype Listener = Listener(ref: nat, isAsync: bool)

  /** The listeners in `s` that share a reference share a kind, as they must
      in the program, where the kind is a property of the function itself.
      No operation or lemma of the model relies on it; it says when equality
      of listener values coincides with reference identity. */
  ghost predicate WellKinded(s: seq<Listener>)
  {
    forall i, j :: 0 <= i < |s| && 0 <= j < |s| && s[i].ref == s[j].ref ==> s[i].isAsync == s[j].isAsync
  }

  /** In a well-kinded sequence, a listener equals `f` exactly when it has
      `f`'s reference, so filtering by value is filtering by reference. */
  lemma EqualIffSameRef(s: seq<Listener>, f: Listener, i: nat)
    requires WellKinded(s + [f])
    requires i < |s|
    ensures s[i] == f <==> s[i].ref == f.ref
  {
    assert (s + [f])[i] == s[i] && (s + [f])[|s|] == f;
  }

  /** `r` keeps some of the elements of `s`, in their original relative order. */
  predicate IsSubsequence(r: seq<Listener>, s: seq<Listener>)
    decreases |s|
  {
    if r == [] then true
    else if s == [] then false
    else (r[0] == s[0] && IsSubsequence(r[1..], s[1..])) || IsSubsequence(r, s[1..])
  }

  /** Reference description of filtering `f` out of `s`: the remaining
      listeners keep their relative order, no occurrence of `f` is left, every
      other listener keeps its multiplicity, and exactly the occurrences of
      `f` are gone. */
  ghost predicate IsFiltered(r: seq<Listener>, s: seq<Listener>, f: Listener)
  {
    && IsSubsequence(r, s)
    && f !in r
    && (forall x :: x != f ==> multiset(r)[x] == multiset(s)[x])
    && |r| == |s| - multiset(s)[f]
  }

  /** `s` with every occurrence of `f` dropped. */
  function Without(s: seq<Listener>, f: Listener): (r: seq<Listener>)
    ensures f !in r
    ensures |r| <= |s|
    decreases |s|
  {
    if s == [] then []
    else if s[0] == f then Without(s[1..], f)
    else [s[0]] + Without(s[1..], f)
  }

  /** `Without` meets the reference description of filtering. */
  lemma {:induction false} WithoutIsFiltered(s: seq<Listener>, f: Listener)
    ensures IsFiltered(Without(s, f), s, f)
    decreases |s|
  {
    if s != [] {
      assert s == [s[0]] + s[1..];
      WithoutIsFiltered(s[1..], f);
    }
  }

  /** An order-preserving selection from `s` that avoids `f` can be no longer
      than `s` minus the occurrences of `f`. */
  lemma {:induction false} SubsequenceAvoidingBound(r: seq<Listener>, s: seq<Listener>, f: Listener)
    requires IsSubsequence(r, s)
    requires f !in r
    ensures |r| <= |s| - multiset(s)[f]
    decreases |s|
  {
    if r == [] {
      WithoutIsFiltered(s, f);
    } else {
      assert s == [s[0]] + s[1..];
      if r[0] == s[0] && IsSubsequence(r[1..], s[1..]) {
        SubsequenceAvoidingBound(r[1..], s[1..], f);
      } else {
        SubsequenceAvoidingBound(r, s[1..], f);
      }
    }
  }

  /** The reference description determines the filtered sequence uniquely:
      anything that meets it is `Without(s, f)`, and `Without(s, f)` meets it. */
  lemma {:induction false} FilteredIsWithout(r: seq<Listener>, s: seq<Listener>, f: Listener)
    ensures IsFiltered(r, s, f) <==> r == Without(s, f)
    decreases |s|
  {
    WithoutIsFiltered(s, f);
    if IsFiltered(r, s, f) && s != [] {
      var t := s[1..];
      assert s == [s[0]] + t;
      WithoutIsFiltered(t, f);
      if s[0] == f {
        assert IsSubsequence(r, t);
        FilteredIsWithout(r, t, f);
      } else if r[0] == s[0] && IsSubsequence(r[1..], t) {
        assert r == [r[0]] + r[1..];
        assert multiset(r) == multiset{r[0]} + multiset(r[1..]);
        assert multiset(s) == multiset{r[0]} + multiset(t);
        forall x | x != f
          ensures multiset(r[1..])[x] == multiset(t)[x]
        {
          assert multiset(r)[x] == multiset(s)[x];
        }
        FilteredIsWithout(r[1..], t, f);
      } else {
        SubsequenceAvoidingBound(r, t, f);
        assert false;
      }
    }
  }

  /** Filtering out a listener that does not occur changes nothing. */
  lemma {:induction false} WithoutAbsent(s: seq<Listener>, f: Listener)
    requires f !in s
    ensures Without(s, f) == s
    decreases |s|
  {
    if s != [] {
      WithoutAbsent(s[1..], f);
    }
  }

  /** Filtering the same listener twice is the same as filtering it once. */
  lemma WithoutIdempotent(s: seq<Listener>, f: Listener)
    ensures Without(Without(s, f), f) == Without(s, f)
  {
    WithoutAbsent(Without(s, f), f);
  }

  /** Filtering distributes over concatenation. */
  lemma {:induction false} WithoutConcat(a: seq<Listener>, b: seq<Listener>, f: Listener)
    ensures Without(a + b, f) == Without(a, f) + Without(b, f)
    decreases |a|
  {
    if a == [] {
      assert a + b == b;
    } else {
      assert (a + b)[1..] == a[1..] + b;
      WithoutConcat(a[1..], b, f);
    }
  }
}
