/**
 * Sequence vocabulary for the list-building loops of the model: order-keeping
 * subsequences, duplicate freedom, filtering out excluded elements (the
 * recommender's `if pid not in liked` loops) and greedy admission of new,
 * non-excluded elements (its `if pid not in final_recs and pid not in viewed`
 * loops).
 */
module Sequences {

  /** `a` is `b` with some elements deleted, the rest kept in order. */
  predicate IsSubseq<T(==)>(a: seq<T>, b: seq<T>)
    decreases |b|
  {
    a == [] ||
    (b != [] &&
     ((a[|a| - 1] == b[|b| - 1] && IsSubseq(a[..|a| - 1], b[..|b| - 1])) ||
      IsSubseq(a, b[..|b| - 1])))
  }

  lemma SubseqExtend<T>(a: seq<T>, b: seq<T>, x: T)
    requires IsSubseq(a, b)
    ensures IsSubseq(a, b + [x]) && IsSubseq(a + [x], b + [x])
  {
    assert (b + [x])[..|b|] == b;
    assert (a + [x])[..|a|] == a;
  }

  lemma {:induction false} SubseqMembers<T>(a: seq<T>, b: seq<T>)
    requires IsSubseq(a, b)
    ensures forall x :: x in a ==> x in b
    decreases |b|
  {
    if a != [] {
      var a', b' := a[..|a| - 1], b[..|b| - 1];
      assert b == b' + [b[|b| - 1]];
      if a[|a| - 1] == b[|b| - 1] && IsSubseq(a', b') {
        SubseqMembers(a', b');
        assert a == a' + [a[|a| - 1]];
      } else {
        SubseqMembers(a, b');
      }
    }
  }

  /** Every prefix of a subsequence is a subsequence. */
  lemma {:induction false} SubseqPrefix<T>(a: seq<T>, b: seq<T>, k: nat)
    requires IsSubseq(a, b) && k <= |a|
    ensures IsSubseq(a[..k], b)
    decreases |b|
  {
    if k == |a| {
      assert a[..k] == a;
    } else if a[..k] != [] {
      var a', b' := a[..|a| - 1], b[..|b| - 1];
      assert b' + [b[|b| - 1]] == b;
      assert a'[..k] == a[..k];
      if a[|a| - 1] == b[|b| - 1] && IsSubseq(a', b') {
        SubseqPrefix(a', b', k);
      } else {
        SubseqPrefix(a, b', k);
      }
      SubseqExtend(a[..k], b', b[|b| - 1]);
    }
  }

  predicate NoDup<T(==)>(s: seq<T>) {
    forall i, j :: 0 <= i < j < |s| ==> s[i] != s[j]
  }

  /** The elements of `xs` that are not in `excluded`, in their order. */
  function Without<T(==)>(xs: seq<T>, excluded: seq<T>): seq<T>
  {
    if xs == [] then []
    else Without(xs[..|xs| - 1], excluded) +
         (if xs[|xs| - 1] in excluded then [] else [xs[|xs| - 1]])
  }

  /** What `Without` keeps: exactly the non-excluded elements, in their order. */
  lemma {:induction false} WithoutMeaning<T>(xs: seq<T>, excluded: seq<T>)
    ensures IsSubseq(Without(xs, excluded), xs)
    ensures forall x :: x in Without(xs, excluded) <==> x in xs && x !in excluded
    decreases |xs|
  {
    if xs != [] {
      var init, last := xs[..|xs| - 1], xs[|xs| - 1];
      var w := Without(init, excluded);
      assert xs == init + [last];
      WithoutMeaning(init, excluded);
      SubseqExtend(w, init, last);
      if last in excluded {
        assert Without(xs, excluded) == w;
      } else {
        assert Without(xs, excluded) == w + [last];
      }
    }
  }

  /** Filtering a prefix gives a prefix of the filtered whole. */
  lemma {:induction false} WithoutOfPrefix<T>(xs: seq<T>, excluded: seq<T>, k: nat)
    requires k <= |xs|
    ensures |Without(xs[..k], excluded)| <= |Without(xs, excluded)|
    ensures Without(xs, excluded)[..|Without(xs[..k], excluded)|] == Without(xs[..k], excluded)
    decreases |xs| - k
  {
    if k < |xs| {
      var n := |xs|;
      assert xs[..n][..n - 1] == xs[..n - 1];
      assert xs[..n] == xs;
      WithoutOfPrefix(xs[..n - 1], excluded, k);
      assert xs[..n - 1][..k] == xs[..k];
    } else {
      assert xs[..k] == xs;
    }
  }

  /** The first `k` elements of `s`, or all of `s` when it is shorter. */
  function Take<T>(s: seq<T>, k: nat): (r: seq<T>)
    ensures |r| == if |s| <= k then |s| else k
  {
    if |s| <= k then s else s[..k]
  }

  /** One step of greedy admission: `x` is appended when it is new and not excluded. */
  function Admit<T(==)>(acc: seq<T>, x: T, excluded: seq<T>): seq<T>
  {
    if x !in acc && x !in excluded then acc + [x] else acc
  }

  /** Greedy admission of `xs`, in order, onto `acc`. */
  function Admitted<T(==)>(acc: seq<T>, xs: seq<T>, excluded: seq<T>): seq<T>
  {
    if xs == [] then acc
    else Admit(Admitted(acc, xs[..|xs| - 1], excluded), xs[|xs| - 1], excluded)
  }

  /** A list with no duplicate and no excluded element. */
  predicate Clean<T(==)>(s: seq<T>, excluded: seq<T>) {
    NoDup(s) && forall i :: 0 <= i < |s| ==> s[i] !in excluded
  }

  lemma AdmitStep<T>(acc: seq<T>, x: T, excluded: seq<T>)
    requires Clean(acc, excluded)
    ensures Clean(Admit(acc, x, excluded), excluded)
  {
    if x !in acc && x !in excluded {
      var r := acc + [x];
      forall i, j | 0 <= i < j < |r| ensures r[i] != r[j] {
        if j == |acc| { assert r[i] in acc; }
      }
    }
  }

  /**
   * Greedy admission keeps `acc` as a prefix, appends a subsequence of `xs`,
   * adds at most one element per candidate, keeps the result free of
   * duplicates and excluded elements, and leaves out no candidate that is
   * not excluded.
   */
  lemma {:induction false} AdmittedMeaning<T>(acc: seq<T>, xs: seq<T>, excluded: seq<T>)
    requires Clean(acc, excluded)
    ensures var r := Admitted(acc, xs, excluded);
      && |acc| <= |r| <= |acc| + |xs|
      && r[..|acc|] == acc
      && IsSubseq(r[|acc|..], xs)
      && Clean(r, excluded)
      && (forall x :: x in xs ==> x in excluded || x in r)
      && (forall x :: x in r ==> x in acc || x in xs)
    decreases |xs|
  {
    var r := Admitted(acc, xs, excluded);
    if xs == [] {
      assert r[|acc|..] == [];
    } else {
      var init, last := xs[..|xs| - 1], xs[|xs| - 1];
      assert xs == init + [last];
      AdmittedMeaning(acc, init, excluded);
      var p := Admitted(acc, init, excluded);
      AdmitStep(p, last, excluded);
      SubseqExtend(p[|acc|..], init, last);
      if last !in p && last !in excluded {
        assert r == p + [last];
        assert r[|acc|..] == p[|acc|..] + [last];
      } else {
        assert r == p;
      }
    }
  }

  /** Admission keeps what it starts from and adds at most one element per candidate. */
  lemma {:induction false} AdmittedLength<T>(acc: seq<T>, xs: seq<T>, excluded: seq<T>)
    ensures |acc| <= |Admitted(acc, xs, excluded)| <= |acc| + |xs|
    decreases |xs|
  {
    if xs != [] {
      AdmittedLength(acc, xs[..|xs| - 1], excluded);
    }
  }

  /** Admitting `xs + ys` is admitting `xs`, then `ys`. */
  lemma {:induction false} AdmittedConcat<T>(acc: seq<T>, xs: seq<T>, ys: seq<T>, excluded: seq<T>)
    ensures Admitted(acc, xs + ys, excluded) == Admitted(Admitted(acc, xs, excluded), ys, excluded)
    decreases |ys|
  {
    if ys == [] {
      assert xs + ys == xs;
    } else {
      var ys' := ys[..|ys| - 1];
      assert (xs + ys)[..|xs + ys| - 1] == xs + ys';
      AdmittedConcat(acc, xs, ys', excluded);
    }
  }

  /** Admitting a prefix of the candidates admits a prefix of the final list. */
  lemma AdmittedSplit<T>(acc: seq<T>, xs: seq<T>, k: nat, excluded: seq<T>)
    requires k < |xs|
    ensures Admitted(acc, xs[..k + 1], excluded) == Admit(Admitted(acc, xs[..k], excluded), xs[k], excluded)
  {
    assert xs[..k + 1][..k] == xs[..k];
  }
}
