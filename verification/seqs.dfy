/** Sequence helpers shared by the configuration check and recipient validation:
    an order-keeping filter (a Python list comprehension with a condition), the
    subsequence relation that characterises it, and string joining. */
module Seqs {

  /** `a` is `b` with zero or more elements deleted and the rest kept in order. */
  predicate Subseq<T(==)>(a: seq<T>, b: seq<T>)
    decreases |b|
  {
    if a == [] then true
    else if b == [] then false
    else (a[0] == b[0] && Subseq(a[1..], b[1..])) || Subseq(a, b[1..])
  }

  /** No element occurs twice. */
  predicate Distinct<T(==)>(xs: seq<T>) {
    forall i, j :: 0 <= i < j < |xs| ==> xs[i] != xs[j]
  }

  /** `[x for x in xs if p(x)]` */
  function Filter<T>(xs: seq<T>, p: T -> bool): seq<T>
    decreases |xs|
  {
    if xs == [] then []
    else if p(xs[0]) then [xs[0]] + Filter(xs[1..], p)
    else Filter(xs[1..], p)
  }

  /** The comprehension over `[x] + xs` decides `x`, then goes on with `xs`. */
  lemma FilterCons<T>(x: T, xs: seq<T>, p: T -> bool)
    ensures Filter([x] + xs, p) == (if p(x) then [x] else []) + Filter(xs, p)
  {
    assert ([x] + xs)[0] == x && ([x] + xs)[1..] == xs;
  }

  /** The comprehension keeps exactly the elements satisfying `p`, in their
      original order. */
  lemma {:induction false} FilterMembers<T>(xs: seq<T>, p: T -> bool)
    ensures forall y :: y in Filter(xs, p) <==> y in xs && p(y)
    ensures Subseq(Filter(xs, p), xs)
    decreases |xs|
  {
    if xs != [] {
      FilterMembers(xs[1..], p);
      assert xs == [xs[0]] + xs[1..];
      var rest := Filter(xs[1..], p);
      if p(xs[0]) {
        assert ([xs[0]] + rest)[1..] == rest;
      }
    }
  }

  /** Over a duplicate-free `xs`, the comprehension is the only subsequence of
      `xs` holding exactly the elements that satisfy `p`. */
  lemma FilterExact<T>(xs: seq<T>, p: T -> bool, ys: seq<T>)
    requires Distinct(xs)
    requires forall y :: y in ys <==> y in xs && p(y)
    requires Subseq(ys, xs)
    ensures ys == Filter(xs, p)
  {
    FilterMembers(xs, p);
    SubseqDeterminedByMembers(ys, Filter(xs, p), xs);
  }

  /** If `ys` followed by one element is the first `k + 1` elements of `xs`,
      then `ys` is the first `k`. */
  lemma PrefixStep<T>(xs: seq<T>, ys: seq<T>, x: T, k: nat)
    requires k < |xs| && ys + [x] == xs[..k + 1]
    ensures ys == xs[..k]
  {
    assert ys == (ys + [x])[..k];
  }

  /** `sep.join(parts)` */
  function Join(parts: seq<string>, sep: string): string
    decreases |parts|
  {
    if |parts| == 0 then ""
    else if |parts| == 1 then parts[0]
    else parts[0] + sep + Join(parts[1..], sep)
  }

  lemma AppendAssoc<T>(a: seq<T>, b: seq<T>, c: seq<T>)
    ensures (a + b) + c == a + (b + c)
  {
  }

  /** Every element of a subsequence occurs in the sequence it was taken from. */
  lemma {:induction false} SubseqMembers<T>(a: seq<T>, b: seq<T>)
    requires Subseq(a, b)
    ensures forall x :: x in a ==> x in b
    decreases |b|
  {
    if a != [] {
      assert b == [b[0]] + b[1..];
      if a[0] == b[0] && Subseq(a[1..], b[1..]) {
        SubseqMembers(a[1..], b[1..]);
        assert a == [a[0]] + a[1..];
      } else {
        SubseqMembers(a, b[1..]);
      }
    }
  }

  /** Over a duplicate-free sequence, a subsequence is determined by which elements
      it holds: two subsequences with the same members are equal. */
  lemma {:induction false} SubseqDeterminedByMembers<T>(a: seq<T>, b: seq<T>, xs: seq<T>)
    requires Distinct(xs)
    requires Subseq(a, xs) && Subseq(b, xs)
    requires forall x :: x in a <==> x in b
    ensures a == b
    decreases |xs|
  {
    if xs == [] {
      return;
    }
    var k, tail := xs[0], xs[1..];
    assert Distinct(tail) by {
      forall i, j | 0 <= i < j < |tail| ensures tail[i] != tail[j] {
        assert tail[i] == xs[i + 1] && tail[j] == xs[j + 1];
      }
    }
    assert k !in tail by {
      forall i | 0 <= i < |tail| ensures tail[i] != k {
        assert tail[i] == xs[i + 1];
      }
    }
    if k in a {
      HeadOf(a, xs);
      HeadOf(b, xs);
      SubseqMembers(a[1..], tail);
      SubseqMembers(b[1..], tail);
      assert a == [k] + a[1..] && b == [k] + b[1..];
      forall x ensures x in a[1..] <==> x in b[1..] {
        if x in a[1..] {
          assert x in tail && x != k;
          assert x in b;
        }
        if x in b[1..] {
          assert x in tail && x != k;
          assert x in a;
        }
      }
      SubseqDeterminedByMembers(a[1..], b[1..], tail);
    } else {
      DropHead(a, xs);
      DropHead(b, xs);
      SubseqDeterminedByMembers(a, b, tail);
    }
  }

  /** If the head of a duplicate-free `xs` is in the subsequence `a`, it heads `a`. */
  lemma HeadOf<T>(a: seq<T>, xs: seq<T>)
    requires xs != [] && xs[0] !in xs[1..]
    requires Subseq(a, xs) && xs[0] in a
    ensures a[0] == xs[0] && Subseq(a[1..], xs[1..])
  {
    if !(a[0] == xs[0] && Subseq(a[1..], xs[1..])) {
      SubseqMembers(a, xs[1..]);
      assert false;
    }
  }

  /** If the head of `xs` is not in the subsequence `a`, then `a` is a subsequence of the tail. */
  lemma DropHead<T>(a: seq<T>, xs: seq<T>)
    requires xs != [] && Subseq(a, xs) && xs[0] !in a
    ensures Subseq(a, xs[1..])
  {
    if a != [] {
      assert a[0] in a;
    }
  }
}
