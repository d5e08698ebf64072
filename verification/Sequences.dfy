/** Facts about sequences and products that several of the models need. */
module Sequences {

  ghost predicate Distinct<T>(xs: seq<T>) { forall j, k :: 0 <= j < k < |xs| ==> xs[j] != xs[k] }

  lemma SliceOfSlice<T>(xs: seq<T>, from: nat, to: nat, p: nat, q: nat)
    requires from <= p <= q <= to <= |xs|
    ensures xs[from..to][p - from..q - from] == xs[p..q]
  {
    var part := xs[from..to][p - from..q - from];
    assert |part| == q - p;
    forall i | 0 <= i < q - p
      ensures part[i] == xs[p..q][i]
    {
      assert part[i] == xs[from..to][p - from + i];
    }
  }

  /** Moving the first n elements of b to the end of a does not change the whole. */
  lemma MovePiece<T>(a: seq<T>, b: seq<T>, n: nat)
    requires n <= |b|
    ensures (a + b[..n]) + b[n..] == a + b
  {
    assert b == b[..n] + b[n..];
  }

  function Concat<T>(parts: seq<seq<T>>): seq<T> {
    if parts == [] then [] else Concat(parts[..|parts| - 1]) + parts[|parts| - 1]
  }

  // ----- Tagged sequences: entry k of xs carries the tag tags[k]

  /** Those of the first k entries that carry tag c, in order. */
  function Own<T>(xs: seq<T>, tags: seq<nat>, c: nat, k: nat): seq<T>
    requires k <= |xs| == |tags|
  {
    if k == 0 then [] else Own(xs, tags, c, k - 1) + if tags[k - 1] == c then [xs[k - 1]] else []
  }

  lemma {:induction false} OwnNone<T>(xs: seq<T>, tags: seq<nat>, c: nat, k: nat)
    requires k <= |xs| == |tags| && forall j :: 0 <= j < k ==> tags[j] != c
    ensures Own(xs, tags, c, k) == []
  {
    if k == 0 {
    } else {
      OwnNone(xs, tags, c, k - 1);
    }
  }

  lemma {:induction false} OwnPrefix<T>(xs: seq<T>, tags: seq<nat>, xs': seq<T>, tags': seq<nat>, c: nat, k: nat)
    requires k <= |xs| == |tags| && |xs'| == |tags'| && xs <= xs' && tags <= tags'
    ensures Own(xs', tags', c, k) == Own(xs, tags, c, k)
  {
    if k == 0 {
    } else {
      OwnPrefix(xs, tags, xs', tags', c, k - 1);
    }
  }

  // ----- Sums and products

  function Sum(xs: seq<int>): int { if xs == [] then 0 else xs[0] + Sum(xs[1..]) }

  lemma {:induction false} SumOneMore(xs: seq<int>, k: nat)
    requires k < |xs|
    ensures Sum(xs[..k + 1]) == Sum(xs[..k]) + xs[k]
    decreases k
  {
    if k == 0 {
    } else {
      SumOneMore(xs[1..], k - 1);
      assert xs[..k + 1][1..] == xs[1..][..k] && xs[..k][1..] == xs[1..][..k - 1];
    }
  }

  lemma MulMono(c: nat, x: int, y: int)
    requires x <= y
    ensures c * x <= c * y
  {
  }

  lemma MulStep(c: nat, k: int)
    ensures c * (k + 1) == c * k + c
  {
  }

  lemma CeilBound(n: nat, b: nat, k: nat)
    requires b > 0
    ensures b * k >= n <==> k >= (n + b - 1) / b
  {
    var q := (n + b - 1) / b;
    assert b * q <= n + b - 1 < b * q + b;
    if k >= q { MulMono(b, q, k); } else { MulMono(b, k + 1, q); MulStep(b, k); }
  }
}
