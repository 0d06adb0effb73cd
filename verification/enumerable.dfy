/** The three LINQ pipelines the configuration manager is built from, over
    finite, ordered sequences: `FirstOrDefault(p)`, `Where(p)` and
    `Select(f).OfType<U>()` (a filter-map that drops the nulls). */
module Enumerable {
  import opened Wrappers

  /** `i` is the position of the first element of `xs` satisfying `p`. */
  ghost predicate IsFirst<T>(xs: seq<T>, p: T -> bool, i: int) {
    0 <= i < |xs| && p(xs[i]) && forall j :: 0 <= j < i ==> !p(xs[j])
  }

  /** Position of the first element satisfying `p`, None when there is none. */
  function FirstIndex<T>(xs: seq<T>, p: T -> bool): (r: Option<nat>)
    ensures r.Some? ==> IsFirst(xs, p, r.value)
    ensures r.None? <==> forall j :: 0 <= j < |xs| ==> !p(xs[j])
  {
    if |xs| == 0 then None
    else if p(xs[0]) then Some(0)
    else match FirstIndex(xs[1..], p)
      case None => None
      case Some(i) => Some(i + 1)
  }

  /** `FirstOrDefault(p)`: the first element satisfying `p`, None (the
      default of a reference type) when there is none. */
  function FirstOrNone<T>(xs: seq<T>, p: T -> bool): (r: Option<T>)
    ensures r.None? <==> forall j :: 0 <= j < |xs| ==> !p(xs[j])
    ensures r.Some? ==> exists i :: IsFirst(xs, p, i) && r.value == xs[i]
  {
    match FirstIndex(xs, p)
    case None => None
    case Some(i) => Some(xs[i])
  }

  /** An element that fails `p` can be removed without changing the answer. */
  lemma {:induction false} FirstOrNoneSkips<T>(before: seq<T>, x: T, after: seq<T>, p: T -> bool)
    requires !p(x)
    ensures FirstOrNone(before + [x] + after, p) == FirstOrNone(before + after, p)
  {
    if |before| == 0 {
      assert before + [x] + after == [x] + after;
      assert before + after == after;
      FirstOrNoneCons(x, after, p);
    } else {
      var b := before[0];
      var rest := before[1..];
      assert before + [x] + after == [b] + (rest + [x] + after);
      assert before + after == [b] + (rest + after);
      FirstOrNoneSkips(rest, x, after, p);
      FirstOrNoneCons(b, rest + [x] + after, p);
      FirstOrNoneCons(b, rest + after, p);
    }
  }

  /** A predicate seen as a filter-map: keep the element or drop it. */
  function KeepIf<T>(p: T -> bool): T -> Option<T> {
    (x: T) => if p(x) then Some(x) else None
  }

  /** `Where(p)`: the elements satisfying `p`, in their original order. */
  function Where<T>(xs: seq<T>, p: T -> bool): (r: seq<T>)
    ensures |r| <= |xs|
    ensures forall i :: 0 <= i < |r| ==> p(r[i])
  {
    if |xs| == 0 then []
    else (if p(xs[0]) then [xs[0]] else []) + Where(xs[1..], p)
  }

  /** Where is the filter-map that keeps exactly the elements satisfying `p`. */
  lemma {:induction false} WhereIsChoose<T>(xs: seq<T>, p: T -> bool)
    ensures Where(xs, p) == Choose(xs, KeepIf(p))
  {
    if |xs| > 0 {
      WhereIsChoose(xs[1..], p);
    }
  }

  /** Where keeps the elements satisfying `p` at strictly increasing
      positions, each once, and misses none of them. */
  lemma WhereIsOrderedSelection<T>(xs: seq<T>, p: T -> bool)
    ensures IsOrderedSelection(xs, KeepIf(p), Kept(xs, KeepIf(p)), Where(xs, p))
  {
    WhereIsChoose(xs, p);
    ChooseIsOrderedSelection(xs, KeepIf(p));
  }

  /** Where keeps every element that satisfies `p` and nothing else. */
  lemma {:induction false} WhereMembers<T>(xs: seq<T>, p: T -> bool)
    ensures forall i :: 0 <= i < |xs| && p(xs[i]) ==> xs[i] in Where(xs, p)
    ensures forall i :: 0 <= i < |Where(xs, p)| ==> Where(xs, p)[i] in xs
  {
    if |xs| > 0 {
      WhereMembers(xs[1..], p);
      var head := if p(xs[0]) then [xs[0]] else [];
      assert Where(xs, p) == head + Where(xs[1..], p);
      assert forall i :: 1 <= i < |xs| ==> xs[i] == xs[1..][i - 1];
    }
  }

  /** `i` is the first position where both `p` and `q` hold. */
  ghost predicate IsFirstOfBoth<T>(xs: seq<T>, p: T -> bool, q: T -> bool, i: int) {
    0 <= i < |xs| && p(xs[i]) && q(xs[i]) && forall j :: 0 <= j < i ==> !(p(xs[j]) && q(xs[j]))
  }

  /** FirstOrNone looks at the head before the tail. */
  lemma FirstOrNoneCons<T>(x: T, ys: seq<T>, q: T -> bool)
    ensures FirstOrNone([x] + ys, q) == if q(x) then Some(x) else FirstOrNone(ys, q)
  {
    assert ([x] + ys)[0] == x;
    assert ([x] + ys)[1..] == ys;
  }

  /** Filtering by `p` and then taking the first element satisfying `q`
      picks the first element of the unfiltered sequence satisfying both. */
  lemma {:induction false} FirstOfWhere<T>(xs: seq<T>, p: T -> bool, q: T -> bool)
    ensures FirstOrNone(Where(xs, p), q).None? <==> forall j :: 0 <= j < |xs| ==> !(p(xs[j]) && q(xs[j]))
    ensures FirstOrNone(Where(xs, p), q).Some? ==>
      exists i :: IsFirstOfBoth(xs, p, q, i) && FirstOrNone(Where(xs, p), q).value == xs[i]
  {
    if |xs| > 0 {
      var rest := Where(xs[1..], p);
      var r := FirstOrNone(Where(xs, p), q);
      FirstOfWhere(xs[1..], p, q);
      if p(xs[0]) {
        assert Where(xs, p) == [xs[0]] + rest;
        FirstOrNoneCons(xs[0], rest, q);
      } else {
        assert Where(xs, p) == rest;
      }
      assert r == if p(xs[0]) && q(xs[0]) then Some(xs[0]) else FirstOrNone(rest, q);
      if p(xs[0]) && q(xs[0]) {
        assert IsFirstOfBoth(xs, p, q, 0);
      } else if r.Some? {
        var i :| IsFirstOfBoth(xs[1..], p, q, i) && r.value == xs[1..][i];
        assert IsFirstOfBoth(xs, p, q, i + 1);
      } else {
        assert forall j :: 1 <= j < |xs| ==> xs[j] == xs[1..][j - 1];
      }
    }
  }

  /** `Select(f).OfType<U>()`: the non-null images under `f`, in order. */
  function Choose<T, U>(xs: seq<T>, f: T -> Option<U>): (r: seq<U>)
    ensures |r| <= |xs|
    ensures (forall i :: 0 <= i < |xs| ==> f(xs[i]).None?) ==> r == []
    ensures (forall i :: 0 <= i < |xs| ==> f(xs[i]).Some?) ==>
      |r| == |xs| && forall i :: 0 <= i < |xs| ==> Some(r[i]) == f(xs[i])
  {
    if |xs| == 0 then []
    else
      var rest := Choose(xs[1..], f);
      match f(xs[0])
      case None => rest
      case Some(u) => [u] + rest
  }

  /** When every image is non-null, Choose returns exactly the images. */
  lemma ChooseAllSome<T, U>(xs: seq<T>, f: T -> Option<U>, vs: seq<U>)
    requires |vs| == |xs| && forall i :: 0 <= i < |xs| ==> f(xs[i]) == Some(vs[i])
    ensures Choose(xs, f) == vs
  {
  }

  /** Choose is a homomorphism of concatenation: it works element by element. */
  lemma {:induction false} ChooseAppend<T, U>(a: seq<T>, b: seq<T>, f: T -> Option<U>)
    ensures Choose(a + b, f) == Choose(a, f) + Choose(b, f)
  {
    if |a| > 0 {
      assert (a + b)[1..] == a[1..] + b;
      ChooseAppend(a[1..], b, f);
    } else {
      assert a + b == b;
    }
  }

  /** An element whose image is null is simply skipped. */
  lemma ChooseSkipsNone<T, U>(xs: seq<T>, f: T -> Option<U>, i: int)
    requires 0 <= i < |xs| && f(xs[i]).None?
    ensures Choose(xs, f) == Choose(xs[..i] + xs[i + 1..], f)
  {
    assert xs == xs[..i] + ([xs[i]] + xs[i + 1..]);
    ChooseAppend(xs[..i], [xs[i]] + xs[i + 1..], f);
    ChooseAppend([xs[i]], xs[i + 1..], f);
    ChooseAppend(xs[..i], xs[i + 1..], f);
  }

  /** Every position moved one place to the right. */
  ghost function Shift(idx: seq<int>): (r: seq<int>)
    ensures |r| == |idx| && forall k :: 0 <= k < |idx| ==> r[k] == idx[k] + 1
  {
    seq(|idx|, k requires 0 <= k < |idx| => idx[k] + 1)
  }

  /** The positions Choose keeps, in increasing order. */
  ghost function Kept<T, U>(xs: seq<T>, f: T -> Option<U>): seq<int> {
    if |xs| == 0 then []
    else if f(xs[0]).Some? then [0] + Shift(Kept(xs[1..], f))
    else Shift(Kept(xs[1..], f))
  }

  /** Position `idx[k]` of `xs` has the non-null image `r[k]`. */
  ghost predicate Sound<T, U>(xs: seq<T>, f: T -> Option<U>, idx: seq<int>, r: seq<U>) {
    |idx| == |r| && forall k :: 0 <= k < |idx| ==> 0 <= idx[k] < |xs| && f(xs[idx[k]]) == Some(r[k])
  }

  ghost predicate Increasing(idx: seq<int>) {
    forall k, l :: 0 <= k < l < |idx| ==> idx[k] < idx[l]
  }

  /** Every position of `xs` whose image is not null is listed in `idx`. */
  ghost predicate Complete<T, U>(xs: seq<T>, f: T -> Option<U>, idx: seq<int>) {
    forall i :: 0 <= i < |xs| && f(xs[i]).Some? ==> i in idx
  }

  /** `r` is the image under `f` of the positions `idx` of `xs`, taken in
      strictly increasing order, and `idx` holds every position whose image
      is not null: `r` is the order-preserving subsequence of the non-null
      images. */
  ghost predicate IsOrderedSelection<T, U>(xs: seq<T>, f: T -> Option<U>, idx: seq<int>, r: seq<U>) {
    Sound(xs, f, idx, r) && Increasing(idx) && Complete(xs, f, idx)
  }

  lemma SoundStep<T, U>(xs: seq<T>, f: T -> Option<U>, idx: seq<int>, r: seq<U>)
    requires |xs| > 0 && Sound(xs[1..], f, idx, r)
    ensures Sound(xs, f, Shift(idx), r)
    ensures f(xs[0]).Some? ==> Sound(xs, f, [0] + Shift(idx), [f(xs[0]).value] + r)
  {
    var s := Shift(idx);
    forall k | 0 <= k < |s|
      ensures 0 <= s[k] < |xs| && f(xs[s[k]]) == Some(r[k])
    {
      assert xs[s[k]] == xs[1..][idx[k]];
    }
  }

  lemma IncreasingStep(idx: seq<int>)
    requires Increasing(idx) && forall k :: 0 <= k < |idx| ==> idx[k] >= 0
    ensures Increasing(Shift(idx)) && Increasing([0] + Shift(idx))
  {
  }

  lemma CompleteStep<T, U>(xs: seq<T>, f: T -> Option<U>, idx: seq<int>)
    requires |xs| > 0 && Complete(xs[1..], f, idx)
    ensures f(xs[0]).None? ==> Complete(xs, f, Shift(idx))
    ensures f(xs[0]).Some? ==> Complete(xs, f, [0] + Shift(idx))
  {
    var s := Shift(idx);
    forall i | 1 <= i < |xs| && f(xs[i]).Some?
      ensures i in s
    {
      assert xs[1..][i - 1] == xs[i];
      var k :| 0 <= k < |idx| && idx[k] == i - 1;
      assert s[k] == i;
    }
    assert forall i :: 1 <= i < |xs| && f(xs[i]).Some? ==> i in [0] + s;
  }

  lemma {:induction false} ChooseIsOrderedSelection<T, U>(xs: seq<T>, f: T -> Option<U>)
    ensures IsOrderedSelection(xs, f, Kept(xs, f), Choose(xs, f))
  {
    if |xs| > 0 {
      var idx := Kept(xs[1..], f);
      ChooseIsOrderedSelection(xs[1..], f);
      SoundStep(xs, f, idx, Choose(xs[1..], f));
      IncreasingStep(idx);
      CompleteStep(xs, f, idx);
    }
  }
}
