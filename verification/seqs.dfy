/**
 * The sequence operations the presenter relies on: nested `forEach`
 * (FlatMap), `filter`, a per-element transform (Map) and Kotlin's
 * `zipWithNext`, with the facts about them that the extractor's
 * properties are built from.
 */
module Seqs {

  /** Concatenation of `f(x)` for every `x` of `s`, in order. */
  function FlatMap<A, B>(s: seq<A>, f: A -> seq<B>): seq<B>
  {
    if s == [] then [] else f(s[0]) + FlatMap(s[1..], f)
  }

  /** The elements of `s` that satisfy `p`, in their original order. */
  function Filter<A>(s: seq<A>, p: A -> bool): (r: seq<A>)
    ensures |r| <= |s|
    ensures forall x :: x in r ==> x in s && p(x)
    ensures forall x :: x in s && p(x) ==> x in r
  {
    if s == [] then []
    else (if p(s[0]) then [s[0]] else []) + Filter(s[1..], p)
  }

  /** `f` applied to every element of `s`. */
  function Map<A, B>(s: seq<A>, f: A -> B): (r: seq<B>)
    ensures |r| == |s|
    ensures forall i :: 0 <= i < |s| ==> r[i] == f(s[i])
  {
    if s == [] then [] else [f(s[0])] + Map(s[1..], f)
  }

  /** Kotlin's `zipWithNext(transform)`: `transform` of every adjacent pair. */
  function ZipWithNext<A, B>(s: seq<A>, f: (A, A) -> B): (r: seq<B>)
    ensures |r| == if |s| < 2 then 0 else |s| - 1
    ensures forall i {:trigger r[i]} :: 0 <= i < |r| ==> r[i] == f(s[i], s[i + 1])
  {
    if |s| < 2 then [] else [f(s[0], s[1])] + ZipWithNext(s[1..], f)
  }

  lemma AppendAssoc<A>(a: seq<A>, b: seq<A>, c: seq<A>)
    ensures a + b + c == a + (b + c)
  {
  }

  lemma {:induction false} FlatMapAppend<A, B>(s: seq<A>, t: seq<A>, f: A -> seq<B>)
    ensures FlatMap(s + t, f) == FlatMap(s, f) + FlatMap(t, f)
  {
    if s == [] {
      assert s + t == t;
    } else {
      assert (s + t)[1..] == s[1..] + t;
      FlatMapAppend(s[1..], t, f);
    }
  }

  /** One more step of a loop over `s`: the prefix grows by `f(s[k])`. */
  lemma FlatMapSnoc<A, B>(s: seq<A>, k: nat, f: A -> seq<B>)
    requires k < |s|
    ensures FlatMap(s[..k + 1], f) == FlatMap(s[..k], f) + f(s[k])
  {
    assert s[..k + 1] == s[..k] + [s[k]];
    FlatMapAppend(s[..k], [s[k]], f);
    assert FlatMap([s[k]], f) == f(s[k]) + FlatMap([], f);
  }

  /** `FlatMapSnoc` after a fixed prefix: the shape of a loop that appends to a trace. */
  lemma FlatMapStep<A, B>(prefix: seq<B>, s: seq<A>, k: nat, f: A -> seq<B>)
    requires k < |s|
    ensures prefix + FlatMap(s[..k], f) + f(s[k]) == prefix + FlatMap(s[..k + 1], f)
  {
    FlatMapSnoc(s, k, f);
  }

  /** An element comes out of a FlatMap exactly when some input produced it. */
  lemma {:induction false} FlatMapMember<A, B>(s: seq<A>, f: A -> seq<B>, y: B)
    ensures y in FlatMap(s, f) <==> exists i :: 0 <= i < |s| && y in f(s[i])
  {
    if s != [] {
      FlatMapMember(s[1..], f, y);
      if y in FlatMap(s[1..], f) {
        var j :| 0 <= j < |s[1..]| && y in f(s[1..][j]);
        assert y in f(s[j + 1]);
      }
      if exists i :: 0 <= i < |s| && y in f(s[i]) {
        var i :| 0 <= i < |s| && y in f(s[i]);
        if i > 0 {
          assert y in f(s[1..][i - 1]);
        }
      }
    }
  }

  /** Flattening twice is flattening once with the composed producer. */
  lemma {:induction false} FlatMapFlatMap<A, B, C>(s: seq<A>, f: A -> seq<B>, g: B -> seq<C>, h: A -> seq<C>)
    requires forall x :: h(x) == FlatMap(f(x), g)
    ensures FlatMap(FlatMap(s, f), g) == FlatMap(s, h)
  {
    if s != [] {
      FlatMapAppend(f(s[0]), FlatMap(s[1..], f), g);
      FlatMapFlatMap(s[1..], f, g, h);
    }
  }

  /** A FlatMap producing zero or one element per input is a filter then a map. */
  lemma {:induction false} FlatMapIsFilterMap<A, B>(s: seq<A>, f: A -> seq<B>, p: A -> bool, g: A -> B)
    requires forall x :: f(x) == if p(x) then [g(x)] else []
    ensures FlatMap(s, f) == Map(Filter(s, p), g)
  {
    if s != [] {
      FlatMapIsFilterMap(s[1..], f, p, g);
      var head := if p(s[0]) then [s[0]] else [];
      MapAppend(head, Filter(s[1..], p), g);
    }
  }

  lemma MapAppend<A, B>(s: seq<A>, t: seq<A>, f: A -> B)
    ensures Map(s + t, f) == Map(s, f) + Map(t, f)
  {
    assert |Map(s + t, f)| == |Map(s, f) + Map(t, f)|;
    forall i | 0 <= i < |s| + |t|
      ensures Map(s + t, f)[i] == (Map(s, f) + Map(t, f))[i]
    {
      if i >= |s| {
        assert (s + t)[i] == t[i - |s|];
      }
    }
  }

  /** One more step of a loop that appends `f(s[m])` to a trace. */
  lemma MapStep<A, B>(prefix: seq<B>, s: seq<A>, m: nat, f: A -> B)
    requires m < |s|
    ensures prefix + Map(s[..m], f) + [f(s[m])] == prefix + Map(s[..m + 1], f)
  {
    assert s[..m + 1] == s[..m] + [s[m]];
    MapAppend(s[..m], [s[m]], f);
  }

  lemma {:induction false} FilterAppend<A>(s: seq<A>, t: seq<A>, p: A -> bool)
    ensures Filter(s + t, p) == Filter(s, p) + Filter(t, p)
  {
    if s == [] {
      assert s + t == t;
    } else {
      assert (s + t)[1..] == s[1..] + t;
      FilterAppend(s[1..], t, p);
    }
  }

  /**
   * `idx` lists the positions of `s` kept by the filter `p`: strictly
   * increasing, every kept position listed, and nothing else.
   */
  ghost predicate SelectsPositions<A>(s: seq<A>, p: A -> bool, r: seq<A>, idx: seq<nat>)
  {
    && |idx| == |r|
    && (forall k :: 0 <= k < |idx| ==> idx[k] < |s| && r[k] == s[idx[k]])
    && (forall k, m :: 0 <= k < m < |idx| ==> idx[k] < idx[m])
    && (forall i :: 0 <= i < |s| ==> (p(s[i]) <==> i in idx))
  }

  /** Appending one element extends a selection by its position when `p` keeps it. */
  lemma SelectsSnoc<A>(s: seq<A>, x: A, p: A -> bool, r: seq<A>, idx: seq<nat>)
    requires SelectsPositions(s, p, r, idx)
    ensures SelectsPositions(s + [x], p, r + (if p(x) then [x] else []),
                             if p(x) then idx + [|s|] else idx)
  {
    var s', r' := s + [x], r + (if p(x) then [x] else []);
    var idx' := if p(x) then idx + [|s|] else idx;
    forall k | 0 <= k < |idx'|
      ensures idx'[k] < |s'| && r'[k] == s'[idx'[k]]
    {
      if k < |idx| {
        assert idx'[k] == idx[k] && r'[k] == r[k];
      }
    }
    forall k, m | 0 <= k < m < |idx'|
      ensures idx'[k] < idx'[m]
    {
      if m < |idx| {
        assert idx'[k] == idx[k] && idx'[m] == idx[m];
      } else {
        assert idx'[k] == idx[k] < |s|;
      }
    }
    forall i | 0 <= i < |s'|
      ensures p(s'[i]) <==> i in idx'
    {
      if i < |s| {
        assert s'[i] == s[i];
        assert i in idx' <==> i in idx;
      } else {
        assert forall k :: 0 <= k < |idx| ==> idx[k] != i;
      }
    }
  }

  lemma FilterSnoc<A>(s: seq<A>, x: A, p: A -> bool)
    ensures Filter(s + [x], p) == Filter(s, p) + (if p(x) then [x] else [])
  {
    FilterAppend(s, [x], p);
    assert [x][1..] == [];
  }

  /** Filtering keeps every satisfying element exactly once, in input order. */
  lemma {:induction false} FilterSelects<A>(s: seq<A>, p: A -> bool)
    ensures exists idx :: SelectsPositions(s, p, Filter(s, p), idx)
  {
    if s == [] {
      assert SelectsPositions(s, p, Filter(s, p), []);
    } else {
      var n := |s| - 1;
      var init, last := s[..n], s[n];
      assert s == init + [last];
      FilterSelects(init, p);
      var idx :| SelectsPositions(init, p, Filter(init, p), idx);
      FilterSnoc(init, last, p);
      SelectsSnoc(init, last, p, Filter(init, p), idx);
    }
  }
}
