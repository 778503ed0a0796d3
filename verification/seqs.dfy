/** Sequence utilities shared by the generators: flattening, de-duplication
    in first-occurrence order (the iteration order of a JavaScript `Set`). */
module Seqs {

  /** A value, or its absence. */
  datatype Option<T> = None | Some(value: T)

  function Flatten<T>(xss: seq<seq<T>>): seq<T>
    decreases |xss|
  {
    if |xss| == 0 then [] else xss[0] + Flatten(xss[1..])
  }

  lemma {:induction false} FlattenAppend<T>(a: seq<seq<T>>, b: seq<seq<T>>)
    ensures Flatten(a + b) == Flatten(a) + Flatten(b)
    decreases |a|
  {
    if |a| == 0 {
      assert a + b == b;
    } else {
      assert (a + b)[1..] == a[1..] + b;
      FlattenAppend(a[1..], b);
    }
  }

  lemma FlattenSnoc<T>(a: seq<seq<T>>, x: seq<T>)
    ensures Flatten(a + [x]) == Flatten(a) + x
  {
    FlattenAppend(a, [x]);
    assert Flatten([x]) == x + Flatten([x][1..]);
    assert [x][1..] == [];
  }

  /** Flattening blocks that all have the same length `k` gives `k` times
      as many elements. */
  lemma {:induction false} FlattenUniformLength<T>(xss: seq<seq<T>>, k: nat)
    requires forall i :: 0 <= i < |xss| ==> |xss[i]| == k
    ensures |Flatten(xss)| == k * |xss|
    decreases |xss|
  {
    if |xss| > 0 {
      FlattenUniformLength(xss[1..], k);
      assert k * |xss| == k + k * (|xss| - 1);
    }
  }

  /** Element `j` of block `i` sits right after the blocks before it. */
  lemma FlattenAt<T>(xss: seq<seq<T>>, i: nat, j: nat)
    requires i < |xss| && j < |xss[i]|
    ensures |Flatten(xss[..i])| + j < |Flatten(xss)|
    ensures Flatten(xss)[|Flatten(xss[..i])| + j] == xss[i][j]
  {
    assert xss == xss[..i] + ([xss[i]] + xss[i + 1..]);
    FlattenAppend(xss[..i], [xss[i]] + xss[i + 1..]);
    FlattenAppend([xss[i]], xss[i + 1..]);
    assert Flatten([xss[i]]) == xss[i] + Flatten([xss[i]][1..]);
    assert [xss[i]][1..] == [];
  }

  predicate NoDuplicates<T(==)>(xs: seq<T>) {
    forall i, j :: 0 <= i < j < |xs| ==> xs[i] != xs[j]
  }

  /** The elements of `xs` in the order they first appear, each once: what
      iterating a JavaScript `Set` filled by `add(x)` for every `x` yields. */
  function Dedup<T(==)>(xs: seq<T>): (r: seq<T>)
    ensures forall i :: 0 <= i < |r| ==> r[i] in xs
    ensures forall i :: 0 <= i < |xs| ==> xs[i] in r
    ensures NoDuplicates(r)
    decreases |xs|
  {
    if |xs| == 0 then []
    else
      var d := Dedup(xs[..|xs| - 1]);
      var x := xs[|xs| - 1];
      assert xs == xs[..|xs| - 1] + [x];
      if x in d then d else d + [x]
  }

  /** The position of the first occurrence of `x` in `xs`. */
  function FirstIndex<T(==)>(xs: seq<T>, x: T): (i: nat)
    requires x in xs
    ensures i < |xs| && xs[i] == x
    ensures forall j :: 0 <= j < i ==> xs[j] != x
    decreases |xs|
  {
    if xs[0] == x then 0 else 1 + FirstIndex(xs[1..], x)
  }

  lemma {:induction false} FirstIndexSnoc<T>(xs: seq<T>, y: T, x: T)
    requires x in xs
    ensures FirstIndex(xs + [y], x) == FirstIndex(xs, x)
  {
    var i := FirstIndex(xs, x);
    var k := FirstIndex(xs + [y], x);
    assert (xs + [y])[i] == x;
  }

  /** Dedup keeps first occurrences in order: an element listed earlier in
      the result first appeared earlier in the input. */
  lemma {:induction false} DedupFirstOccurrenceOrder<T>(xs: seq<T>)
    ensures forall i, j :: 0 <= i < j < |Dedup(xs)| ==>
      FirstIndex(xs, Dedup(xs)[i]) < FirstIndex(xs, Dedup(xs)[j])
    decreases |xs|
  {
    if |xs| > 0 {
      var init := xs[..|xs| - 1];
      var x := xs[|xs| - 1];
      assert xs == init + [x];
      DedupFirstOccurrenceOrder(init);
      var d := Dedup(init);
      SnocKeepsFirstOrder(init, x, d);
      if x in d {
        assert Dedup(xs) == d;
      } else {
        assert x !in init;
        SnocNewLast(init, x, d);
        assert Dedup(xs) == d + [x];
      }
    }
  }

  /** Appending to the input moves no first occurrence among its elements. */
  lemma SnocKeepsFirstOrder<T>(init: seq<T>, x: T, d: seq<T>)
    requires forall i :: 0 <= i < |d| ==> d[i] in init
    requires forall i, j :: 0 <= i < j < |d| ==> FirstIndex(init, d[i]) < FirstIndex(init, d[j])
    ensures forall i, j :: 0 <= i < j < |d| ==> FirstIndex(init + [x], d[i]) < FirstIndex(init + [x], d[j])
  {
    forall i, j | 0 <= i < j < |d|
      ensures FirstIndex(init + [x], d[i]) < FirstIndex(init + [x], d[j])
    {
      FirstIndexSnoc(init, x, d[i]);
      FirstIndexSnoc(init, x, d[j]);
    }
  }

  /** A new element appended to the input comes after every earlier first
      occurrence. */
  lemma SnocNewLast<T>(init: seq<T>, x: T, d: seq<T>)
    requires x !in init
    requires forall i :: 0 <= i < |d| ==> d[i] in init
    requires forall i, j :: 0 <= i < j < |d| ==> FirstIndex(init + [x], d[i]) < FirstIndex(init + [x], d[j])
    ensures forall i, j :: 0 <= i < j < |d + [x]| ==>
      FirstIndex(init + [x], (d + [x])[i]) < FirstIndex(init + [x], (d + [x])[j])
  {
    var r := d + [x];
    assert FirstIndex(init + [x], x) == |init| by {
      assert (init + [x])[|init|] == x;
    }
    forall i, j | 0 <= i < j < |r|
      ensures FirstIndex(init + [x], r[i]) < FirstIndex(init + [x], r[j])
    {
      assert r[i] == d[i];
      FirstIndexSnoc(init, x, d[i]);
      if j < |d| {
        assert r[j] == d[j];
      }
    }
  }

  function Filter<T>(xs: seq<T>, keep: T -> bool): (r: seq<T>)
    ensures |r| <= |xs|
    ensures forall i :: 0 <= i < |r| ==> r[i] in xs && keep(r[i])
    ensures forall i :: 0 <= i < |xs| && keep(xs[i]) ==> xs[i] in r
    decreases |xs|
  {
    if |xs| == 0 then []
    else (if keep(xs[0]) then [xs[0]] else []) + Filter(xs[1..], keep)
  }

  lemma {:induction false} FilterAppend<T>(a: seq<T>, b: seq<T>, keep: T -> bool)
    ensures Filter(a + b, keep) == Filter(a, keep) + Filter(b, keep)
    decreases |a|
  {
    if |a| == 0 {
      assert a + b == b;
    } else {
      assert (a + b)[1..] == a[1..] + b;
      FilterAppend(a[1..], b, keep);
    }
  }

  /** Filter over a three-element sequence, one element at a time. */
  lemma Filter3<T>(a: T, b: T, c: T, keep: T -> bool)
    ensures Filter([a, b, c], keep)
      == (if keep(a) then [a] else []) + (if keep(b) then [b] else []) + (if keep(c) then [c] else [])
  {
    assert [a, b, c][1..] == [b, c];
    assert [b, c][1..] == [c];
    assert [c][1..] == [];
    assert Filter([c], keep) == (if keep(c) then [c] else []) + Filter([], keep);
    assert Filter([b, c], keep) == (if keep(b) then [b] else []) + Filter([c], keep);
    assert Filter([a, b, c], keep) == (if keep(a) then [a] else []) + Filter([b, c], keep);
  }

  /** FilterAppend across seven consecutive parts. */
  lemma FilterConcat7<T>(a1: seq<T>, a2: seq<T>, a3: seq<T>, a4: seq<T>, a5: seq<T>, a6: seq<T>, a7: seq<T>, keep: T -> bool)
    ensures Filter(a1 + a2 + a3 + a4 + a5 + a6 + a7, keep)
      == Filter(a1, keep) + Filter(a2, keep) + Filter(a3, keep) + Filter(a4, keep)
         + Filter(a5, keep) + Filter(a6, keep) + Filter(a7, keep)
  {
    FilterAppend(a1, a2, keep);
    FilterAppend(a1 + a2, a3, keep);
    FilterAppend(a1 + a2 + a3, a4, keep);
    FilterAppend(a1 + a2 + a3 + a4, a5, keep);
    FilterAppend(a1 + a2 + a3 + a4 + a5, a6, keep);
    FilterAppend(a1 + a2 + a3 + a4 + a5 + a6, a7, keep);
  }

  function Count<T>(xs: seq<T>, keep: T -> bool): nat {
    |Filter(xs, keep)|
  }

  /** Filtering a flattening is flattening the per-block filterings. */
  lemma {:induction false} FilterFlatten<T>(xss: seq<seq<T>>, keep: T -> bool, hss: seq<seq<T>>)
    requires |hss| == |xss|
    requires forall i :: 0 <= i < |xss| ==> Filter(xss[i], keep) == hss[i]
    ensures Filter(Flatten(xss), keep) == Flatten(hss)
    decreases |xss|
  {
    if |xss| > 0 {
      FilterAppend(xss[0], Flatten(xss[1..]), keep);
      FilterFlatten(xss[1..], keep, hss[1..]);
    }
  }

  /** When every block keeps exactly one element, the filtering of the
      flattening lists those elements, one per block, in block order. */
  lemma {:induction false} FilterFlattenSingles<T>(xss: seq<seq<T>>, keep: T -> bool, hs: seq<T>)
    requires |hs| == |xss|
    requires forall i :: 0 <= i < |xss| ==> Filter(xss[i], keep) == [hs[i]]
    ensures Filter(Flatten(xss), keep) == hs
    decreases |xss|
  {
    if |xss| > 0 {
      FilterAppend(xss[0], Flatten(xss[1..]), keep);
      FilterFlattenSingles(xss[1..], keep, hs[1..]);
      assert [hs[0]] + hs[1..] == hs;
    }
  }

  lemma {:induction false} FilterNone<T>(xs: seq<T>, keep: T -> bool)
    requires forall i :: 0 <= i < |xs| ==> !keep(xs[i])
    ensures Filter(xs, keep) == []
    decreases |xs|
  {
    if |xs| > 0 {
      FilterNone(xs[1..], keep);
    }
  }

  /** When `keep` holds only of sequences that begin with `c`, and no
      element of `xss` begins with `c`, the filtering keeps nothing. */
  lemma FilterNoneByHead<T>(xss: seq<seq<T>>, c: T, keep: seq<T> -> bool)
    requires forall xs :: keep(xs) ==> |xs| > 0 && xs[0] == c
    requires forall i :: 0 <= i < |xss| ==> |xss[i]| == 0 || xss[i][0] != c
    ensures Filter(xss, keep) == []
  {
    FilterNone(xss, keep);
  }

  /** In a flattening of blocks of `k` elements each, element `j` of block
      `i` sits at `k * i + j`. */
  lemma FlattenUniformAt<T>(xss: seq<seq<T>>, k: nat, i: nat, j: nat)
    requires forall b :: 0 <= b < |xss| ==> |xss[b]| == k
    requires i < |xss| && j < k
    ensures k * i + j < |Flatten(xss)|
    ensures Flatten(xss)[k * i + j] == xss[i][j]
  {
    FlattenUniformLength(xss[..i], k);
    assert |xss[..i]| == i;
    FlattenAt(xss, i, j);
  }

  /** Filtering by a predicate and by its negation splits a sequence:
      together the two keep every element once. */
  lemma {:induction false} FilterPartition<T>(xs: seq<T>, keep: T -> bool, drop: T -> bool)
    requires forall x :: drop(x) == !keep(x)
    ensures multiset(Filter(xs, keep)) + multiset(Filter(xs, drop)) == multiset(xs)
    decreases |xs|
  {
    if |xs| > 0 {
      FilterPartition(xs[1..], keep, drop);
      assert xs == [xs[0]] + xs[1..];
    }
  }

  /** Filtering keeps everything when every element qualifies. */
  lemma {:induction false} FilterAll<T>(xs: seq<T>, keep: T -> bool)
    requires forall i :: 0 <= i < |xs| ==> keep(xs[i])
    ensures Filter(xs, keep) == xs
    decreases |xs|
  {
    if |xs| > 0 {
      FilterAll(xs[1..], keep);
    }
  }

  /** Every element of a flattening comes from one of its blocks. */
  lemma {:induction false} FlattenFrom<T>(xss: seq<seq<T>>, k: nat)
    requires k < |Flatten(xss)|
    ensures exists i, j :: 0 <= i < |xss| && 0 <= j < |xss[i]| && Flatten(xss)[k] == xss[i][j]
    decreases |xss|
  {
    if k < |xss[0]| {
      assert Flatten(xss)[k] == xss[0][k];
    } else {
      FlattenFrom(xss[1..], k - |xss[0]|);
      var i, j :| 0 <= i < |xss[1..]| && 0 <= j < |xss[1..][i]| && Flatten(xss[1..])[k - |xss[0]|] == xss[1..][i][j];
      assert xss[1..][i] == xss[i + 1];
    }
  }
}
