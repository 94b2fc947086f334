/** The list operations of PHP and of the framework's `Collection` that the
    modelled code relies on. A PHP list is a sequence; `array_filter` keeps
    the original integer keys, which is why its result is a sequence of
    key/value entries until `array_values` renumbers it. */
module PhpArrays {

  import opened PhpStrings

  /** One element of a filtered PHP array, with the key it had in the input. */
  datatype Entry<T> = Entry(key: nat, value: T)

  /** `array_filter($xs, $keep)`: the elements satisfying `keep`, each under its
      original key, in the original order. */
  function FilterKeyed<T>(xs: seq<T>, keep: T -> bool): (r: seq<Entry<T>>)
    ensures |r| <= |xs|
    ensures forall k :: 0 <= k < |r| ==> r[k].key < |xs| && xs[r[k].key] == r[k].value && keep(r[k].value)
    ensures forall k, l :: 0 <= k < l < |r| ==> r[k].key < r[l].key
    decreases |xs|
  {
    if |xs| == 0 then []
    else
      var last := |xs| - 1;
      var init := FilterKeyed(xs[..last], keep);
      if keep(xs[last]) then init + [Entry(last, xs[last])] else init
  }

  /** Every element satisfying `keep` is kept, under its own key. */
  lemma {:induction false} FilterKeyedComplete<T>(xs: seq<T>, keep: T -> bool, i: nat)
    requires i < |xs| && keep(xs[i])
    ensures exists k :: 0 <= k < |FilterKeyed(xs, keep)| && FilterKeyed(xs, keep)[k].key == i
    decreases |xs|
  {
    var last := |xs| - 1;
    var init := FilterKeyed(xs[..last], keep);
    if i == last {
      assert FilterKeyed(xs, keep)[|init|].key == i;
    } else {
      FilterKeyedComplete(xs[..last], keep, i);
      var k :| 0 <= k < |init| && init[k].key == i;
      assert FilterKeyed(xs, keep)[k] == init[k];
    }
  }

  /** `array_values($entries)`: the values, renumbered from 0. */
  function Values<T>(entries: seq<Entry<T>>): (r: seq<T>)
    ensures |r| == |entries|
    ensures forall k :: 0 <= k < |r| ==> r[k] == entries[k].value
  {
    seq(|entries|, k requires 0 <= k < |entries| => entries[k].value)
  }

  /** `array_values(array_filter($xs, $keep))`. */
  function Filter<T>(xs: seq<T>, keep: T -> bool): seq<T>
  {
    Values(FilterKeyed(xs, keep))
  }

  /** `ys` lists elements of `xs` at the strictly increasing positions `keys`. */
  ghost predicate SubsequenceAt<T>(ys: seq<T>, xs: seq<T>, keys: seq<nat>) {
    && |keys| == |ys|
    && (forall k :: 0 <= k < |keys| ==> keys[k] < |xs| && xs[keys[k]] == ys[k])
    && (forall k, l :: 0 <= k < l < |keys| ==> keys[k] < keys[l])
  }

  /** The keys a filtered array keeps. */
  function Keys<T>(entries: seq<Entry<T>>): (r: seq<nat>)
    ensures |r| == |entries|
    ensures forall k :: 0 <= k < |r| ==> r[k] == entries[k].key
  {
    seq(|entries|, k requires 0 <= k < |entries| => entries[k].key)
  }

  /** The renumbered filter result is the subsequence of the input taken at
      exactly the positions whose element satisfies `keep`. */
  lemma FilterSpec<T>(xs: seq<T>, keep: T -> bool)
    ensures var r := Filter(xs, keep);
      && |r| <= |xs|
      && (forall k :: 0 <= k < |r| ==> keep(r[k]))
      && (forall i :: 0 <= i < |xs| && keep(xs[i]) ==> xs[i] in r)
      && SubsequenceAt(r, xs, Keys(FilterKeyed(xs, keep)))
      && (forall i :: 0 <= i < |xs| ==> (i in Keys(FilterKeyed(xs, keep)) <==> keep(xs[i])))
  {
    var entries := FilterKeyed(xs, keep);
    var keys := Keys(entries);
    var r := Filter(xs, keep);
    forall i | 0 <= i < |xs| && keep(xs[i])
      ensures xs[i] in r && i in keys
    {
      FilterKeyedComplete(xs, keep, i);
      var k :| 0 <= k < |entries| && entries[k].key == i;
      assert r[k] == xs[i];
      assert keys[k] == i;
    }
  }

  /** When the last position of `xs` is among the increasing `keys`, it is the last key. */
  lemma LastKeyIsLastPosition<T>(ys: seq<T>, xs: seq<T>, keys: seq<nat>)
    requires SubsequenceAt(ys, xs, keys)
    requires |xs| > 0 && |xs| - 1 in keys
    ensures |keys| > 0 && keys[|keys| - 1] == |xs| - 1
  {
    var j :| 0 <= j < |keys| && keys[j] == |xs| - 1;
    assert keys[|keys| - 1] < |xs|;
  }

  /** Dropping the last position of `xs` together with the last key. */
  lemma SubsequenceDropLast<T>(ys: seq<T>, xs: seq<T>, keys: seq<nat>)
    requires SubsequenceAt(ys, xs, keys)
    requires |keys| > 0 && keys[|keys| - 1] == |xs| - 1
    ensures SubsequenceAt(ys[..|keys| - 1], xs[..|xs| - 1], keys[..|keys| - 1])
    ensures forall i :: 0 <= i < |xs| - 1 ==> (i in keys[..|keys| - 1] <==> i in keys)
  {
    var n := |keys|;
    forall i | 0 <= i < |xs| - 1 && i in keys
      ensures i in keys[..n - 1]
    {
      var k :| 0 <= k < n && keys[k] == i;
      assert keys[..n - 1][k] == i;
    }
  }

  /** Dropping the last position of `xs` when it is not a key. */
  lemma SubsequenceDropUnkept<T>(ys: seq<T>, xs: seq<T>, keys: seq<nat>)
    requires SubsequenceAt(ys, xs, keys)
    requires |xs| > 0 && |xs| - 1 !in keys
    ensures SubsequenceAt(ys, xs[..|xs| - 1], keys)
  {
    assert forall k :: 0 <= k < |keys| ==> keys[k] != |xs| - 1;
  }

  /** Conversely, a subsequence taken at exactly the positions satisfying
      `keep` is the filter result: the description above determines it. */
  lemma {:induction false} FilterIsDetermined<T>(ys: seq<T>, xs: seq<T>, keep: T -> bool, keys: seq<nat>)
    requires SubsequenceAt(ys, xs, keys)
    requires forall i :: 0 <= i < |xs| ==> (i in keys <==> keep(xs[i]))
    ensures ys == Filter(xs, keep)
    decreases |xs|
  {
    if |xs| == 0 {
      if |keys| > 0 {
        assert false;
      }
    } else {
      var last := |xs| - 1;
      var init := FilterKeyed(xs[..last], keep);
      if keep(xs[last]) {
        LastKeyIsLastPosition(ys, xs, keys);
        var n := |keys|;
        SubsequenceDropLast(ys, xs, keys);
        FilterIsDetermined(ys[..n - 1], xs[..last], keep, keys[..n - 1]);
        var e := Entry(last, xs[last]);
        assert FilterKeyed(xs, keep) == init + [e];
        ValuesSnoc(init, e);
        assert ys == ys[..n - 1] + [ys[n - 1]];
      } else {
        SubsequenceDropUnkept(ys, xs, keys);
        FilterIsDetermined(ys, xs[..last], keep, keys);
      }
    }
  }

  /** Renumbering commutes with appending an entry. */
  lemma ValuesSnoc<T>(entries: seq<Entry<T>>, e: Entry<T>)
    ensures Values(entries + [e]) == Values(entries) + [e.value]
  {
  }

  /** Filtering a list with one more element at the end. */
  lemma FilterSnoc<T>(xs: seq<T>, x: T, keep: T -> bool)
    ensures Filter(xs + [x], keep) == Filter(xs, keep) + (if keep(x) then [x] else [])
  {
    var ys := xs + [x];
    assert ys[..|xs|] == xs;
    var init := FilterKeyed(xs, keep);
    if keep(x) {
      ValuesSnoc(init, Entry(|xs|, x));
    }
  }

  /** Filtering a concatenation filters each part. */
  lemma {:induction false} FilterAppend<T>(xs: seq<T>, ys: seq<T>, keep: T -> bool)
    ensures Filter(xs + ys, keep) == Filter(xs, keep) + Filter(ys, keep)
    decreases |ys|
  {
    if |ys| == 0 {
      assert xs + ys == xs;
      assert FilterKeyed(ys, keep) == [];
    } else {
      var init, y := ys[..|ys| - 1], ys[|ys| - 1];
      assert ys == init + [y];
      assert xs + ys == (xs + init) + [y];
      FilterAppend(xs, init, keep);
      FilterSnoc(xs + init, y, keep);
      FilterSnoc(init, y, keep);
    }
  }

  /** Filtering a list whose every element is kept returns the list itself. */
  lemma {:induction false} FilterAllKept<T>(xs: seq<T>, keep: T -> bool)
    requires forall i :: 0 <= i < |xs| ==> keep(xs[i])
    ensures Filter(xs, keep) == xs
    decreases |xs|
  {
    if |xs| > 0 {
      var last := |xs| - 1;
      FilterAllKept(xs[..last], keep);
      var init := FilterKeyed(xs[..last], keep);
      var e := Entry(last, xs[last]);
      assert FilterKeyed(xs, keep) == init + [e];
      ValuesSnoc(init, e);
      assert xs == xs[..last] + [xs[last]];
    }
  }

  /** The filter is idempotent: filtering its result again changes nothing. */
  lemma FilterIdempotent<T>(xs: seq<T>, keep: T -> bool)
    ensures Filter(Filter(xs, keep), keep) == Filter(xs, keep)
  {
    FilterAllKept(Filter(xs, keep), keep);
  }

  /** `Collection::filter()` without a callback on strings: drops "" and "0"
      and keeps every other element, in order. */
  function FilterTruthy(xs: seq<string>): (r: seq<string>)
    ensures forall k :: 0 <= k < |r| ==> r[k] != "" && r[k] != "0"
    ensures forall x :: x in r <==> x in xs && x != "" && x != "0"
    ensures exists keys ::
      && SubsequenceAt(r, xs, keys)
      && forall i :: 0 <= i < |xs| ==> (i in keys <==> xs[i] != "" && xs[i] != "0")
  {
    FilterSpec(xs, Truthy);
    Filter(xs, Truthy)
  }

  /** Filtering a concatenation for truthy strings filters each part. */
  lemma FilterTruthyAppend(xs: seq<string>, ys: seq<string>)
    ensures FilterTruthy(xs + ys) == FilterTruthy(xs) + FilterTruthy(ys)
  {
    FilterAppend(xs, ys, Truthy);
  }

  /** A single string survives the filter exactly when it is truthy. */
  lemma FilterTruthyOne(x: string)
    ensures FilterTruthy([x]) == if Truthy(x) then [x] else []
  {
    FilterSnoc([], x, Truthy);
    assert [] + [x] == [x];
  }

  // ---------------------------------------------------------------------
  // Collection::unique

  /** The position of the first occurrence of `x` in `xs`. */
  function FirstIndex<T(==)>(xs: seq<T>, x: T): (i: nat)
    requires x in xs
    ensures i < |xs| && xs[i] == x
    ensures forall j :: 0 <= j < i ==> xs[j] != x
    decreases |xs|
  {
    if xs[0] == x then 0 else 1 + FirstIndex(xs[1..], x)
  }

  /** Appending to a list does not move the first occurrence of an element already in it. */
  lemma FirstIndexSnoc<T>(xs: seq<T>, y: T, x: T)
    requires x in xs
    ensures FirstIndex(xs + [y], x) == FirstIndex(xs, x)
  {
    var i := FirstIndex(xs, x);
    var j := FirstIndex(xs + [y], x);
    assert (xs + [y])[i] == x;
  }

  /** `u` holds the distinct elements of `xs`, ordered by first occurrence. */
  ghost predicate IsUniqueOf<T>(u: seq<T>, xs: seq<T>) {
    && (forall k :: 0 <= k < |u| ==> u[k] in xs)
    && (forall i :: 0 <= i < |xs| ==> xs[i] in u)
    && (forall i, j :: 0 <= i < j < |u| ==> u[i] != u[j])
    && (forall i, j :: 0 <= i < j < |u| ==> FirstIndex(xs, u[i]) < FirstIndex(xs, u[j]))
  }

  /** `Collection::unique()`: the distinct elements, each where it first occurs. */
  function Unique<T(==)>(xs: seq<T>): (r: seq<T>)
    ensures IsUniqueOf(r, xs)
    decreases |xs|
  {
    if |xs| == 0 then []
    else
      var last := |xs| - 1;
      var u := Unique(xs[..last]);
      UniqueStep(xs[..last], xs[last], u);
      assert xs[..last] + [xs[last]] == xs;
      if xs[last] in xs[..last] then u else u + [xs[last]]
  }

  /** The inductive step of `Unique`: appending `y` to the list adds it to the
      distinct elements exactly when it is new. */
  lemma UniqueStep<T>(init: seq<T>, y: T, u: seq<T>)
    requires IsUniqueOf(u, init)
    ensures y in init ==> IsUniqueOf(u, init + [y])
    ensures y !in init ==> IsUniqueOf(u + [y], init + [y])
  {
    var xs := init + [y];
    forall i | 0 <= i < |u|
      ensures FirstIndex(xs, u[i]) == FirstIndex(init, u[i])
    {
      FirstIndexSnoc(init, y, u[i]);
    }
    forall i | 0 <= i < |xs|
      ensures xs[i] in u + [y]
    {
      if i < |init| {
        assert xs[i] == init[i];
      }
    }
    if y in init {
      forall i | 0 <= i < |xs|
        ensures xs[i] in u
      {
        if i < |init| {
          assert xs[i] == init[i];
        }
      }
    } else {
      var v := u + [y];
      assert FirstIndex(xs, y) == |init|;
      forall i, j | 0 <= i < j < |v|
        ensures FirstIndex(xs, v[i]) < FirstIndex(xs, v[j])
      {
        if j == |u| {
          assert v[i] == u[i];
        }
      }
    }
  }
}
