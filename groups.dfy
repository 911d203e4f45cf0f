/**
 * The d3-array helpers the commit pipeline relies on, written as recursive
 * functions with the behaviour d3 documents for them:
 *  - `d3.groups(values, key)` walks the values once and keeps an insertion-ordered
 *    map from key to the rows seen so far (GroupBy, Insert, IndexOfKey);
 *  - `d3.rollups(values, reduce, key)` reduces each of those groups (Rollup, with
 *    `v => v.length` as the reduction);
 *  - `d3.greatest(values, accessor)` walks the values once and replaces its
 *    candidate only on a strictly greater value (GreatestAt).
 * GroupBy is proved against an independent description of a grouping
 * (IsGrouping): the rows with each key, in first-appearance order of the keys.
 */
module Groups {
  import opened Wrappers

  /** One entry of `d3.groups`: a key and the rows that carry it, in input order. */
  datatype Group<K, T> = Group(key: K, rows: seq<T>)

  /** Position of the group with key `k`, or `|gs|` when there is none (the map lookup). */
  function IndexOfKey<K(==), T>(gs: seq<Group<K, T>>, k: K): (i: nat)
    ensures i <= |gs|
    ensures i < |gs| ==> gs[i].key == k
    ensures forall j :: 0 <= j < i ==> gs[j].key != k
  {
    if gs == [] then 0
    else if gs[0].key == k then 0
    else 1 + IndexOfKey(gs[1..], k)
  }

  /** Adds row `x` with key `k`: appended to its key's group, or a new group at the end. */
  function Insert<K(==), T>(gs: seq<Group<K, T>>, k: K, x: T): (r: seq<Group<K, T>>)
  {
    var i := IndexOfKey(gs, k);
    if i < |gs| then gs[i := Group(k, gs[i].rows + [x])]
    else gs + [Group(k, [x])]
  }

  /** `d3.groups(xs, key)`: one pass over the rows, left to right. */
  function GroupBy<T, K(==)>(xs: seq<T>, key: T -> K): (gs: seq<Group<K, T>>)
    ensures |gs| <= |xs|
    ensures gs == [] <==> xs == []
    ensures forall i :: 0 <= i < |gs| ==> gs[i].rows != []
  {
    if xs == [] then []
    else Insert(GroupBy(xs[..|xs| - 1], key), key(xs[|xs| - 1]), xs[|xs| - 1])
  }

  /** The rows of `xs` whose key is `k`, in input order. */
  function Matching<T, K(==)>(xs: seq<T>, key: T -> K, k: K): (m: seq<T>)
    ensures |m| <= |xs|
    ensures forall i :: 0 <= i < |m| ==> key(m[i]) == k
  {
    if xs == [] then []
    else Matching(xs[..|xs| - 1], key, k) + (if key(xs[|xs| - 1]) == k then [xs[|xs| - 1]] else [])
  }

  /** How many rows of `xs` have key `k`. */
  function Count<T, K(==)>(xs: seq<T>, key: T -> K, k: K): nat
  {
    |Matching(xs, key, k)|
  }

  /** Position of the first row with key `k`, or `|xs|` when no row has it. */
  function FirstIndex<T, K(==)>(xs: seq<T>, key: T -> K, k: K): (p: nat)
    ensures p <= |xs|
    ensures p < |xs| ==> key(xs[p]) == k
    ensures forall q :: 0 <= q < p ==> key(xs[q]) != k
  {
    if xs == [] then 0
    else if key(xs[0]) == k then 0
    else 1 + FirstIndex(xs[1..], key, k)
  }

  /** The distinct keys of the rows. */
  function KeySet<T, K(==)>(xs: seq<T>, key: T -> K): set<K>
  {
    set i | 0 <= i < |xs| :: key(xs[i])
  }

  ghost predicate DistinctKeys<K, T>(gs: seq<Group<K, T>>)
  {
    forall i, j :: 0 <= i < j < |gs| ==> gs[i].key != gs[j].key
  }

  /** Each group holds exactly the rows with its key, in input order. */
  ghost predicate GroupsMatch<T, K>(xs: seq<T>, key: T -> K, gs: seq<Group<K, T>>)
  {
    forall i :: 0 <= i < |gs| ==> gs[i].rows == Matching(xs, key, gs[i].key)
  }

  /** Every group's key occurs, and groups come in first-occurrence order of their keys. */
  ghost predicate FirstAppearanceOrder<T, K>(xs: seq<T>, key: T -> K, gs: seq<Group<K, T>>)
  {
    && (forall i :: 0 <= i < |gs| ==> FirstIndex(xs, key, gs[i].key) < |xs|)
    && (forall i, j :: 0 <= i < j < |gs| ==>
          FirstIndex(xs, key, gs[i].key) < FirstIndex(xs, key, gs[j].key))
  }

  /** Every row's key has a group. */
  ghost predicate CoversRows<T, K>(xs: seq<T>, key: T -> K, gs: seq<Group<K, T>>)
  {
    forall p :: 0 <= p < |xs| ==> IndexOfKey(gs, key(xs[p])) < |gs|
  }

  /** `gs` groups `xs` by `key`, as `d3.groups` documents it. */
  ghost predicate IsGrouping<T, K>(xs: seq<T>, key: T -> K, gs: seq<Group<K, T>>)
  {
    GroupsMatch(xs, key, gs) && FirstAppearanceOrder(xs, key, gs) && CoversRows(xs, key, gs)
  }

  /** Total number of rows held by the groups. */
  function TotalSize<K, T>(gs: seq<Group<K, T>>): nat
  {
    if gs == [] then 0 else |gs[0].rows| + TotalSize(gs[1..])
  }

  lemma FirstIndexAppend<T, K>(xs: seq<T>, x: T, key: T -> K, k: K)
    ensures FirstIndex(xs, key, k) < |xs| ==> FirstIndex(xs + [x], key, k) == FirstIndex(xs, key, k)
    ensures FirstIndex(xs, key, k) == |xs| && key(x) == k ==> FirstIndex(xs + [x], key, k) == |xs|
  {
    var a := FirstIndex(xs, key, k);
    if a < |xs| {
      assert (xs + [x])[a] == xs[a];
    } else if key(x) == k {
      assert (xs + [x])[|xs|] == x;
    }
  }

  /** A key that never occurs matches no row. */
  lemma {:induction false} MatchingAbsent<T, K>(xs: seq<T>, key: T -> K, k: K)
    requires FirstIndex(xs, key, k) == |xs|
    ensures Matching(xs, key, k) == []
  {
    if xs != [] {
      var init := xs[..|xs| - 1];
      assert forall q :: 0 <= q < |init| ==> init[q] == xs[q];
      MatchingAbsent(init, key, k);
    }
  }

  /** The first row with key `k` heads the rows matching `k`. */
  lemma {:induction false} MatchingHead<T, K>(xs: seq<T>, key: T -> K, k: K)
    requires FirstIndex(xs, key, k) < |xs|
    ensures Matching(xs, key, k) != []
    ensures Matching(xs, key, k)[0] == xs[FirstIndex(xs, key, k)]
  {
    var init, x := xs[..|xs| - 1], xs[|xs| - 1];
    assert xs == init + [x];
    FirstIndexAppend(init, x, key, k);
    if FirstIndex(init, key, k) < |init| {
      MatchingHead(init, key, k);
    } else {
      MatchingAbsent(init, key, k);
    }
  }

  /** Some row has key `k` exactly when some row matches it. */
  lemma CountPositive<T, K>(xs: seq<T>, key: T -> K, k: K)
    ensures Count(xs, key, k) > 0 <==> FirstIndex(xs, key, k) < |xs|
  {
    if FirstIndex(xs, key, k) < |xs| {
      MatchingHead(xs, key, k);
    } else {
      MatchingAbsent(xs, key, k);
    }
  }

  /** Appending a row changes only the rows matching its own key. */
  lemma MatchingAppend<T, K>(xs: seq<T>, x: T, key: T -> K, k: K)
    ensures Matching(xs + [x], key, k) == Matching(xs, key, k) + (if key(x) == k then [x] else [])
  {
    assert (xs + [x])[..|xs|] == xs;
  }

  /** After `Insert`, the groups keep their keys and the row's key has a group. */
  lemma InsertKeys<K, T>(gs: seq<Group<K, T>>, k: K, x: T)
    ensures var hs := Insert(gs, k, x);
      && |gs| <= |hs| <= |gs| + 1
      && (forall j :: 0 <= j < |gs| ==> hs[j].key == gs[j].key)
      && (|hs| == |gs| + 1 ==> IndexOfKey(gs, k) == |gs| && hs[|gs|].key == k)
      && IndexOfKey(hs, k) < |hs|
  {
    var i0 := IndexOfKey(gs, k);
    var hs := Insert(gs, k, x);
    if i0 < |gs| {
      assert hs[i0].key == k;
    } else {
      assert hs[|gs|].key == k;
    }
  }

  lemma GroupStepMatch<T, K>(xs: seq<T>, x: T, key: T -> K, gs: seq<Group<K, T>>)
    requires GroupsMatch(xs, key, gs) && FirstAppearanceOrder(xs, key, gs) && CoversRows(xs, key, gs)
    ensures GroupsMatch(xs + [x], key, Insert(gs, key(x), x))
  {
    var k, i0 := key(x), IndexOfKey(gs, key(x));
    var ys, hs := xs + [x], Insert(gs, key(x), x);
    forall j | 0 <= j < |gs| ensures hs[j].rows == Matching(ys, key, hs[j].key) {
      MatchingAppend(xs, x, key, gs[j].key);
    }
    if i0 == |gs| {
      forall p | 0 <= p < |xs| ensures key(xs[p]) != k {
        var j := IndexOfKey(gs, key(xs[p]));
        assert gs[j].key == key(xs[p]);
      }
      MatchingAbsent(xs, key, k);
      MatchingAppend(xs, x, key, k);
    }
  }

  lemma GroupStepOrder<T, K>(xs: seq<T>, x: T, key: T -> K, gs: seq<Group<K, T>>)
    requires FirstAppearanceOrder(xs, key, gs) && CoversRows(xs, key, gs)
    ensures FirstAppearanceOrder(xs + [x], key, Insert(gs, key(x), x))
  {
    var k, i0 := key(x), IndexOfKey(gs, key(x));
    var ys, hs := xs + [x], Insert(gs, key(x), x);
    InsertKeys(gs, k, x);
    forall j | 0 <= j < |gs| ensures FirstIndex(ys, key, hs[j].key) == FirstIndex(xs, key, gs[j].key) {
      FirstIndexAppend(xs, x, key, gs[j].key);
    }
    if i0 == |gs| {
      forall p | 0 <= p < |xs| ensures key(xs[p]) != k {
        var j := IndexOfKey(gs, key(xs[p]));
        assert gs[j].key == key(xs[p]);
      }
      FirstIndexAppend(xs, x, key, k);
    }
  }

  lemma GroupStepCovers<T, K>(xs: seq<T>, x: T, key: T -> K, gs: seq<Group<K, T>>)
    requires CoversRows(xs, key, gs)
    ensures CoversRows(xs + [x], key, Insert(gs, key(x), x))
  {
    var ys, hs := xs + [x], Insert(gs, key(x), x);
    InsertKeys(gs, key(x), x);
    forall p | 0 <= p < |ys| ensures IndexOfKey(hs, key(ys[p])) < |hs| {
      if p < |xs| {
        var j := IndexOfKey(gs, key(xs[p]));
        assert hs[j].key == key(ys[p]);
      }
    }
  }

  /** Strictly ordered first occurrences make the keys distinct. */
  lemma GroupingDistinct<T, K>(xs: seq<T>, key: T -> K, gs: seq<Group<K, T>>)
    requires IsGrouping(xs, key, gs)
    ensures DistinctKeys(gs)
  {
  }

  /** `d3.groups` meets the description of a grouping. */
  lemma {:induction false} GroupByCorrect<T, K>(xs: seq<T>, key: T -> K)
    ensures IsGrouping(xs, key, GroupBy(xs, key))
    ensures DistinctKeys(GroupBy(xs, key))
  {
    if xs != [] {
      var init, x := xs[..|xs| - 1], xs[|xs| - 1];
      assert xs == init + [x];
      GroupByCorrect(init, key);
      var gs0 := GroupBy(init, key);
      GroupStepMatch(init, x, key, gs0);
      GroupStepOrder(init, x, key, gs0);
      GroupStepCovers(init, x, key, gs0);
    }
    GroupingDistinct(xs, key, GroupBy(xs, key));
  }

  lemma {:induction false} TotalSizeAppend<K, T>(gs: seq<Group<K, T>>, g: Group<K, T>)
    ensures TotalSize(gs + [g]) == TotalSize(gs) + |g.rows|
  {
    if gs != [] {
      assert (gs + [g])[1..] == gs[1..] + [g];
      TotalSizeAppend(gs[1..], g);
    }
  }

  lemma {:induction false} TotalSizeUpdate<K, T>(gs: seq<Group<K, T>>, i: nat, g: Group<K, T>)
    requires i < |gs|
    ensures TotalSize(gs[i := g]) + |gs[i].rows| == TotalSize(gs) + |g.rows|
  {
    if i > 0 {
      assert gs[i := g][1..] == gs[1..][i - 1 := g];
      TotalSizeUpdate(gs[1..], i - 1, g);
    }
  }

  /** Grouping neither loses nor duplicates a row. */
  lemma {:induction false} GroupBySize<T, K>(xs: seq<T>, key: T -> K)
    ensures TotalSize(GroupBy(xs, key)) == |xs|
  {
    if xs != [] {
      var init, x := xs[..|xs| - 1], xs[|xs| - 1];
      GroupBySize(init, key);
      var gs0 := GroupBy(init, key);
      var i0 := IndexOfKey(gs0, key(x));
      if i0 < |gs0| {
        TotalSizeUpdate(gs0, i0, Group(key(x), gs0[i0].rows + [x]));
      } else {
        TotalSizeAppend(gs0, Group(key(x), [x]));
      }
    }
  }

  /** The keys of groups with distinct keys number as many as the groups. */
  lemma {:induction false} DistinctKeysCard<K, T>(gs: seq<Group<K, T>>)
    requires DistinctKeys(gs)
    ensures |set j | 0 <= j < |gs| :: gs[j].key| == |gs|
  {
    if gs != [] {
      var init := gs[..|gs| - 1];
      var last := gs[|gs| - 1].key;
      DistinctKeysCard(init);
      var a := set j | 0 <= j < |init| :: init[j].key;
      var b := set j | 0 <= j < |gs| :: gs[j].key;
      assert b == a + {last} by {
        forall k | k in b ensures k in a + {last} {
          var j :| 0 <= j < |gs| && gs[j].key == k;
          if j < |init| { assert init[j].key == k; }
        }
        forall k | k in a ensures k in b {
          var j :| 0 <= j < |init| && init[j].key == k;
          assert gs[j].key == k;
        }
      }
      assert last !in a;
    }
  }

  /** `d3.group(xs, key).size` is the number of distinct keys. */
  lemma GroupByCountsKeys<T, K>(xs: seq<T>, key: T -> K)
    ensures |GroupBy(xs, key)| == |KeySet(xs, key)|
  {
    var gs := GroupBy(xs, key);
    GroupByCorrect(xs, key);
    DistinctKeysCard(gs);
    var g := set j | 0 <= j < |gs| :: gs[j].key;
    assert KeySet(xs, key) == g by {
      forall k | k in KeySet(xs, key) ensures k in g {
        var p :| 0 <= p < |xs| && key(xs[p]) == k;
        assert gs[IndexOfKey(gs, k)].key == k;
      }
      forall k | k in g ensures k in KeySet(xs, key) {
        var j :| 0 <= j < |gs| && gs[j].key == k;
        var p := FirstIndex(xs, key, k);
        assert key(xs[p]) == k;
      }
    }
  }

  /** `d3.rollups(xs, v => v.length, key)`: each key with the number of its rows. */
  function Rollup<T, K(==)>(xs: seq<T>, key: T -> K): (r: seq<(K, nat)>)
    ensures |r| == |GroupBy(xs, key)|
    ensures forall i :: 0 <= i < |r| ==> r[i].0 == GroupBy(xs, key)[i].key
    ensures forall i :: 0 <= i < |r| ==> r[i].1 == Count(xs, key, r[i].0) > 0
  {
    var gs := GroupBy(xs, key);
    GroupByCorrect(xs, key);
    seq(|gs|, i requires 0 <= i < |gs| => (gs[i].key, |gs[i].rows|))
  }

  /**
   * `d3.greatest(s, f)`, as an index: the candidate is replaced only by a
   * strictly greater value, so the first maximal element wins.
   */
  function GreatestAt<E>(s: seq<E>, f: E -> int): (r: Option<nat>)
    ensures r.None? <==> s == []
    ensures r.Some? ==> r.value < |s|
    ensures r.Some? ==> forall j :: 0 <= j < |s| ==> f(s[j]) <= f(s[r.value])
    ensures r.Some? ==> forall j :: 0 <= j < r.value ==> f(s[j]) < f(s[r.value])
  {
    if s == [] then None
    else
      match GreatestAt(s[..|s| - 1], f)
      case None => Some(|s| - 1)
      case Some(m) => if f(s[|s| - 1]) > f(s[m]) then Some(|s| - 1) else Some(m)
  }
}
