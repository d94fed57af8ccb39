/** Table operations the pipeline borrows from pandas, on tables whose rows carry a key:
    column projection, first-occurrence deduplication (`drop_duplicates(subset=[key])`),
    first-match lookup and the left merge (`merge(..., how="left")`). */
module Tables {
  import opened Common

  /** Each row mapped through `f`, in order: selecting and renaming columns. */
  function Project<A, B>(xs: seq<A>, f: A -> B): (r: seq<B>)
    ensures |r| == |xs|
    ensures forall i :: 0 <= i < |xs| ==> r[i] == f(xs[i])
  {
    seq(|xs|, i requires 0 <= i < |xs| => f(xs[i]))
  }

  /** The keys the rows of `xs` carry. */
  function Keys<T, K>(xs: seq<T>, key: T -> K): set<K> {
    set i | 0 <= i < |xs| :: key(xs[i])
  }

  /** No key occurs twice. */
  predicate Unique<T, K(==)>(xs: seq<T>, key: T -> K) {
    forall a, b :: 0 <= a < b < |xs| ==> key(xs[a]) != key(xs[b])
  }

  /** The position of the first row whose key is `k`. */
  function FirstIndex<T, K(==)>(xs: seq<T>, key: T -> K, k: K): (i: nat)
    requires k in Keys(xs, key)
    ensures i < |xs| && key(xs[i]) == k
    ensures forall j :: 0 <= j < i ==> key(xs[j]) != k
  {
    if key(xs[0]) == k then 0
    else
      assert k in Keys(xs[1..], key) by {
        var i :| 0 <= i < |xs| && key(xs[i]) == k;
        assert key(xs[1..][i - 1]) == k;
      }
      1 + FirstIndex(xs[1..], key, k)
  }

  /** The first row whose key is `k`, if there is one, found by scanning from the front. */
  function Find<T, K(==)>(xs: seq<T>, key: T -> K, k: K): (r: Option<T>)
    ensures r.None? <==> k !in Keys(xs, key)
    ensures r.Some? ==> r.value == xs[FirstIndex(xs, key, k)]
  {
    if xs == [] then None
    else if key(xs[0]) == k then Some(xs[0])
    else
      var rest := Find(xs[1..], key, k);
      assert Keys(xs, key) == {key(xs[0])} + Keys(xs[1..], key) by {
        forall x | x in Keys(xs, key) ensures x in {key(xs[0])} + Keys(xs[1..], key) {
          var i :| 0 <= i < |xs| && key(xs[i]) == x;
          if i > 0 { assert key(xs[1..][i - 1]) == x; }
        }
        forall x | x in Keys(xs[1..], key) ensures x in Keys(xs, key) {
          var i :| 0 <= i < |xs[1..]| && key(xs[1..][i]) == x;
          assert key(xs[i + 1]) == x;
        }
      }
      if rest.Some? then
        FirstIndexUnique(xs, key, k, FirstIndex(xs[1..], key, k) + 1);
        rest
      else rest
  }

  /** The first row with key `k` is the only row with key `k` that no earlier row shares its key with. */
  lemma FirstIndexUnique<T, K>(xs: seq<T>, key: T -> K, k: K, i: nat)
    requires i < |xs| && key(xs[i]) == k
    requires forall j :: 0 <= j < i ==> key(xs[j]) != k
    ensures k in Keys(xs, key) && FirstIndex(xs, key, k) == i
  {
  }

  lemma KeysSnoc<T, K>(init: seq<T>, last: T, key: T -> K)
    ensures Keys(init + [last], key) == Keys(init, key) + {key(last)}
  {
    var xs := init + [last];
    forall x | x in Keys(xs, key) ensures x in Keys(init, key) + {key(last)} {
      var i :| 0 <= i < |xs| && key(xs[i]) == x;
      if i < |init| { assert key(init[i]) == x; }
    }
    forall x | x in Keys(init, key) ensures x in Keys(xs, key) {
      var i :| 0 <= i < |init| && key(init[i]) == x;
      assert key(xs[i]) == x;
    }
    assert key(xs[|init|]) == key(last);
  }

  /** Appending a row moves no first occurrence, and a new key first occurs at the appended row. */
  lemma FirstIndexSnoc<T, K>(init: seq<T>, last: T, key: T -> K)
    ensures Keys(init + [last], key) == Keys(init, key) + {key(last)}
    ensures forall k :: k in Keys(init, key) ==> FirstIndex(init + [last], key, k) == FirstIndex(init, key, k)
    ensures key(last) !in Keys(init, key) ==> FirstIndex(init + [last], key, key(last)) == |init|
  {
    KeysSnoc(init, last, key);
    var xs := init + [last];
    forall k | k in Keys(init, key)
      ensures FirstIndex(xs, key, k) == FirstIndex(init, key, k)
    {
      FirstIndexUnique(xs, key, k, FirstIndex(init, key, k));
    }
    if key(last) !in Keys(init, key) {
      forall j | 0 <= j < |init| ensures key(xs[j]) != key(last) {
        assert key(init[j]) in Keys(init, key);
      }
      FirstIndexUnique(xs, key, key(last), |init|);
    }
  }

  /** `drop_duplicates(subset=[key])`: the first row of every key, in the order of the input.
      The result carries every key of the input exactly once; its rows are the first occurrences of
      their keys, and they appear in the order of those occurrences. */
  function DedupBy<T, K(==)>(xs: seq<T>, key: T -> K): (r: seq<T>)
    ensures FirstOccurrences(r, xs, key)
    ensures Unique(r, key)
    ensures |r| <= |xs|
  {
    if xs == [] then []
    else
      var init := xs[..|xs| - 1];
      var last := xs[|xs| - 1];
      assert xs == init + [last];
      var d := DedupBy(init, key);
      if key(last) in Keys(init, key) then
        DedupKeep(d, init, last, key);
        d
      else
        DedupAppend(d, init, last, key);
        d + [last]
  }

  /** `r` holds exactly the keys of `xs`, each row being the first occurrence of its key in `xs`,
      in the order of those occurrences. */
  ghost predicate FirstOccurrences<T, K>(r: seq<T>, xs: seq<T>, key: T -> K) {
    && Keys(r, key) == Keys(xs, key)
    && (forall a :: 0 <= a < |r| ==> key(r[a]) in Keys(xs, key) && r[a] == xs[FirstIndex(xs, key, key(r[a]))])
    && (forall a, b :: 0 <= a < b < |r| ==>
          key(r[a]) in Keys(xs, key) && key(r[b]) in Keys(xs, key) &&
          FirstIndex(xs, key, key(r[a])) < FirstIndex(xs, key, key(r[b])))
  }

  /** A row whose key already occurred adds no first occurrence. */
  lemma DedupKeep<T, K>(d: seq<T>, init: seq<T>, last: T, key: T -> K)
    requires FirstOccurrences(d, init, key) && key(last) in Keys(init, key)
    ensures FirstOccurrences(d, init + [last], key)
  {
    FirstIndexSnoc(init, last, key);
  }

  /** A row with a new key is a first occurrence, later than all others. */
  lemma DedupAppend<T, K>(d: seq<T>, init: seq<T>, last: T, key: T -> K)
    requires FirstOccurrences(d, init, key) && Unique(d, key) && key(last) !in Keys(init, key)
    ensures FirstOccurrences(d + [last], init + [last], key) && Unique(d + [last], key)
  {
    FirstIndexSnoc(init, last, key);
    KeysSnoc(d, last, key);
    var r := d + [last];
    var xs := init + [last];
    forall a | 0 <= a < |d| ensures key(r[a]) != key(last) {
      assert key(d[a]) in Keys(init, key);
    }
  }

  /** Looking a key up after deduplication finds the same row as before it. */
  lemma DedupFind<T, K>(xs: seq<T>, key: T -> K, k: K)
    ensures Find(DedupBy(xs, key), key, k) == Find(xs, key, k)
  {
    var d := DedupBy(xs, key);
    if k in Keys(xs, key) {
      var a := FirstIndex(d, key, k);
      assert d[a] == xs[FirstIndex(xs, key, k)];
    }
  }

  /** In a table without repeated keys, a row is found by its own key. */
  lemma FindUnique<T, K>(xs: seq<T>, key: T -> K, a: nat)
    requires Unique(xs, key) && a < |xs|
    ensures Find(xs, key, key(xs[a])) == Some(xs[a])
  {
    FirstIndexUnique(xs, key, key(xs[a]), a);
  }

  /** Without repeated keys there are as many keys as rows. */
  lemma {:induction false} UniqueKeysCount<T, K>(xs: seq<T>, key: T -> K)
    requires Unique(xs, key)
    ensures |Keys(xs, key)| == |xs|
  {
    if xs != [] {
      var init := xs[..|xs| - 1];
      var last := xs[|xs| - 1];
      assert xs == init + [last];
      UniqueKeysCount(init, key);
      KeysSnoc(init, last, key);
    }
  }

  /** A projection that keeps the key keeps the keys and where each key first occurs. */
  lemma ProjectKeys<A, B, K>(xs: seq<A>, f: A -> B, keyA: A -> K, keyB: B -> K)
    requires forall x :: keyB(f(x)) == keyA(x)
    ensures Keys(Project(xs, f), keyB) == Keys(xs, keyA)
    ensures forall k :: k in Keys(xs, keyA) ==> FirstIndex(Project(xs, f), keyB, k) == FirstIndex(xs, keyA, k)
  {
    var ys := Project(xs, f);
    forall k | k in Keys(ys, keyB) ensures k in Keys(xs, keyA) {
      var i :| 0 <= i < |ys| && keyB(ys[i]) == k;
      assert keyA(xs[i]) == k;
    }
    forall k | k in Keys(xs, keyA) ensures k in Keys(ys, keyB) && FirstIndex(ys, keyB, k) == FirstIndex(xs, keyA, k) {
      var i := FirstIndex(xs, keyA, k);
      FirstIndexUnique(ys, keyB, k, i);
    }
  }

  /** Looking a key up in a key-keeping projection finds the projection of the row found before it. */
  lemma FindProject<A, B, K>(xs: seq<A>, f: A -> B, keyA: A -> K, keyB: B -> K, k: K)
    requires forall x :: keyB(f(x)) == keyA(x)
    ensures Find(Project(xs, f), keyB, k) == if Find(xs, keyA, k).Some? then Some(f(Find(xs, keyA, k).value)) else None
  {
    ProjectKeys(xs, f, keyA, keyB);
  }

  /** `v` is the payload of a row of `right` whose key is `k`. */
  ghost predicate PayloadOf<R, K, V>(right: seq<R>, key: R -> K, val: R -> V, k: K, v: V) {
    exists j :: 0 <= j < |right| && key(right[j]) == k && val(right[j]) == v
  }

  /** A row of a left merge: a left row with the payload of a right row of the same key, or with a
      missing payload when no right row has that key. */
  ghost predicate Joined<L, R, K, V>(row: (L, Option<V>), lkey: L -> K, right: seq<R>, rkey: R -> K, val: R -> V) {
    match row.1
    case None => lkey(row.0) !in Keys(right, rkey)
    case Some(v) => PayloadOf(right, rkey, val, lkey(row.0), v)
  }

  /** The payloads `val` of the rows of `right` whose key is `k`, in the order of `right`. */
  function Matches<R, K(==), V>(right: seq<R>, key: R -> K, val: R -> V, k: K): (r: seq<V>)
    ensures |r| == CountKey(right, key, k) <= |right|
    ensures r == [] <==> k !in Keys(right, key)
    ensures forall i :: 0 <= i < |r| ==> PayloadOf(right, key, val, k, r[i])
  {
    if right == [] then []
    else
      var rest := Matches(right[1..], key, val, k);
      assert right == [right[0]] + right[1..];
      CountKeyCons(right[0], right[1..], key, k);
      assert forall i :: 0 <= i < |rest| ==> PayloadOf(right, key, val, k, rest[i]) by {
        forall i | 0 <= i < |rest| ensures PayloadOf(right, key, val, k, rest[i]) {
          var j :| 0 <= j < |right[1..]| && key(right[1..][j]) == k && val(right[1..][j]) == rest[i];
          assert key(right[j + 1]) == k && val(right[j + 1]) == rest[i];
        }
      }
      assert Keys(right, key) == {key(right[0])} + Keys(right[1..], key) by {
        forall x | x in Keys(right, key) ensures x in {key(right[0])} + Keys(right[1..], key) {
          var i :| 0 <= i < |right| && key(right[i]) == x;
          if i > 0 { assert key(right[1..][i - 1]) == x; }
        }
        forall x | x in Keys(right[1..], key) ensures x in Keys(right, key) {
          var i :| 0 <= i < |right[1..]| && key(right[1..][i]) == x;
          assert key(right[i + 1]) == x;
        }
      }
      (if key(right[0]) == k then [val(right[0])] else []) + rest
  }

  lemma {:induction false} CountKeyCons<T, K>(x: T, xs: seq<T>, key: T -> K, k: K)
    ensures CountKey([x] + xs, key, k) == (if key(x) == k then 1 else 0) + CountKey(xs, key, k)
  {
    if xs == [] {
      assert ([x] + xs)[..0] == [];
    } else {
      var n := |xs| - 1;
      CountKeyCons(x, xs[..n], key, k);
      assert [x] + xs == ([x] + xs[..n]) + [xs[n]];
      assert xs == xs[..n] + [xs[n]];
      CountKeySnoc([x] + xs[..n], xs[n], key, k);
      CountKeySnoc(xs[..n], xs[n], key, k);
    }
  }

  /** Against a table without repeated keys a key matches at most one row: the one `Find` returns. */
  lemma {:induction false} MatchesUnique<R, K, V>(right: seq<R>, key: R -> K, val: R -> V, k: K)
    requires Unique(right, key)
    ensures Matches(right, key, val, k) == if Find(right, key, k).Some? then [val(Find(right, key, k).value)] else []
  {
    if right != [] {
      assert Unique(right[1..], key) by {
        forall a, b | 0 <= a < b < |right[1..]| ensures key(right[1..][a]) != key(right[1..][b]) {
          assert key(right[a + 1]) != key(right[b + 1]);
        }
      }
      MatchesUnique(right[1..], key, val, k);
    }
  }

  /** The merged rows of one left row `x`: one per right row of its key, or one with a missing payload. */
  function JoinRows<L, R, K(==), V>(x: L, lkey: L -> K, right: seq<R>, rkey: R -> K, val: R -> V): (r: seq<(L, Option<V>)>)
    ensures |r| == if CountKey(right, rkey, lkey(x)) == 0 then 1 else CountKey(right, rkey, lkey(x))
    ensures forall i :: 0 <= i < |r| ==> r[i].0 == x && Joined(r[i], lkey, right, rkey, val)
  {
    var m := Matches(right, rkey, val, lkey(x));
    if m == [] then [(x, None)] else seq(|m|, i requires 0 <= i < |m| => (x, Some(m[i])))
  }

  /** The number of rows a left merge yields: for each left row, the number of right rows of its
      key, or one when there is none. */
  function JoinSize<L, R, K(==)>(left: seq<L>, lkey: L -> K, right: seq<R>, rkey: R -> K): nat {
    if left == [] then 0
    else
      var n := CountKey(right, rkey, lkey(left[0]));
      (if n == 0 then 1 else n) + JoinSize(left[1..], lkey, right, rkey)
  }

  /** `left.merge(right, how="left")`: every left row, in order, once per matching right row (in
      right order), or once with a missing payload when no right row matches. */
  function LeftJoin<L, R, K(==), V>(left: seq<L>, lkey: L -> K, right: seq<R>, rkey: R -> K, val: R -> V): (r: seq<(L, Option<V>)>)
    ensures |r| == JoinSize(left, lkey, right, rkey) >= |left|
    ensures forall i :: 0 <= i < |r| ==> r[i].0 in left && Joined(r[i], lkey, right, rkey, val)
  {
    if left == [] then []
    else
      var here := JoinRows(left[0], lkey, right, rkey, val);
      var rest := LeftJoin(left[1..], lkey, right, rkey, val);
      assert forall i :: 0 <= i < |rest| ==> rest[i].0 in left by {
        forall i | 0 <= i < |rest| ensures rest[i].0 in left {
          assert rest[i].0 in left[1..];
        }
      }
      here + rest
  }

  /** The payload of the first right row with key `k`. */
  function Lookup<R, K(==), V>(right: seq<R>, key: R -> K, val: R -> V, k: K): (r: Option<V>)
    ensures r.Some? <==> k in Keys(right, key)
  {
    match Find(right, key, k)
    case None => None
    case Some(row) => Some(val(row))
  }

  lemma LeftJoinHead<L, R, K, V>(left: seq<L>, lkey: L -> K, right: seq<R>, rkey: R -> K, val: R -> V)
    requires Unique(right, rkey) && left != []
    ensures LeftJoin(left, lkey, right, rkey, val)
      == [(left[0], Lookup(right, rkey, val, lkey(left[0])))] + LeftJoin(left[1..], lkey, right, rkey, val)
  {
    MatchesUnique(right, rkey, val, lkey(left[0]));
    assert JoinRows(left[0], lkey, right, rkey, val) == [(left[0], Lookup(right, rkey, val, lkey(left[0])))];
  }

  /** Against a right table without repeated keys, the left merge is one row per left row, in order,
      carrying the payload of the matching right row or a missing one. */
  lemma {:induction false} LeftJoinUnique<L, R, K, V>(left: seq<L>, lkey: L -> K, right: seq<R>, rkey: R -> K, val: R -> V)
    requires Unique(right, rkey)
    ensures |LeftJoin(left, lkey, right, rkey, val)| == |left|
    ensures forall i :: 0 <= i < |left| ==>
      LeftJoin(left, lkey, right, rkey, val)[i] == (left[i], Lookup(right, rkey, val, lkey(left[i])))
  {
    if left != [] {
      LeftJoinHead(left, lkey, right, rkey, val);
      LeftJoinUnique(left[1..], lkey, right, rkey, val);
      var r := LeftJoin(left, lkey, right, rkey, val);
      var rest := LeftJoin(left[1..], lkey, right, rkey, val);
      forall i | 0 <= i < |left| ensures r[i] == (left[i], Lookup(right, rkey, val, lkey(left[i]))) {
        if i > 0 {
          assert r[i] == rest[i - 1];
          assert left[1..][i - 1] == left[i];
        }
      }
    }
  }

  /** One left row yields one merged row per right row of its key, in right order, or a single row
      with a missing payload when there is none: repeated right keys multiply the left row. */
  lemma LeftJoinRow<L, R, K, V>(x: L, lkey: L -> K, right: seq<R>, rkey: R -> K, val: R -> V)
    ensures var r := LeftJoin([x], lkey, right, rkey, val);
      var m := Matches(right, rkey, val, lkey(x));
      && |r| == (if CountKey(right, rkey, lkey(x)) == 0 then 1 else CountKey(right, rkey, lkey(x)))
      && (m == [] ==> r == [(x, None)])
      && forall i :: 0 <= i < |m| ==> r[i] == (x, Some(m[i]))
  {
    assert [x][1..] == [];
    assert LeftJoin([x], lkey, right, rkey, val) == JoinRows(x, lkey, right, rkey, val) + [];
  }

  /** The number of rows whose key is `k`. */
  function CountKey<T, K(==)>(xs: seq<T>, key: T -> K, k: K): nat {
    if xs == [] then 0
    else CountKey(xs[..|xs| - 1], key, k) + (if key(xs[|xs| - 1]) == k then 1 else 0)
  }

  lemma CountKeySnoc<T, K>(xs: seq<T>, x: T, key: T -> K, k: K)
    ensures CountKey(xs + [x], key, k) == CountKey(xs, key, k) + (if key(x) == k then 1 else 0)
  {
    assert (xs + [x])[..|xs|] == xs;
  }

  /** The number of rows whose key satisfies `sel`. */
  function CountSel<T, K>(xs: seq<T>, key: T -> K, sel: K -> bool): nat {
    if xs == [] then 0
    else CountSel(xs[..|xs| - 1], key, sel) + (if sel(key(xs[|xs| - 1])) then 1 else 0)
  }

  lemma CountSelSnoc<T, K>(xs: seq<T>, x: T, key: T -> K, sel: K -> bool)
    ensures CountSel(xs + [x], key, sel) == CountSel(xs, key, sel) + (if sel(key(x)) then 1 else 0)
  {
    assert (xs + [x])[..|xs|] == xs;
  }

  /** Over the group rows `groups` whose key satisfies `sel`, the sum of the number of rows of `xs`
      that carry that key: a group-by `size()` followed by a `sum()` over selected groups. */
  function SumCounts<G, T, K(==)>(groups: seq<G>, gkey: G -> K, xs: seq<T>, key: T -> K, sel: K -> bool): nat {
    if groups == [] then 0
    else
      var k := gkey(groups[|groups| - 1]);
      SumCounts(groups[..|groups| - 1], gkey, xs, key, sel) + (if sel(k) then CountKey(xs, key, k) else 0)
  }

  lemma {:induction false} CountKeyUnique<T, K>(xs: seq<T>, key: T -> K, k: K)
    requires Unique(xs, key)
    ensures CountKey(xs, key, k) == if k in Keys(xs, key) then 1 else 0
  {
    if xs != [] {
      var init := xs[..|xs| - 1];
      var last := xs[|xs| - 1];
      assert xs == init + [last];
      assert Unique(init, key);
      CountKeyUnique(init, key, k);
      KeysSnoc(init, last, key);
      forall i | 0 <= i < |init|
        ensures key(init[i]) != key(last)
      {
        assert key(xs[i]) != key(xs[|xs| - 1]);
      }
    }
  }

  lemma {:induction false} SumCountsEmpty<G, T, K>(groups: seq<G>, gkey: G -> K, key: T -> K, sel: K -> bool)
    ensures SumCounts(groups, gkey, [], key, sel) == 0
  {
    if groups != [] {
      SumCountsEmpty(groups[..|groups| - 1], gkey, key, sel);
    }
  }

  /** One more row adds one to the sum once for every selected group row that carries its key. */
  lemma {:induction false} SumCountsSnoc<G, T, K>(groups: seq<G>, gkey: G -> K, xs: seq<T>, x: T, key: T -> K, sel: K -> bool)
    ensures SumCounts(groups, gkey, xs + [x], key, sel)
      == SumCounts(groups, gkey, xs, key, sel) + (if sel(key(x)) then CountKey(groups, gkey, key(x)) else 0)
  {
    assert (xs + [x])[..|xs + [x]| - 1] == xs;
    if groups != [] {
      SumCountsSnoc(groups[..|groups| - 1], gkey, xs, x, key, sel);
    }
  }

  /** Partition: when the groups carry every key of `xs` once, summing the group sizes over the
      selected groups counts each selected row of `xs` exactly once. */
  lemma {:induction false} SumCountsPartition<G, T, K>(groups: seq<G>, gkey: G -> K, xs: seq<T>, key: T -> K, sel: K -> bool)
    requires Unique(groups, gkey) && Keys(xs, key) <= Keys(groups, gkey)
    ensures SumCounts(groups, gkey, xs, key, sel) == CountSel(xs, key, sel)
  {
    if xs == [] {
      SumCountsEmpty(groups, gkey, key, sel);
    } else {
      var init := xs[..|xs| - 1];
      var last := xs[|xs| - 1];
      assert xs == init + [last];
      KeysSnoc(init, last, key);
      SumCountsPartition(groups, gkey, init, key, sel);
      SumCountsSnoc(groups, gkey, init, last, key, sel);
      CountKeyUnique(groups, gkey, key(last));
    }
  }

  /** Selecting the key of every row counts every row. */
  lemma {:induction false} CountSelAll<T, K>(xs: seq<T>, key: T -> K, sel: K -> bool)
    requires forall i :: 0 <= i < |xs| ==> sel(key(xs[i]))
    ensures CountSel(xs, key, sel) == |xs|
  {
    if xs != [] {
      CountSelAll(xs[..|xs| - 1], key, sel);
    }
  }

  /** A table has at most as many distinct keys as rows. */
  lemma {:induction false} KeysBound<T, K>(xs: seq<T>, key: T -> K)
    ensures |Keys(xs, key)| <= |xs|
  {
    if xs != [] {
      var init := xs[..|xs| - 1];
      assert xs == init + [xs[|xs| - 1]];
      KeysSnoc(init, xs[|xs| - 1], key);
      KeysBound(init, key);
    }
  }

  /** Conversely, as many distinct keys as rows means no key repeats. */
  lemma KeysCountUnique<T, K>(xs: seq<T>, key: T -> K)
    requires |Keys(xs, key)| == |xs|
    ensures Unique(xs, key)
  {
    if !Unique(xs, key) {
      var a, b :| 0 <= a < b < |xs| && key(xs[a]) == key(xs[b]);
      var rest := xs[..b] + xs[b + 1..];
      assert Keys(rest, key) == Keys(xs, key) by {
        forall k | k in Keys(xs, key) ensures k in Keys(rest, key) {
          var i :| 0 <= i < |xs| && key(xs[i]) == k;
          if i < b {
            assert rest[i] == xs[i];
          } else if i == b {
            assert rest[a] == xs[a];
          } else {
            assert rest[i - 1] == xs[i];
          }
        }
        forall k | k in Keys(rest, key) ensures k in Keys(xs, key) {
          var i :| 0 <= i < |rest| && key(rest[i]) == k;
          if i < b {
            assert rest[i] == xs[i];
          } else {
            assert rest[i] == xs[i + 1];
          }
        }
      }
      KeysBound(rest, key);
    }
  }

  /** Reordering rows keeps the set of keys and the number of rows. */
  lemma PermutationKeys<T, K>(xs: seq<T>, ys: seq<T>, key: T -> K)
    requires multiset(xs) == multiset(ys)
    ensures |xs| == |ys| && Keys(xs, key) == Keys(ys, key)
  {
    assert |xs| == |multiset(xs)| == |multiset(ys)| == |ys|;
    forall k | k in Keys(xs, key) ensures k in Keys(ys, key) {
      var i :| 0 <= i < |xs| && key(xs[i]) == k;
      assert xs[i] in multiset(ys);
      var j :| 0 <= j < |ys| && ys[j] == xs[i];
    }
    forall k | k in Keys(ys, key) ensures k in Keys(xs, key) {
      var j :| 0 <= j < |ys| && key(ys[j]) == k;
      assert ys[j] in multiset(xs);
      var i :| 0 <= i < |xs| && xs[i] == ys[j];
    }
  }

  /** Reordering rows keeps keys unique. */
  lemma PermutationUnique<T, K>(xs: seq<T>, ys: seq<T>, key: T -> K)
    requires multiset(xs) == multiset(ys) && Unique(xs, key)
    ensures Unique(ys, key)
  {
    PermutationKeys(xs, ys, key);
    UniqueKeysCount(xs, key);
    KeysCountUnique(ys, key);
  }

  /** Two tables whose rows carry the same keys position by position have the same keys, and the
      second repeats none when the first does not. */
  lemma KeysAligned<A, B, K>(xs: seq<A>, keyA: A -> K, ys: seq<B>, keyB: B -> K)
    requires |xs| == |ys| && forall i :: 0 <= i < |xs| ==> keyB(ys[i]) == keyA(xs[i])
    ensures Keys(ys, keyB) == Keys(xs, keyA)
    ensures Unique(xs, keyA) ==> Unique(ys, keyB)
  {
    forall k | k in Keys(ys, keyB) ensures k in Keys(xs, keyA) {
      var i :| 0 <= i < |ys| && keyB(ys[i]) == k;
      assert keyA(xs[i]) == k;
    }
    forall k | k in Keys(xs, keyA) ensures k in Keys(ys, keyB) {
      var i :| 0 <= i < |xs| && keyA(xs[i]) == k;
      assert keyB(ys[i]) == k;
    }
  }

  /** A key that is present occurs at least once. */
  lemma {:induction false} CountKeyPositive<T, K>(xs: seq<T>, key: T -> K, k: K)
    requires k in Keys(xs, key)
    ensures CountKey(xs, key, k) >= 1
  {
    var init := xs[..|xs| - 1];
    assert xs == init + [xs[|xs| - 1]];
    KeysSnoc(init, xs[|xs| - 1], key);
    if key(xs[|xs| - 1]) != k {
      CountKeyPositive(init, key, k);
    }
  }

  /** The rows of one selected key are among the selected rows. */
  lemma {:induction false} CountKeyAtMostSel<T, K>(xs: seq<T>, key: T -> K, sel: K -> bool, k: K)
    requires sel(k)
    ensures CountKey(xs, key, k) <= CountSel(xs, key, sel)
  {
    if xs != [] {
      CountKeyAtMostSel(xs[..|xs| - 1], key, sel, k);
    }
  }
}
