/** Row-level operations of a pandas frame, as used throughout the matcher.
    A frame is a sequence of rows; a column is read through a function from
    a row to a value. */
module Frames {
  import opened Common

  /** Boolean-mask selection `df[mask]`: the rows that pass, in order. */
  function Filter<T>(rows: seq<T>, p: T -> bool): (r: seq<T>)
    ensures |r| <= |rows|
    ensures forall i :: 0 <= i < |r| ==> p(r[i])
    decreases |rows|
  {
    if rows == [] then []
    else
      var rest := Filter(rows[1..], p);
      if p(rows[0]) then [rows[0]] + rest else rest
  }

  /** A selection keeps a sub-multiset of the rows. */
  lemma {:induction false} FilterSubMultiset<T>(rows: seq<T>, p: T -> bool)
    ensures multiset(Filter(rows, p)) <= multiset(rows)
    decreases |rows|
  {
    if rows != [] {
      FilterSubMultiset(rows[1..], p);
      assert rows == [rows[0]] + rows[1..];
    }
  }

  lemma {:induction false} FilterMembership<T>(rows: seq<T>, p: T -> bool, x: T)
    ensures x in Filter(rows, p) <==> x in rows && p(x)
    decreases |rows|
  {
    if rows != [] {
      FilterMembership(rows[1..], p, x);
      assert rows == [rows[0]] + rows[1..];
    }
  }

  /** Two masks applied one after the other select, in order, the rows
      their conjunction selects. */
  lemma {:induction false} FilterFilter<T>(rows: seq<T>, p: T -> bool, q: T -> bool, pq: T -> bool)
    requires forall x :: pq(x) == (p(x) && q(x))
    ensures Filter(Filter(rows, p), q) == Filter(rows, pq)
    decreases |rows|
  {
    if rows != [] {
      FilterFilter(rows[1..], p, q, pq);
      if p(rows[0]) {
        var f := Filter(rows, p);
        assert f == [rows[0]] + Filter(rows[1..], p);
        assert f[1..] == Filter(rows[1..], p);
      }
    }
  }

  /** Selecting from a computed column selects the computed rows of the
      rows whose computed value passes. */
  lemma {:induction false} FilterMap<T, U>(rows: seq<T>, f: T -> U, q: U -> bool, qf: T -> bool)
    requires forall x :: qf(x) == q(f(x))
    ensures Filter(Map(rows, f), q) == Map(Filter(rows, qf), f)
    decreases |rows|
  {
    if rows != [] {
      FilterMap(rows[1..], f, q, qf);
      var m := Map(rows, f);
      assert m[1..] == Map(rows[1..], f);
      if qf(rows[0]) {
        var kept := Filter(rows[1..], qf);
        assert Filter(rows, qf) == [rows[0]] + kept;
        assert Map([rows[0]] + kept, f) == [f(rows[0])] + Map(kept, f);
      }
    }
  }

  lemma FilterMembershipAll<T>(rows: seq<T>, p: T -> bool)
    ensures forall x :: x in Filter(rows, p) <==> x in rows && p(x)
  {
    forall x ensures x in Filter(rows, p) <==> x in rows && p(x) {
      FilterMembership(rows, p, x);
    }
  }

  /** Some row of `rows` has key `k`. */
  predicate HasKey<T, K(==,!new)>(rows: seq<T>, key: T -> K, k: K) {
    exists i :: 0 <= i < |rows| && key(rows[i]) == k
  }

  /** No two rows share a key. */
  predicate UniqueKeys<T, K(==,!new)>(rows: seq<T>, key: T -> K) {
    forall i, j :: 0 <= i < j < |rows| ==> key(rows[i]) != key(rows[j])
  }

  /** The number of rows with key `k`. */
  function CountKey<T, K(==,!new)>(rows: seq<T>, key: T -> K, k: K): (n: nat)
    ensures n <= |rows|
    ensures n > 0 <==> HasKey(rows, key, k)
  {
    if rows == [] then 0
    else
      var n := CountKey(rows[..|rows| - 1], key, k);
      assert forall i :: 0 <= i < |rows| - 1 ==> rows[..|rows| - 1][i] == rows[i];
      n + (if key(rows[|rows| - 1]) == k then 1 else 0)
  }

  /** The first row with key `k`. */
  function FirstWithKey<T, K(==,!new)>(rows: seq<T>, key: T -> K, k: K): (x: T)
    requires HasKey(rows, key, k)
    ensures key(x) == k
    ensures exists i :: 0 <= i < |rows| && rows[i] == x && forall j :: 0 <= j < i ==> key(rows[j]) != k
  {
    if key(rows[0]) == k then rows[0]
    else
      assert HasKey(rows[1..], key, k) by {
        var i :| 0 <= i < |rows| && key(rows[i]) == k;
        assert rows[1..][i - 1] == rows[i];
      }
      var x := FirstWithKey(rows[1..], key, k);
      ghost var i :| 0 <= i < |rows[1..]| && rows[1..][i] == x && forall j :: 0 <= j < i ==> key(rows[1..][j]) != k;
      assert rows[i + 1] == x;
      assert forall j :: 0 <= j < i + 1 ==> key(rows[j]) != k by {
        forall j | 0 <= j < i + 1 ensures key(rows[j]) != k {
          if j > 0 { assert rows[j] == rows[1..][j - 1]; }
        }
      }
      x
  }

  /** The properties `drop_duplicates(subset=key, keep='first')` promises of `r`. */
  ghost predicate IsFirstPerKey<T, K(!new)>(rows: seq<T>, key: T -> K, r: seq<T>) {
    UniqueKeys(r, key)
    && (forall i :: 0 <= i < |r| ==> HasKey(rows, key, key(r[i])) && r[i] == FirstWithKey(rows, key, key(r[i])))
    && (forall k :: HasKey(rows, key, k) ==> HasKey(r, key, k))
    && |r| <= |rows|
  }

  /** `drop_duplicates(subset=key, keep='first')`: the first row of every key, in order. */
  function FirstPerKey<T, K(==,!new)>(rows: seq<T>, key: T -> K): (r: seq<T>)
    ensures IsFirstPerKey(rows, key, r)
  {
    if rows == [] then []
    else
      var init := rows[..|rows| - 1];
      var p := FirstPerKey(init, key);
      var r := if HasKey(init, key, key(rows[|rows| - 1])) then p else p + [rows[|rows| - 1]];
      FirstPerKeyStep(rows, key, p, r);
      r
  }

  lemma FirstPerKeyStep<T, K(!new)>(rows: seq<T>, key: T -> K, p: seq<T>, r: seq<T>)
    requires |rows| > 0
    requires IsFirstPerKey(rows[..|rows| - 1], key, p)
    requires r == if HasKey(rows[..|rows| - 1], key, key(rows[|rows| - 1])) then p else p + [rows[|rows| - 1]]
    ensures IsFirstPerKey(rows, key, r)
  {
    if HasKey(rows[..|rows| - 1], key, key(rows[|rows| - 1])) {
      FirstPerKeyStepKeep(rows, key, p);
    } else {
      FirstPerKeyStepAppend(rows, key, p);
    }
  }

  /** A key of a frame is a key of all but its last row, or the last row's. */
  lemma KeysOfInit<T, K(!new)>(rows: seq<T>, key: T -> K)
    requires |rows| > 0
    ensures forall k :: HasKey(rows, key, k) ==> HasKey(rows[..|rows| - 1], key, k) || k == key(rows[|rows| - 1])
  {
    var init := rows[..|rows| - 1];
    forall k | HasKey(rows, key, k) && k != key(rows[|rows| - 1])
      ensures HasKey(init, key, k)
    {
      var i :| 0 <= i < |rows| && key(rows[i]) == k;
      assert init[i] == rows[i];
    }
  }

  /** A last row whose key occurred before adds nothing. */
  lemma FirstPerKeyStepKeep<T, K(!new)>(rows: seq<T>, key: T -> K, p: seq<T>)
    requires |rows| > 0
    requires IsFirstPerKey(rows[..|rows| - 1], key, p)
    requires HasKey(rows[..|rows| - 1], key, key(rows[|rows| - 1]))
    ensures IsFirstPerKey(rows, key, p)
  {
    FirstWithKeyPrefix(rows[..|rows| - 1], rows, key);
    KeysOfInit(rows, key);
  }

  /** A last row with a new key is appended, and is the first of its key. */
  lemma FirstPerKeyStepAppend<T, K(!new)>(rows: seq<T>, key: T -> K, p: seq<T>)
    requires |rows| > 0
    requires IsFirstPerKey(rows[..|rows| - 1], key, p)
    requires !HasKey(rows[..|rows| - 1], key, key(rows[|rows| - 1]))
    ensures IsFirstPerKey(rows, key, p + [rows[|rows| - 1]])
  {
    var init := rows[..|rows| - 1];
    var last := rows[|rows| - 1];
    var r := p + [last];
    FirstWithKeyPrefix(init, rows, key);
    FirstWithKeyLast(rows, key);
    KeysOfInit(rows, key);
    assert forall i :: 0 <= i < |p| ==> r[i] == p[i];
    assert r[|r| - 1] == last;
    forall k | HasKey(rows, key, k) ensures HasKey(r, key, k) {
      if k != key(last) {
        var i :| 0 <= i < |p| && key(p[i]) == k;
        assert key(r[i]) == k;
      }
    }
    forall i, j | 0 <= i < j < |r|
      ensures key(r[i]) != key(r[j])
    {
      if j == |r| - 1 {
        assert HasKey(init, key, key(r[i]));
      }
    }
  }

  lemma FirstWithKeyPrefix<T, K(!new)>(init: seq<T>, rows: seq<T>, key: T -> K)
    requires init <= rows
    ensures forall k :: HasKey(init, key, k) ==> HasKey(rows, key, k) && FirstWithKey(init, key, k) == FirstWithKey(rows, key, k)
  {
    forall k | HasKey(init, key, k)
      ensures HasKey(rows, key, k) && FirstWithKey(init, key, k) == FirstWithKey(rows, key, k)
    {
      var x := FirstWithKey(init, key, k);
      var i :| 0 <= i < |init| && init[i] == x && forall j :: 0 <= j < i ==> key(init[j]) != k;
      assert rows[i] == x;
      assert key(rows[i]) == k;
      var y := FirstWithKey(rows, key, k);
      var i' :| 0 <= i' < |rows| && rows[i'] == y && forall j :: 0 <= j < i' ==> key(rows[j]) != k;
      assert i' < |init| ==> key(init[i']) == k;
    }
  }

  lemma FirstWithKeyLast<T, K(!new)>(rows: seq<T>, key: T -> K)
    requires |rows| > 0
    requires !HasKey(rows[..|rows| - 1], key, key(rows[|rows| - 1]))
    ensures HasKey(rows, key, key(rows[|rows| - 1]))
    ensures FirstWithKey(rows, key, key(rows[|rows| - 1])) == rows[|rows| - 1]
  {
    var n := |rows| - 1;
    var k := key(rows[n]);
    assert HasKey(rows, key, k) by {
      assert key(rows[n]) == k;
    }
    forall j | 0 <= j < n ensures key(rows[j]) != k {
      assert rows[..n][j] == rows[j];
    }
    var y := FirstWithKey(rows, key, k);
    var i :| 0 <= i < |rows| && rows[i] == y && forall j :: 0 <= j < i ==> key(rows[j]) != k;
    assert key(rows[i]) == k;
    assert i == n;
  }

  /** `drop_duplicates(subset=key, keep=False)`: the rows whose key occurs once. */
  function UniqueKeyRows<T, K(==,!new)>(rows: seq<T>, key: T -> K): (r: seq<T>)
    ensures forall i :: 0 <= i < |r| ==> CountKey(rows, key, key(r[i])) == 1
  {
    Filter(rows, x => CountKey(rows, key, key(x)) == 1)
  }

  /** Two rows with the same key make it occur at least twice. */
  lemma {:induction false} CountKeyTwo<T, K(!new)>(rows: seq<T>, key: T -> K, i: nat, j: nat)
    requires i < j < |rows| && key(rows[i]) == key(rows[j])
    ensures CountKey(rows, key, key(rows[i])) >= 2
  {
    var init := rows[..|rows| - 1];
    assert init[i] == rows[i];
    if j == |rows| - 1 {
      assert HasKey(init, key, key(rows[i]));
    } else {
      assert init[j] == rows[j];
      CountKeyTwo(init, key, i, j);
    }
  }

  /** A key carried by no two rows occurs at most once. */
  lemma {:induction false} CountKeyAtMostOne<T, K(!new)>(rows: seq<T>, key: T -> K, k: K)
    requires forall i, j :: 0 <= i < j < |rows| && key(rows[i]) == k ==> key(rows[j]) != k
    ensures CountKey(rows, key, k) <= 1
  {
    if rows != [] {
      var init := rows[..|rows| - 1];
      assert forall i :: 0 <= i < |init| ==> init[i] == rows[i];
      CountKeyAtMostOne(init, key, k);
      if key(rows[|rows| - 1]) == k {
        assert !HasKey(init, key, k);
      }
    }
  }

  /** A row is kept by `drop_duplicates(keep=False)` exactly when its key occurs once. */
  lemma UniqueKeyRowsMembership<T, K(!new)>(rows: seq<T>, key: T -> K, x: T)
    ensures x in UniqueKeyRows(rows, key) <==> x in rows && CountKey(rows, key, key(x)) == 1
  {
    FilterMembership(rows, x => CountKey(rows, key, key(x)) == 1, x);
  }

  /** A row's key survives `drop_duplicates(keep=False)` exactly when it occurs once. */
  lemma UniqueKeyRowsKey<T, K(!new)>(rows: seq<T>, key: T -> K, x: T)
    requires x in rows
    ensures HasKey(UniqueKeyRows(rows, key), key, key(x)) <==> CountKey(rows, key, key(x)) == 1
  {
    var u := UniqueKeyRows(rows, key);
    UniqueKeyRowsMembership(rows, key, x);
    if CountKey(rows, key, key(x)) == 1 {
      var i :| 0 <= i < |u| && u[i] == x;
    }
  }

  /** In a concatenation, the first row of a key the front part lacks comes
      from the back part. */
  lemma FirstWithKeyConcat<T, K(!new)>(a: seq<T>, b: seq<T>, key: T -> K, k: K)
    requires !HasKey(a, key, k) && HasKey(b, key, k)
    ensures HasKey(a + b, key, k) && FirstWithKey(a + b, key, k) == FirstWithKey(b, key, k)
  {
    var x := FirstWithKey(b, key, k);
    var i :| 0 <= i < |b| && b[i] == x && forall j :: 0 <= j < i ==> key(b[j]) != k;
    assert (a + b)[|a| + i] == x;
    var y := FirstWithKey(a + b, key, k);
    var i' :| 0 <= i' < |a + b| && (a + b)[i'] == y && forall j :: 0 <= j < i' ==> key((a + b)[j]) != k;
    assert forall j :: 0 <= j < |a| ==> (a + b)[j] == a[j];
    assert i' >= |a|;
    assert b[i' - |a|] == y;
  }

  /** `drop_duplicates(keep='first')` keeps the first row of every key present. */
  lemma FirstPerKeyPicks<T, K(!new)>(rows: seq<T>, key: T -> K, k: K)
    requires HasKey(rows, key, k)
    ensures FirstWithKey(rows, key, k) in FirstPerKey(rows, key)
  {
    var r := FirstPerKey(rows, key);
    assert HasKey(r, key, k);
    var i :| 0 <= i < |r| && key(r[i]) == k;
  }

  /** In three concatenated frames the first row of a key comes from the
      first frame that has the key. */
  lemma FirstWithKeyOfThree<T, K(!new)>(a: seq<T>, b: seq<T>, c: seq<T>, key: T -> K, k: K)
    requires HasKey(a + b + c, key, k)
    ensures HasKey(a, key, k) ==> FirstWithKey(a + b + c, key, k) in a
    ensures !HasKey(a, key, k) && HasKey(b, key, k) ==> FirstWithKey(a + b + c, key, k) in b
    ensures !HasKey(a, key, k) && !HasKey(b, key, k) ==> FirstWithKey(a + b + c, key, k) in c
  {
    var all := a + b + c;
    var x := FirstWithKey(all, key, k);
    var i :| 0 <= i < |all| && all[i] == x && forall j :: 0 <= j < i ==> key(all[j]) != k;
    assert forall j :: 0 <= j < |a| ==> all[j] == a[j];
    assert forall j :: |a| <= j < |a| + |b| ==> all[j] == b[j - |a|];
    assert forall j :: |a| + |b| <= j < |all| ==> all[j] == c[j - |a| - |b|];
    if !HasKey(a, key, k) && HasKey(b, key, k) {
      var jb :| 0 <= jb < |b| && key(b[jb]) == k;
      assert key(all[|a| + jb]) == k;
      assert b[i - |a|] == x;
    }
  }

  /** A filter that keeps every row of key `k` keeps its first row first. */
  lemma {:induction false} FilterKeepsFirst<T, K(!new)>(rows: seq<T>, p: T -> bool, key: T -> K, k: K)
    requires HasKey(rows, key, k)
    requires forall i :: 0 <= i < |rows| && key(rows[i]) == k ==> p(rows[i])
    ensures HasKey(Filter(rows, p), key, k) && FirstWithKey(Filter(rows, p), key, k) == FirstWithKey(rows, key, k)
  {
    var f := Filter(rows, p);
    var rest := Filter(rows[1..], p);
    assert rows == [rows[0]] + rows[1..];
    if key(rows[0]) == k {
      assert f[0] == rows[0];
    } else {
      assert HasKey(rows[1..], key, k) by {
        var i :| 0 <= i < |rows| && key(rows[i]) == k;
        assert rows[1..][i - 1] == rows[i];
      }
      assert forall i :: 0 <= i < |rows[1..]| ==> rows[1..][i] == rows[i + 1];
      FilterKeepsFirst(rows[1..], p, key, k);
      if p(rows[0]) {
        assert f == [rows[0]] + rest;
        assert !HasKey([rows[0]], key, k);
        FirstWithKeyConcat([rows[0]], rest, key, k);
      } else {
        assert f == rest;
      }
      assert !HasKey([rows[0]], key, k);
      FirstWithKeyConcat([rows[0]], rows[1..], key, k);
    }
  }

  /** The first row with key `k` among those of smallest priority for `k`. */
  function BestOfKey<T, K(==,!new)>(rows: seq<T>, key: T -> K, prio: T -> nat, k: K): (m: T)
    requires HasKey(rows, key, k)
    ensures key(m) == k && m in rows
    ensures forall j :: 0 <= j < |rows| && key(rows[j]) == k ==> prio(m) <= prio(rows[j])
  {
    var tail := rows[1..];
    assert forall j :: 1 <= j < |rows| ==> rows[j] == tail[j - 1];
    if key(rows[0]) != k then
      BestOfKey(tail, key, prio, k)
    else if !HasKey(tail, key, k) then rows[0]
    else
      var m := BestOfKey(tail, key, prio, k);
      if prio(rows[0]) <= prio(m) then rows[0] else m
  }

  /** The best row of each key of `firsts`, in the order of `firsts`. */
  function BestOfEach<T, K(==,!new)>(rows: seq<T>, key: T -> K, prio: T -> nat, firsts: seq<T>): seq<T>
    requires forall i :: 0 <= i < |firsts| ==> HasKey(rows, key, key(firsts[i]))
  {
    seq(|firsts|, i requires 0 <= i < |firsts| => BestOfKey(rows, key, prio, key(firsts[i])))
  }

  /** Taking the best row of each first row's key keeps the keys of the first rows. */
  lemma BestOfFirsts<T, K(!new)>(rows: seq<T>, key: T -> K, prio: T -> nat)
    ensures forall i :: 0 <= i < |FirstPerKey(rows, key)| ==> HasKey(rows, key, key(FirstPerKey(rows, key)[i]))
    ensures var r := BestOfEach(rows, key, prio, FirstPerKey(rows, key));
            && UniqueKeys(r, key)
            && (forall i :: 0 <= i < |r| ==> r[i] in rows)
            && (forall k :: HasKey(rows, key, k) <==> HasKey(r, key, k))
            && (forall i, j :: 0 <= i < |r| && 0 <= j < |rows| && key(rows[j]) == key(r[i]) ==> prio(r[i]) <= prio(rows[j]))
  {
    var firsts := FirstPerKey(rows, key);
    var r := BestOfEach(rows, key, prio, firsts);
    assert forall i :: 0 <= i < |r| ==> key(r[i]) == key(firsts[i]);
    forall k | HasKey(r, key, k) ensures HasKey(rows, key, k) {
      var i :| 0 <= i < |r| && key(r[i]) == k;
      var j :| 0 <= j < |rows| && rows[j] == r[i];
    }
    forall k | HasKey(rows, key, k) ensures HasKey(r, key, k) {
      var i :| 0 <= i < |firsts| && key(firsts[i]) == k;
      assert key(r[i]) == k;
    }
  }

  /** Sorting by a priority and then `drop_duplicates(subset=key, keep='first')`:
      one row per key, carrying the smallest priority among that key's rows. */
  function BestPerKey<T, K(==,!new)>(rows: seq<T>, key: T -> K, prio: T -> nat): (r: seq<T>)
    ensures UniqueKeys(r, key)
    ensures forall i :: 0 <= i < |r| ==> r[i] in rows
    ensures forall k :: HasKey(rows, key, k) <==> HasKey(r, key, k)
    ensures forall i, j :: 0 <= i < |r| && 0 <= j < |rows| && key(rows[j]) == key(r[i]) ==> prio(r[i]) <= prio(rows[j])
  {
    BestOfFirsts(rows, key, prio);
    BestOfEach(rows, key, prio, FirstPerKey(rows, key))
  }

  /** Every row's key is kept, by a row of no larger priority. */
  lemma BestPerKeyCovers<T, K(!new)>(rows: seq<T>, key: T -> K, prio: T -> nat, c: T)
    requires c in rows
    ensures exists i :: 0 <= i < |BestPerKey(rows, key, prio)| && key(BestPerKey(rows, key, prio)[i]) == key(c)
                        && prio(BestPerKey(rows, key, prio)[i]) <= prio(c)
  {
    var r := BestPerKey(rows, key, prio);
    var j :| 0 <= j < |rows| && rows[j] == c;
    assert HasKey(rows, key, key(c));
    var i :| 0 <= i < |r| && key(r[i]) == key(c);
    assert prio(r[i]) <= prio(rows[j]);
  }

  /** `drop_duplicates` keeps rows of its input only. */
  lemma FirstPerKeyMember<T, K(!new)>(rows: seq<T>, key: T -> K, x: T)
    requires x in FirstPerKey(rows, key)
    ensures x in rows
  {
    var r := FirstPerKey(rows, key);
    var i :| 0 <= i < |r| && r[i] == x;
  }

  /** A selection over two concatenated frames is the concatenation of the selections. */
  lemma {:induction false} FilterConcat<T>(a: seq<T>, b: seq<T>, p: T -> bool)
    ensures Filter(a + b, p) == Filter(a, p) + Filter(b, p)
    decreases |a|
  {
    if a != [] {
      assert (a + b)[1..] == a[1..] + b;
      FilterConcat(a[1..], b, p);
    } else {
      assert a + b == b;
    }
  }

  /** A row that passes a selection leaves its key in the selected frame. */
  lemma FilterHasKey<T, K(!new)>(rows: seq<T>, p: T -> bool, key: T -> K, x: T)
    requires x in rows && p(x)
    ensures HasKey(Filter(rows, p), key, key(x))
  {
    FilterMembership(rows, p, x);
    var f := Filter(rows, p);
    var i :| 0 <= i < |f| && f[i] == x;
  }

  /** The first row of a key present in the first of two frames comes from it. */
  lemma FirstWithKeyFront<T, K(!new)>(a: seq<T>, b: seq<T>, key: T -> K, k: K)
    requires HasKey(a, key, k)
    ensures HasKey(a + b, key, k) && FirstWithKey(a + b, key, k) in a
  {
    var i :| 0 <= i < |a| && key(a[i]) == k;
    assert (a + b)[i] == a[i];
    var x := FirstWithKey(a + b, key, k);
    var j :| 0 <= j < |a + b| && (a + b)[j] == x && forall l :: 0 <= l < j ==> key((a + b)[l]) != k;
    assert j <= i;
    assert (a + b)[j] == a[j];
  }

  /** After a selection and `drop_duplicates` over two concatenated frames,
      a key with a selected row in the front frame is represented by a row of
      the front frame. */
  lemma FirstPerKeyFront<T, K(!new)>(a: seq<T>, b: seq<T>, p: T -> bool, key: T -> K, y: T) returns (x: T)
    requires y in a && p(y)
    ensures x in FirstPerKey(Filter(a + b, p), key) && key(x) == key(y) && x in a && p(x)
  {
    FilterConcat(a, b, p);
    FilterHasKey(a, p, key, y);
    FirstWithKeyFront(Filter(a, p), Filter(b, p), key, key(y));
    x := FirstWithKey(Filter(a + b, p), key, key(y));
    FirstPerKeyPicks(Filter(a + b, p), key, key(y));
    FilterMembership(a, p, x);
  }

  /** A row kept by `BestPerKey` has the smallest priority of its key. */
  lemma BestPerKeyMembership<T, K(!new)>(rows: seq<T>, key: T -> K, prio: T -> nat, x: T)
    requires x in BestPerKey(rows, key, prio)
    ensures x in rows
    ensures forall c :: c in rows && key(c) == key(x) ==> prio(x) <= prio(c)
  {
    var r := BestPerKey(rows, key, prio);
    var i :| 0 <= i < |r| && r[i] == x;
    forall c | c in rows && key(c) == key(x) ensures prio(x) <= prio(c) {
      var j :| 0 <= j < |rows| && rows[j] == c;
    }
  }

  /** A key present in one of three frames is present in their concatenation. */
  lemma HasKeyOfThree<T, K(!new)>(a: seq<T>, b: seq<T>, c: seq<T>, key: T -> K, k: K)
    requires HasKey(a, key, k) || HasKey(b, key, k) || HasKey(c, key, k)
    ensures HasKey(a + b + c, key, k)
  {
    var all := a + b + c;
    if HasKey(a, key, k) {
      var i :| 0 <= i < |a| && key(a[i]) == k;
      assert all[i] == a[i];
    } else if HasKey(b, key, k) {
      var i :| 0 <= i < |b| && key(b[i]) == k;
      assert all[|a| + i] == b[i];
    } else {
      var i :| 0 <= i < |c| && key(c[i]) == k;
      assert all[|a| + |b| + i] == c[i];
    }
  }

  /** The rows of `right` whose key is `k`, in order. */
  function MatchesOf<R, K(==,!new)>(right: seq<R>, rk: R -> K, k: K): (ms: seq<R>)
    ensures forall i :: 0 <= i < |ms| ==> rk(ms[i]) == k
  {
    if right == [] then []
    else (if rk(right[0]) == k then [right[0]] else []) + MatchesOf(right[1..], rk, k)
  }

  /** With unique keys on the right, a key has one match (its row) or none. */
  lemma {:induction false} MatchesOfUnique<R, K(!new)>(right: seq<R>, rk: R -> K, k: K)
    requires UniqueKeys(right, rk)
    ensures HasKey(right, rk, k) ==> MatchesOf(right, rk, k) == [FirstWithKey(right, rk, k)]
    ensures !HasKey(right, rk, k) ==> MatchesOf(right, rk, k) == []
  {
    if right != [] {
      var tail := right[1..];
      assert UniqueKeys(tail, rk) by {
        forall i, j | 0 <= i < j < |tail| ensures rk(tail[i]) != rk(tail[j]) {
          assert tail[i] == right[i + 1] && tail[j] == right[j + 1];
        }
      }
      MatchesOfUnique(tail, rk, k);
      assert forall i :: 0 <= i < |tail| ==> tail[i] == right[i + 1];
      assert HasKey(tail, rk, k) ==> HasKey(right, rk, k);
      assert HasKey(right, rk, k) && rk(right[0]) != k ==> HasKey(tail, rk, k);
      assert rk(right[0]) == k ==> !HasKey(tail, rk, k);
    }
  }

  /** The output rows of one preserved row in `merge(how='left')`: one per match,
      or the row alone (with empty right-hand columns) when nothing matches. */
  function JoinRow<L, R, K(==,!new), O>(l: L, right: seq<R>, lk: L -> K, rk: R -> K, both: (L, R) -> O, alone: L -> O): seq<O>
  {
    var ms := MatchesOf(right, rk, lk(l));
    if ms == [] then [alone(l)] else seq(|ms|, i requires 0 <= i < |ms| => both(l, ms[i]))
  }

  /** `merge(how='left')` with `left` the preserved side (a right merge is the
      same with the frames swapped): every preserved row is kept, in order. */
  function LeftJoin<L, R, K(==,!new), O>(left: seq<L>, right: seq<R>, lk: L -> K, rk: R -> K, both: (L, R) -> O, alone: L -> O): (r: seq<O>)
    ensures |r| >= |left|
  {
    if left == [] then []
    else JoinRow(left[0], right, lk, rk, both, alone) + LeftJoin(left[1..], right, lk, rk, both, alone)
  }

  /** When the joined-on keys are unique on the right, the merge keeps exactly one
      row per preserved row: the joined row when the key has a match, else the row alone. */
  lemma {:induction false} LeftJoinUnique<L, R, K(!new), O>(left: seq<L>, right: seq<R>, lk: L -> K, rk: R -> K, both: (L, R) -> O, alone: L -> O)
    requires UniqueKeys(right, rk)
    ensures |LeftJoin(left, right, lk, rk, both, alone)| == |left|
    ensures forall i :: 0 <= i < |left| ==>
              LeftJoin(left, right, lk, rk, both, alone)[i]
              == if HasKey(right, rk, lk(left[i])) then both(left[i], FirstWithKey(right, rk, lk(left[i]))) else alone(left[i])
  {
    if left != [] {
      LeftJoinUnique(left[1..], right, lk, rk, both, alone);
      MatchesOfUnique(right, rk, lk(left[0]));
      var r := LeftJoin(left, right, lk, rk, both, alone);
      var rest := LeftJoin(left[1..], right, lk, rk, both, alone);
      assert |JoinRow(left[0], right, lk, rk, both, alone)| == 1;
      assert r == JoinRow(left[0], right, lk, rk, both, alone) + rest;
      forall i | 0 <= i < |left|
        ensures r[i] == if HasKey(right, rk, lk(left[i])) then both(left[i], FirstWithKey(right, rk, lk(left[i]))) else alone(left[i])
      {
        if i > 0 {
          assert r[i] == rest[i - 1] && left[i] == left[1..][i - 1];
        }
      }
    }
  }

  /** The matches of a key are empty exactly when no row has it, and start
      with the first row that has it. */
  lemma {:induction false} MatchesOfFirst<R, K(!new)>(right: seq<R>, rk: R -> K, k: K)
    ensures MatchesOf(right, rk, k) == [] <==> !HasKey(right, rk, k)
    ensures MatchesOf(right, rk, k) != [] ==> HasKey(right, rk, k) && MatchesOf(right, rk, k)[0] == FirstWithKey(right, rk, k)
  {
    if right != [] {
      var tail := right[1..];
      MatchesOfFirst(tail, rk, k);
      assert forall i :: 0 <= i < |tail| ==> tail[i] == right[i + 1];
      assert HasKey(tail, rk, k) ==> HasKey(right, rk, k);
      assert HasKey(right, rk, k) && rk(right[0]) != k ==> HasKey(tail, rk, k);
      if rk(right[0]) != k && HasKey(tail, rk, k) {
        var x := FirstWithKey(tail, rk, k);
        var i :| 0 <= i < |tail| && tail[i] == x && forall j :: 0 <= j < i ==> rk(tail[j]) != k;
        assert right[i + 1] == x;
        forall j | 0 <= j < i + 1 ensures rk(right[j]) != k {
          if j > 0 { assert right[j] == tail[j - 1]; }
        }
        FirstWithKeyAt(right, rk, k, i + 1);
      }
      if rk(right[0]) == k {
        FirstWithKeyAt(right, rk, k, 0);
      }
    }
  }

  /** The row at position `i` is the first with its key when no earlier row has that key. */
  lemma FirstWithKeyAt<T, K(!new)>(rows: seq<T>, key: T -> K, k: K, i: nat)
    requires i < |rows| && key(rows[i]) == k
    requires forall j :: 0 <= j < i ==> key(rows[j]) != k
    ensures HasKey(rows, key, k) && FirstWithKey(rows, key, k) == rows[i]
  {
    var x := FirstWithKey(rows, key, k);
    var m :| 0 <= m < |rows| && rows[m] == x && forall j :: 0 <= j < m ==> key(rows[j]) != k;
    assert m == i;
  }

  /** A left merge keeps exactly one row per preserved row precisely when no
      preserved key has two matches; the kept row is then the joined row of
      the key's only match, or the row alone. */
  lemma {:induction false} LeftJoinExact<L, R, K(!new), O>(left: seq<L>, right: seq<R>, lk: L -> K, rk: R -> K, both: (L, R) -> O, alone: L -> O)
    ensures |LeftJoin(left, right, lk, rk, both, alone)| == |left| <==>
      forall i :: 0 <= i < |left| ==> |MatchesOf(right, rk, lk(left[i]))| <= 1
    ensures |LeftJoin(left, right, lk, rk, both, alone)| == |left| ==>
      forall i :: 0 <= i < |left| ==>
        LeftJoin(left, right, lk, rk, both, alone)[i]
        == if HasKey(right, rk, lk(left[i])) then both(left[i], FirstWithKey(right, rk, lk(left[i]))) else alone(left[i])
  {
    if left != [] {
      var tail := left[1..];
      LeftJoinExact(tail, right, lk, rk, both, alone);
      var row := JoinRow(left[0], right, lk, rk, both, alone);
      var rest := LeftJoin(tail, right, lk, rk, both, alone);
      var r := LeftJoin(left, right, lk, rk, both, alone);
      assert r == row + rest;
      var ms := MatchesOf(right, rk, lk(left[0]));
      assert |row| == if ms == [] then 1 else |ms|;
      assert forall i :: 1 <= i < |left| ==> left[i] == tail[i - 1];
      if |r| == |left| {
        MatchesOfFirst(right, rk, lk(left[0]));
        forall i | 0 <= i < |left|
          ensures r[i] == if HasKey(right, rk, lk(left[i])) then both(left[i], FirstWithKey(right, rk, lk(left[i]))) else alone(left[i])
        {
          if i > 0 { assert r[i] == rest[i - 1]; }
        }
      }
    }
  }

  /** A row is a match of `k` exactly when it is a row of `right` with key `k`. */
  lemma {:induction false} MatchesOfMembership<R, K(!new)>(right: seq<R>, rk: R -> K, k: K, x: R)
    ensures x in MatchesOf(right, rk, k) <==> x in right && rk(x) == k
  {
    if right != [] {
      MatchesOfMembership(right[1..], rk, k, x);
      assert right == [right[0]] + right[1..];
    }
  }

  /** Every output row of a left merge is a joined pair of matching rows, or a
      preserved row without any match. */
  lemma {:induction false} LeftJoinCases<L, R, K(!new), O>(left: seq<L>, right: seq<R>, lk: L -> K, rk: R -> K, both: (L, R) -> O, alone: L -> O, o: O)
    requires o in LeftJoin(left, right, lk, rk, both, alone)
    ensures (exists l, t :: l in left && t in right && rk(t) == lk(l) && o == both(l, t))
      || (exists l :: l in left && !HasKey(right, rk, lk(l)) && o == alone(l))
  {
    var row := JoinRow(left[0], right, lk, rk, both, alone);
    var rest := LeftJoin(left[1..], right, lk, rk, both, alone);
    assert LeftJoin(left, right, lk, rk, both, alone) == row + rest;
    var l := left[0];
    if o in row {
      var ms := MatchesOf(right, rk, lk(l));
      MatchesOfFirst(right, rk, lk(l));
      if ms != [] {
        var i :| 0 <= i < |ms| && o == both(l, ms[i]);
        MatchesOfMembership(right, rk, lk(l), ms[i]);
      }
    } else {
      LeftJoinCases(left[1..], right, lk, rk, both, alone, o);
    }
  }

  /** Every pair of matching rows appears joined in a left merge. */
  lemma {:induction false} LeftJoinBoth<L, R, K(!new), O>(left: seq<L>, right: seq<R>, lk: L -> K, rk: R -> K, both: (L, R) -> O, alone: L -> O, l: L, t: R)
    requires l in left && t in right && rk(t) == lk(l)
    ensures both(l, t) in LeftJoin(left, right, lk, rk, both, alone)
  {
    var row := JoinRow(left[0], right, lk, rk, both, alone);
    var rest := LeftJoin(left[1..], right, lk, rk, both, alone);
    assert LeftJoin(left, right, lk, rk, both, alone) == row + rest;
    if l == left[0] {
      var ms := MatchesOf(right, rk, lk(l));
      MatchesOfMembership(right, rk, lk(l), t);
      var i :| 0 <= i < |ms| && ms[i] == t;
      assert row[i] == both(l, t);
    } else {
      LeftJoinBoth(left[1..], right, lk, rk, both, alone, l, t);
    }
  }

  /** `dropna` on a column that a merge fills only for some rows: the filled
      rows, in order. */
  function Somes<T>(rows: seq<Option<T>>): (r: seq<T>)
    ensures |r| <= |rows|
  {
    if rows == [] then []
    else (if rows[0].Some? then [rows[0].value] else []) + Somes(rows[1..])
  }

  lemma {:induction false} SomesMembership<T>(rows: seq<Option<T>>, x: T)
    ensures x in Somes(rows) <==> Some(x) in rows
  {
    if rows != [] {
      SomesMembership(rows[1..], x);
      assert rows == [rows[0]] + rows[1..];
    }
  }

  /** A left merge whose unmatched rows are empty, then `dropna`: exactly
      the filled joins of matching pairs. */
  lemma JoinSomesMembership<L, R, K(!new), O>(left: seq<L>, right: seq<R>, lk: L -> K, rk: R -> K,
                                              both: (L, R) -> Option<O>, alone: L -> Option<O>, o: O)
    requires forall l :: alone(l) == None
    ensures o in Somes(LeftJoin(left, right, lk, rk, both, alone)) <==>
              exists l, t :: l in left && t in right && rk(t) == lk(l) && both(l, t) == Some(o)
  {
    var joined := LeftJoin(left, right, lk, rk, both, alone);
    SomesMembership(joined, o);
    if Some(o) in joined {
      LeftJoinCases(left, right, lk, rk, both, alone, Some(o));
    }
    if exists l, t :: l in left && t in right && rk(t) == lk(l) && both(l, t) == Some(o) {
      var l, t :| l in left && t in right && rk(t) == lk(l) && both(l, t) == Some(o);
      LeftJoinBoth(left, right, lk, rk, both, alone, l, t);
    }
  }

  /** `merge(how='inner')`: for each left row in order, one joined row per
      matching right row. */
  function InnerJoin<L, R, K(==,!new), O>(left: seq<L>, right: seq<R>, lk: L -> K, rk: R -> K, both: (L, R) -> O): seq<O>
  {
    if left == [] then []
    else
      var ms := MatchesOf(right, rk, lk(left[0]));
      seq(|ms|, i requires 0 <= i < |ms| => both(left[0], ms[i])) + InnerJoin(left[1..], right, lk, rk, both)
  }

  /** The inner merge holds exactly the joined pairs of rows with equal keys. */
  lemma {:induction false} InnerJoinMembership<L, R, K(!new), O>(left: seq<L>, right: seq<R>, lk: L -> K, rk: R -> K, both: (L, R) -> O, o: O)
    ensures o in InnerJoin(left, right, lk, rk, both) <==>
              exists l, t :: l in left && t in right && rk(t) == lk(l) && o == both(l, t)
  {
    if left != [] {
      var l := left[0];
      var ms := MatchesOf(right, rk, lk(l));
      var row := seq(|ms|, i requires 0 <= i < |ms| => both(l, ms[i]));
      InnerJoinMembership(left[1..], right, lk, rk, both, o);
      assert InnerJoin(left, right, lk, rk, both) == row + InnerJoin(left[1..], right, lk, rk, both);
      if o in row {
        var i :| 0 <= i < |ms| && o == both(l, ms[i]);
        MatchesOfMembership(right, rk, lk(l), ms[i]);
      }
      if exists l', t :: l' in left && t in right && rk(t) == lk(l') && o == both(l', t) {
        var l', t :| l' in left && t in right && rk(t) == lk(l') && o == both(l', t);
        if l' == l {
          MatchesOfMembership(right, rk, lk(l), t);
          var i :| 0 <= i < |ms| && ms[i] == t;
          assert row[i] == o;
        } else {
          assert l' in left[1..];
        }
      }
    }
  }

  /** An inner merge has unique keys when the right frame is unique on its
      join key and every joined row carries a key of its left row that is
      unique on the left. */
  lemma {:induction false} InnerJoinUniqueKeys<L, R, K(!new), O, J(!new)>(left: seq<L>, right: seq<R>, lk: L -> K, rk: R -> K,
                                                               both: (L, R) -> O, lkey: L -> J, ok: O -> J)
    requires UniqueKeys(left, lkey) && UniqueKeys(right, rk)
    requires forall l, t :: ok(both(l, t)) == lkey(l)
    ensures UniqueKeys(InnerJoin(left, right, lk, rk, both), ok)
    decreases |left|
  {
    if left != [] {
      var tail := left[1..];
      assert forall i, j :: 0 <= i < j < |tail| ==> tail[i] == left[i + 1] && tail[j] == left[j + 1];
      InnerJoinUniqueKeys(tail, right, lk, rk, both, lkey, ok);
      var ms := MatchesOf(right, rk, lk(left[0]));
      MatchesOfUnique(right, rk, lk(left[0]));
      var row := seq(|ms|, i requires 0 <= i < |ms| => both(left[0], ms[i]));
      var rest := InnerJoin(tail, right, lk, rk, both);
      assert InnerJoin(left, right, lk, rk, both) == row + rest;
      forall j | 0 <= j < |rest| ensures ok(rest[j]) != lkey(left[0]) {
        InnerJoinMembership(tail, right, lk, rk, both, rest[j]);
        var l, t :| l in tail && t in right && rk(t) == lk(l) && rest[j] == both(l, t);
        var a :| 0 <= a < |tail| && tail[a] == l;
        assert left[a + 1] == l;
      }
    }
  }

  /** The rows the nested loops `for s in subs: for t in taxa: if q(s, t):
      append mk(s, t)` collect for one `s`. */
  function CrossRow<S, T, O>(s: S, taxa: seq<T>, q: (S, T) -> bool, mk: (S, T) -> O): seq<O>
  {
    if taxa == [] then []
    else
      var t := taxa[|taxa| - 1];
      CrossRow(s, taxa[..|taxa| - 1], q, mk) + (if q(s, t) then [mk(s, t)] else [])
  }

  /** All rows the nested loops collect, submission by submission. */
  function Cross<S, T, O>(subs: seq<S>, taxa: seq<T>, q: (S, T) -> bool, mk: (S, T) -> O): seq<O>
  {
    if subs == [] then []
    else Cross(subs[..|subs| - 1], taxa, q, mk) + CrossRow(subs[|subs| - 1], taxa, q, mk)
  }

  lemma {:induction false} CrossRowMembership<S, T, O>(s: S, taxa: seq<T>, q: (S, T) -> bool, mk: (S, T) -> O, o: O)
    ensures o in CrossRow(s, taxa, q, mk) <==> exists t :: t in taxa && q(s, t) && o == mk(s, t)
  {
    if taxa != [] {
      var init := taxa[..|taxa| - 1];
      CrossRowMembership(s, init, q, mk, o);
      assert taxa == init + [taxa[|taxa| - 1]];
    }
  }

  /** The nested loops collect exactly the pairs that qualify. */
  lemma {:induction false} CrossMembership<S, T, O>(subs: seq<S>, taxa: seq<T>, q: (S, T) -> bool, mk: (S, T) -> O, o: O)
    ensures o in Cross(subs, taxa, q, mk) <==> exists s, t :: s in subs && t in taxa && q(s, t) && o == mk(s, t)
  {
    if subs != [] {
      var init := subs[..|subs| - 1];
      CrossMembership(init, taxa, q, mk, o);
      CrossRowMembership(subs[|subs| - 1], taxa, q, mk, o);
      assert subs == init + [subs[|subs| - 1]];
    }
  }

  /** The nested loops themselves, appending one qualifying pair at a time. */
  method CrossLoops<S, T, O>(subs: seq<S>, taxa: seq<T>, q: (S, T) -> bool, mk: (S, T) -> O) returns (r: seq<O>)
    ensures r == Cross(subs, taxa, q, mk)
  {
    r := [];
    for i := 0 to |subs|
      invariant r == Cross(subs[..i], taxa, q, mk)
    {
      assert subs[..i + 1][..i] == subs[..i];
      for j := 0 to |taxa|
        invariant r == Cross(subs[..i], taxa, q, mk) + CrossRow(subs[i], taxa[..j], q, mk)
      {
        assert taxa[..j + 1][..j] == taxa[..j];
        if q(subs[i], taxa[j]) {
          r := r + [mk(subs[i], taxa[j])];
        }
      }
      assert taxa[..|taxa|] == taxa;
    }
    assert subs[..|subs|] == subs;
  }

  /** Position of a cell value in a priority list, as an ordered `pd.Categorical`
      gives it: values outside the list (and a missing value) sort last. */
  function Pos(order: seq<string>, v: Option<string>): (p: nat)
    ensures p <= |order|
    ensures p < |order| <==> v.Some? && v.value in order
    ensures p < |order| ==> order[p] == v.value
  {
    match v
    case None => |order|
    case Some(s) => PosOf(order, s)
  }

  function PosOf(order: seq<string>, s: string): (p: nat)
    ensures p <= |order|
    ensures p < |order| <==> s in order
    ensures p < |order| ==> order[p] == s && s !in order[..p]
  {
    if order == [] then 0
    else if order[0] == s then 0
    else
      var p := PosOf(order[1..], s);
      assert order == [order[0]] + order[1..];
      assert p < |order[1..]| ==> order[..p + 1] == [order[0]] + order[1..][..p];
      p + 1
  }

  /** Every value of a column is a member of the priority list. */
  predicate AllKnown<T>(rows: seq<T>, col: T -> Option<string>, order: seq<string>) {
    forall i :: 0 <= i < |rows| ==> col(rows[i]).Some? && col(rows[i]).value in order
  }

  /** The validation loop `for v in values: if v not in known: raise ValueError`. */
  method AllKnownValues(values: seq<string>, known: string -> bool) returns (ok: bool)
    ensures ok <==> forall v :: v in values ==> known(v)
  {
    for i := 0 to |values|
      invariant forall j :: 0 <= j < i ==> known(values[j])
    {
      if !known(values[i]) {
        return false;
      }
    }
    return true;
  }

  /** A validation loop over the rows of a column: `for v in col: if not
      ok(v): raise ValueError`. */
  /** Every row passes `ok`. */
  predicate AllRows<T>(rows: seq<T>, ok: T -> bool) {
    forall j :: 0 <= j < |rows| ==> ok(rows[j])
  }

  method AllRowsPass<T>(rows: seq<T>, ok: T -> bool) returns (pass: bool)
    ensures pass <==> forall j :: 0 <= j < |rows| ==> ok(rows[j])
    ensures pass == AllRows(rows, ok)
  {
    for i := 0 to |rows|
      invariant forall j :: 0 <= j < i ==> ok(rows[j])
    {
      if !ok(rows[i]) {
        return false;
      }
    }
    return true;
  }

  /** One checked `isin` restriction: when the argument is given, every value
      must be known (else `ValueError`), and only rows matching a value remain. */
  method CheckedRestriction<T>(rows: seq<T>, values: Option<seq<string>>, known: string -> bool,
                            matches: (seq<string>, T) -> bool) returns (r: Result<seq<T>>)
    ensures values.None? ==> r == Ok(rows)
    ensures r.Err? <==> values.Some? && !(forall v :: v in values.value ==> known(v))
    ensures r.Ok? ==> r.value == Filter(rows, Restriction(values, matches))
    ensures r.Ok? ==> forall t :: t in r.value <==> t in rows && (values.Some? ==> matches(values.value, t))
    ensures r.Ok? ==> multiset(r.value) <= multiset(rows)
  {
    if values.None? {
      FilterAllPass(rows, Restriction(values, matches));
      return Ok(rows);
    }
    var ok := AllKnownValues(values.value, known);
    if !ok {
      return Err("ValueError");
    }
    var p := (t: T) => matches(values.value, t);
    FilterMembershipAll(rows, p);
    FilterSubMultiset(rows, p);
    FilterExt(rows, p, Restriction(values, matches));
    return Ok(Filter(rows, p));
  }

  /** The mask of one optional `isin` restriction: every row passes when the
      argument is absent. */
  function Restriction<T>(values: Option<seq<string>>, matches: (seq<string>, T) -> bool): T -> bool {
    t => values.Some? ==> matches(values.value, t)
  }
  /** A column computed row by row: `df.apply(f, axis=1)`. */
  function Map<T, U>(rows: seq<T>, f: T -> U): (r: seq<U>)
    ensures |r| == |rows| && forall i :: 0 <= i < |rows| ==> r[i] == f(rows[i])
  {
    seq(|rows|, i requires 0 <= i < |rows| => f(rows[i]))
  }

  /** A row of a computed column comes from some row, and every row gives one. */
  lemma MapMembership<T, U>(rows: seq<T>, f: T -> U, y: U)
    ensures y in Map(rows, f) <==> exists x :: x in rows && y == f(x)
  {
    if exists x :: x in rows && y == f(x) {
      var x :| x in rows && y == f(x);
      var i :| 0 <= i < |rows| && rows[i] == x;
      assert Map(rows, f)[i] == y;
    }
  }

  /** Two rows with the same key in a frame with unique keys are the same row. */
  lemma UniqueKeysSame<T, K(!new)>(rows: seq<T>, key: T -> K, x: T, y: T)
    requires UniqueKeys(rows, key) && x in rows && y in rows && key(x) == key(y)
    ensures x == y
  {
    var i :| 0 <= i < |rows| && rows[i] == x;
    var j :| 0 <= j < |rows| && rows[j] == y;
    assert !(i < j) && !(j < i);
  }

  /** Selecting rows keeps keys unique. */
  lemma {:induction false} FilterUniqueKeys<T, K(!new)>(rows: seq<T>, p: T -> bool, key: T -> K)
    requires UniqueKeys(rows, key)
    ensures UniqueKeys(Filter(rows, p), key)
    decreases |rows|
  {
    if rows != [] {
      var tail := rows[1..];
      assert forall i, j :: 0 <= i < j < |tail| ==> tail[i] == rows[i + 1] && tail[j] == rows[j + 1];
      FilterUniqueKeys(tail, p, key);
      var rest := Filter(tail, p);
      forall x | x in rest ensures key(x) != key(rows[0]) {
        FilterMembership(tail, p, x);
        var a :| 0 <= a < |tail| && tail[a] == x;
        assert rows[a + 1] == x;
      }
    }
  }

  /** A computed column of a frame with unique keys has unique keys, when each
      computed row carries its row's key. */
  lemma MapUniqueKeys<T, U, K(!new)>(rows: seq<T>, f: T -> U, key: T -> K, fkey: U -> K)
    requires UniqueKeys(rows, key)
    requires forall x :: fkey(f(x)) == key(x)
    ensures UniqueKeys(Map(rows, f), fkey)
  {
  }

  /** `pd.concat` of two frames with unique keys and no key in common has
      unique keys. */
  lemma ConcatUniqueKeys<T, K(!new)>(a: seq<T>, b: seq<T>, key: T -> K)
    requires UniqueKeys(a, key) && UniqueKeys(b, key)
    requires forall y :: y in b ==> !HasKey(a, key, key(y))
    ensures UniqueKeys(a + b, key)
  {
    var c := a + b;
    forall i, j | 0 <= i < j < |c| ensures key(c[i]) != key(c[j]) {
      if i < |a| && j >= |a| {
        assert c[j] == b[j - |a|] && c[i] == a[i];
      } else if i >= |a| {
        assert c[i] == b[i - |a|] && c[j] == b[j - |a|];
      }
    }
  }

  /** A key of `a + b` is a key of `a` or of `b`. */
  lemma HasKeyConcat<T, K(!new)>(a: seq<T>, b: seq<T>, key: T -> K, k: K)
    ensures HasKey(a + b, key, k) <==> HasKey(a, key, k) || HasKey(b, key, k)
  {
    if HasKey(a + b, key, k) {
      var i :| 0 <= i < |a + b| && key((a + b)[i]) == k;
      if i >= |a| { assert (a + b)[i] == b[i - |a|]; }
    }
    if HasKey(b, key, k) {
      var i :| 0 <= i < |b| && key(b[i]) == k;
      assert (a + b)[|a| + i] == b[i];
    }
    if HasKey(a, key, k) {
      var i :| 0 <= i < |a| && key(a[i]) == k;
      assert (a + b)[i] == a[i];
    }
  }

  /** A left merge keeps every preserved row: alone, or joined with a match. */
  lemma {:induction false} LeftJoinKeeps<L, R, K(!new), O>(left: seq<L>, right: seq<R>, lk: L -> K, rk: R -> K,
                                                          both: (L, R) -> O, alone: L -> O, l: L) returns (o: O)
    requires l in left
    ensures o in LeftJoin(left, right, lk, rk, both, alone)
    ensures o == alone(l) || exists t :: t in right && rk(t) == lk(l) && o == both(l, t)
  {
    var row := JoinRow(left[0], right, lk, rk, both, alone);
    var rest := LeftJoin(left[1..], right, lk, rk, both, alone);
    assert LeftJoin(left, right, lk, rk, both, alone) == row + rest;
    if l == left[0] {
      var ms := MatchesOf(right, rk, lk(l));
      if ms == [] {
        o := alone(l);
        assert row[0] == o;
      } else {
        o := both(l, ms[0]);
        assert row[0] == o;
        MatchesOfMembership(right, rk, lk(l), ms[0]);
      }
    } else {
      o := LeftJoinKeeps(left[1..], right, lk, rk, both, alone, l);
    }
  }

  /** The count of a key over two concatenated frames is the sum of the counts. */
  lemma {:induction false} CountKeyConcat<T, K(!new)>(a: seq<T>, b: seq<T>, key: T -> K, k: K)
    ensures CountKey(a + b, key, k) == CountKey(a, key, k) + CountKey(b, key, k)
    decreases |b|
  {
    if b == [] {
      assert a + b == a;
    } else {
      var init := b[..|b| - 1];
      assert (a + b)[..|a + b| - 1] == a + init;
      CountKeyConcat(a, init, key, k);
    }
  }

  /** A selection never adds rows of a key, and keeps them all when every one passes. */
  lemma {:induction false} FilterCountKey<T, K(!new)>(rows: seq<T>, p: T -> bool, key: T -> K, k: K)
    ensures CountKey(Filter(rows, p), key, k) <= CountKey(rows, key, k)
    ensures (forall x :: x in rows && key(x) == k ==> p(x)) ==> CountKey(Filter(rows, p), key, k) == CountKey(rows, key, k)
    decreases |rows|
  {
    if rows != [] {
      var head := [rows[0]];
      var tail := rows[1..];
      assert rows == head + tail;
      FilterCountKey(tail, p, key, k);
      CountKeyConcat(head, tail, key, k);
      var rest := Filter(tail, p);
      if p(rows[0]) {
        CountKeyConcat(head, rest, key, k);
      }
    }
  }

  /** Two selections agreeing on every row select the same rows. */
  lemma {:induction false} FilterExt<T>(rows: seq<T>, p: T -> bool, q: T -> bool)
    requires forall x :: x in rows ==> p(x) == q(x)
    ensures Filter(rows, p) == Filter(rows, q)
    decreases |rows|
  {
    if rows != [] {
      assert forall x :: x in rows[1..] ==> x in rows;
      FilterExt(rows[1..], p, q);
    }
  }

  /** A selection every row passes keeps the frame as it is. */
  lemma {:induction false} FilterAllPass<T>(rows: seq<T>, p: T -> bool)
    requires forall x :: x in rows ==> p(x)
    ensures Filter(rows, p) == rows
    decreases |rows|
  {
    if rows != [] {
      assert forall x :: x in rows[1..] ==> x in rows;
      FilterAllPass(rows[1..], p);
      assert rows == [rows[0]] + rows[1..];
    }
  }

  /** The conjunction of two row conditions. */
  function Both<T>(p: T -> bool, q: T -> bool): T -> bool {
    x => p(x) && q(x)
  }

  /** `drop_duplicates(keep=False)` keeps a key exactly when it occurs once. */
  lemma UniqueKeyRowsHasKey<T, K(!new)>(rows: seq<T>, key: T -> K, k: K)
    ensures HasKey(UniqueKeyRows(rows, key), key, k) <==> CountKey(rows, key, k) == 1
  {
    if CountKey(rows, key, k) == 1 {
      var i :| 0 <= i < |rows| && key(rows[i]) == k;
      UniqueKeyRowsKey(rows, key, rows[i]);
    }
  }

  /** `drop_duplicates(keep=False)` leaves every key at most once. */
  lemma UniqueKeyRowsUnique<T, K(!new)>(rows: seq<T>, key: T -> K)
    ensures UniqueKeys(UniqueKeyRows(rows, key), key)
  {
    var u := UniqueKeyRows(rows, key);
    forall i, j | 0 <= i < j < |u| ensures key(u[i]) != key(u[j]) {
      if key(u[i]) == key(u[j]) {
        CountKeyTwo(u, key, i, j);
        FilterCountKey(rows, x => CountKey(rows, key, key(x)) == 1, key, key(u[i]));
        assert false;
      }
    }
  }

  /** The first row of a key is also the first row of any other key picking
      out the same rows. */
  lemma FirstWithKeySame<T, K(!new), J(!new)>(rows: seq<T>, key: T -> K, k: K, other: T -> J, j: J)
    requires HasKey(rows, key, k)
    requires forall x :: x in rows ==> (key(x) == k <==> other(x) == j)
    ensures HasKey(rows, other, j) && FirstWithKey(rows, key, k) == FirstWithKey(rows, other, j)
  {
    var x := FirstWithKey(rows, key, k);
    var a :| 0 <= a < |rows| && rows[a] == x && forall b :: 0 <= b < a ==> key(rows[b]) != k;
    assert other(rows[a]) == j;
    var y := FirstWithKey(rows, other, j);
    var c :| 0 <= c < |rows| && rows[c] == y && forall b :: 0 <= b < c ==> other(rows[b]) != j;
    assert !(a < c) && !(c < a);
  }

  /** Two rows sharing a coarser key `sub` but not their key leave `sub`
      twice among the first rows per key. */
  lemma FirstPerKeyTwoKeys<T, K(!new), J(!new)>(rows: seq<T>, key: T -> K, sub: T -> J, proj: K -> J, y: T, z: T)
    requires forall x :: sub(x) == proj(key(x))
    requires y in rows && z in rows && key(y) != key(z) && sub(y) == sub(z)
    ensures CountKey(FirstPerKey(rows, key), sub, sub(y)) >= 2
  {
    var fp := FirstPerKey(rows, key);
    var iy :| 0 <= iy < |rows| && rows[iy] == y;
    var iz :| 0 <= iz < |rows| && rows[iz] == z;
    assert HasKey(fp, key, key(y)) && HasKey(fp, key, key(z));
    var a :| 0 <= a < |fp| && key(fp[a]) == key(y);
    var b :| 0 <= b < |fp| && key(fp[b]) == key(z);
    assert sub(fp[a]) == sub(y) && sub(fp[b]) == sub(y) && a != b;
    if a < b {
      CountKeyTwo(fp, sub, a, b);
    } else {
      CountKeyTwo(fp, sub, b, a);
    }
  }

  /** A computed column carrying each row's key has the keys of its rows. */
  lemma MapHasKey<T, U, K(!new)>(rows: seq<T>, f: T -> U, key: T -> K, fkey: U -> K, k: K)
    requires forall x :: fkey(f(x)) == key(x)
    ensures HasKey(Map(rows, f), fkey, k) <==> HasKey(rows, key, k)
  {
    if HasKey(rows, key, k) {
      var i :| 0 <= i < |rows| && key(rows[i]) == k;
      assert fkey(Map(rows, f)[i]) == k;
    }
  }

  /** The first row of a key in a computed column carrying each row's key is
      computed from the first row of that key. */
  lemma FirstWithKeyMap<T, U, K(!new)>(rows: seq<T>, f: T -> U, key: T -> K, fkey: U -> K, k: K)
    requires forall x :: fkey(f(x)) == key(x)
    requires HasKey(rows, key, k)
    ensures HasKey(Map(rows, f), fkey, k) && FirstWithKey(Map(rows, f), fkey, k) == f(FirstWithKey(rows, key, k))
  {
    var x := FirstWithKey(rows, key, k);
    var i :| 0 <= i < |rows| && rows[i] == x && forall j :: 0 <= j < i ==> key(rows[j]) != k;
    FirstWithKeyAt(Map(rows, f), fkey, k, i);
  }

  /** A key that occurs once is carried by its first row only. */
  lemma CountKeyOneFirst<T, K(!new)>(rows: seq<T>, key: T -> K, x: T)
    requires x in rows && CountKey(rows, key, key(x)) == 1
    ensures x == FirstWithKey(rows, key, key(x))
  {
    var f := FirstWithKey(rows, key, key(x));
    var i :| 0 <= i < |rows| && rows[i] == f && forall j :: 0 <= j < i ==> key(rows[j]) != key(x);
    var j :| 0 <= j < |rows| && rows[j] == x;
    if i < j {
      CountKeyTwo(rows, key, i, j);
    }
  }

  /** The first row of a key present in the front of a concatenation is the
      front's first row of that key. */
  lemma FirstWithKeyFrontSame<T, K(!new)>(a: seq<T>, b: seq<T>, key: T -> K, k: K)
    requires HasKey(a, key, k)
    ensures HasKey(a + b, key, k) && FirstWithKey(a + b, key, k) == FirstWithKey(a, key, k)
  {
    var x := FirstWithKey(a, key, k);
    var i :| 0 <= i < |a| && a[i] == x && forall j :: 0 <= j < i ==> key(a[j]) != k;
    assert forall j :: 0 <= j <= i ==> (a + b)[j] == a[j];
    FirstWithKeyAt(a + b, key, k, i);
  }

  /** The row `drop_duplicates(keep='first')` keeps is the first row of its key. */
  lemma FirstPerKeyRow<T, K(!new)>(rows: seq<T>, key: T -> K, x: T)
    requires x in FirstPerKey(rows, key)
    ensures HasKey(rows, key, key(x)) && x == FirstWithKey(rows, key, key(x))
  {
    var r := FirstPerKey(rows, key);
    var i :| 0 <= i < |r| && r[i] == x;
  }

  /** A column filled by a loop appending `f(row)` for every row in order. */
  method MapLoop<T, U>(rows: seq<T>, f: T -> U) returns (values: seq<U>)
    ensures values == Map(rows, f)
  {
    values := [];
    for i := 0 to |rows|
      invariant |values| == i
      invariant forall j :: 0 <= j < i ==> values[j] == f(rows[j])
    {
      values := values + [f(rows[i])];
    }
  }

  /** `pd.concat([sel(v) for v in values])`: one frame per value, in order. */
  function ConcatOver<V, T>(values: seq<V>, sel: V -> seq<T>): seq<T>
  {
    if values == [] then []
    else ConcatOver(values[..|values| - 1], sel) + sel(values[|values| - 1])
  }

  lemma {:induction false} ConcatOverMembership<V, T>(values: seq<V>, sel: V -> seq<T>, x: T)
    ensures x in ConcatOver(values, sel) <==> exists v :: v in values && x in sel(v)
    decreases |values|
  {
    if values != [] {
      var init := values[..|values| - 1];
      ConcatOverMembership(init, sel, x);
      assert values == init + [values[|values| - 1]];
    }
  }

  /** The loop appending `sel(v)` for every value in order. */
  method ConcatLoop<V, T>(values: seq<V>, sel: V -> seq<T>) returns (r: seq<T>)
    ensures r == ConcatOver(values, sel)
  {
    r := [];
    for i := 0 to |values|
      invariant r == ConcatOver(values[..i], sel)
    {
      assert values[..i + 1][..i] == values[..i];
      r := r + sel(values[i]);
    }
    assert values[..|values|] == values;
  }
}
