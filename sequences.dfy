/** Sequence helpers: first-occurrence de-duplication, as Kotlin's `distinctBy`
    computes it, and the facts the other modules need about it. */
module Sequences {

  /** The keys of `s`, in order. */
  function Keys<T, K>(s: seq<T>, key: T -> K): (r: seq<K>)
    ensures |r| == |s|
    ensures forall i :: 0 <= i < |s| ==> r[i] == key(s[i])
  {
    if s == [] then [] else [key(s[0])] + Keys(s[1..], key)
  }

  /** No two elements of `s` share a key. */
  predicate UniqueBy<T, K(==)>(s: seq<T>, key: T -> K) {
    forall i, j :: 0 <= i < j < |s| ==> key(s[i]) != key(s[j])
  }

  /** Elements of `s` whose key occurs nowhere in `seen`, each kept at its first
      occurrence: Kotlin's `distinctBy`, run with the keys in `seen` already used. */
  function DistinctFrom<T, K(==)>(s: seq<T>, key: T -> K, seen: set<K>): seq<T>
    decreases |s|
  {
    if s == [] then []
    else if key(s[0]) in seen then DistinctFrom(s[1..], key, seen)
    else [s[0]] + DistinctFrom(s[1..], key, seen + {key(s[0])})
  }

  /** `s.distinctBy(key)`: the first element with each key, in input order. */
  function DistinctBy<T, K(==)>(s: seq<T>, key: T -> K): seq<T> {
    DistinctFrom(s, key, {})
  }

  /** The result of DistinctFrom is a subsequence of the input: its elements
      occur in the input at strictly increasing positions. */
  ghost predicate SubsequenceAt<T>(r: seq<T>, s: seq<T>, pos: seq<nat>) {
    |pos| == |r| &&
    (forall k :: 0 <= k < |pos| ==> pos[k] < |s| && s[pos[k]] == r[k]) &&
    (forall k, l :: 0 <= k < l < |pos| ==> pos[k] < pos[l])
  }

  function Shift(pos: seq<nat>): (r: seq<nat>)
    ensures |r| == |pos|
    ensures forall k :: 0 <= k < |pos| ==> r[k] == pos[k] + 1
  {
    if pos == [] then [] else [pos[0] + 1] + Shift(pos[1..])
  }

  /** Every kept element is new, keys of kept elements are unique, and the
      kept elements are exactly the inputs whose key had not been seen earlier. */
  lemma {:induction false} DistinctFromSpec<T, K>(s: seq<T>, key: T -> K, seen: set<K>)
    ensures var r := DistinctFrom(s, key, seen);
      UniqueBy(r, key) &&
      (forall i :: 0 <= i < |r| ==> key(r[i]) !in seen) &&
      (forall x :: x in r ==> x in s) &&
      (forall i :: 0 <= i < |s| && key(s[i]) !in seen ==>
         exists j :: 0 <= j < |r| && key(r[j]) == key(s[i])) &&
      |r| <= |s|
    decreases |s|
  {
    if s != [] {
      var k0 := key(s[0]);
      if k0 in seen {
        DistinctFromSpec(s[1..], key, seen);
        var r := DistinctFrom(s, key, seen);
        forall i | 0 <= i < |s| && key(s[i]) !in seen
          ensures exists j :: 0 <= j < |r| && key(r[j]) == key(s[i])
        {
          assert i != 0;
          assert s[i] == s[1..][i - 1];
        }
        forall x | x in r ensures x in s {
          assert x in s[1..];
        }
      } else {
        DistinctFromSpec(s[1..], key, seen + {k0});
        var tail := DistinctFrom(s[1..], key, seen + {k0});
        var r := DistinctFrom(s, key, seen);
        assert r == [s[0]] + tail;
        forall i, j | 0 <= i < j < |r| ensures key(r[i]) != key(r[j]) {
          if i > 0 {
            assert r[i] == tail[i - 1] && r[j] == tail[j - 1];
          } else {
            assert r[j] == tail[j - 1];
          }
        }
        forall i | 0 <= i < |s| && key(s[i]) !in seen
          ensures exists j :: 0 <= j < |r| && key(r[j]) == key(s[i])
        {
          if i == 0 {
            assert key(r[0]) == key(s[0]);
          } else if key(s[i]) == k0 {
            assert key(r[0]) == key(s[i]);
          } else {
            assert s[i] == s[1..][i - 1];
            var j :| 0 <= j < |tail| && key(tail[j]) == key(s[i]);
            assert key(r[j + 1]) == key(s[i]);
          }
        }
        forall x | x in r ensures x in s {
          if x != s[0] {
            assert x in tail;
            assert x in s[1..];
          }
        }
      }
    }
  }

  /** The kept elements appear in the input in the same relative order. */
  lemma {:induction false} DistinctFromOrder<T, K>(s: seq<T>, key: T -> K, seen: set<K>)
    ensures exists pos :: SubsequenceAt(DistinctFrom(s, key, seen), s, pos)
    decreases |s|
  {
    var r := DistinctFrom(s, key, seen);
    if s == [] {
      assert SubsequenceAt(r, s, []);
    } else if key(s[0]) in seen {
      DistinctFromOrder(s[1..], key, seen);
      var p :| SubsequenceAt(r, s[1..], p);
      var q := Shift(p);
      forall k | 0 <= k < |q| ensures q[k] < |s| && s[q[k]] == r[k] {
        assert s[1..][p[k]] == s[p[k] + 1];
      }
      assert SubsequenceAt(r, s, q);
    } else {
      var tail := DistinctFrom(s[1..], key, seen + {key(s[0])});
      DistinctFromOrder(s[1..], key, seen + {key(s[0])});
      var p :| SubsequenceAt(tail, s[1..], p);
      var q := [0] + Shift(p);
      assert r == [s[0]] + tail;
      forall k | 0 <= k < |q| ensures q[k] < |s| && s[q[k]] == r[k] {
        if k > 0 {
          assert s[1..][p[k - 1]] == s[p[k - 1] + 1];
        }
      }
      assert SubsequenceAt(r, s, q);
    }
  }

  /** Input already free of duplicate keys is returned unchanged. */
  lemma {:induction false} DistinctFromUnique<T, K>(s: seq<T>, key: T -> K, seen: set<K>)
    requires UniqueBy(s, key)
    requires forall i :: 0 <= i < |s| ==> key(s[i]) !in seen
    ensures DistinctFrom(s, key, seen) == s
    decreases |s|
  {
    if s != [] {
      forall i | 0 <= i < |s[1..]| ensures key(s[1..][i]) !in seen + {key(s[0])} {
        assert s[1..][i] == s[i + 1];
      }
      assert UniqueBy(s[1..], key) by {
        forall i, j | 0 <= i < j < |s[1..]| ensures key(s[1..][i]) != key(s[1..][j]) {
          assert s[1..][i] == s[i + 1] && s[1..][j] == s[j + 1];
        }
      }
      DistinctFromUnique(s[1..], key, seen + {key(s[0])});
    }
  }

  /** Each kept element is the first element of the input with its key. */
  lemma {:induction false} DistinctFromFirst<T, K>(s: seq<T>, key: T -> K, seen: set<K>, j: nat)
    requires j < |DistinctFrom(s, key, seen)|
    ensures exists i :: 0 <= i < |s| && s[i] == DistinctFrom(s, key, seen)[j] &&
                        (forall i' :: 0 <= i' < i ==> key(s[i']) != key(s[i]))
    decreases |s|
  {
    var r := DistinctFrom(s, key, seen);
    var x := r[j];
    var k0 := key(s[0]);
    if k0 !in seen && j == 0 {
      assert s[0] == x;
    } else {
      var seen' := if k0 in seen then seen else seen + {k0};
      var tail := DistinctFrom(s[1..], key, seen');
      var j' := if k0 in seen then j else j - 1;
      assert tail[j'] == x;
      DistinctFromFirst(s[1..], key, seen', j');
      DistinctFromSpec(s[1..], key, seen');
      var i :| 0 <= i < |s[1..]| && s[1..][i] == x &&
        forall i' :: 0 <= i' < i ==> key(s[1..][i']) != key(s[1..][i]);
      assert key(x) != k0 by {
        assert key(tail[j']) !in seen';
        if k0 in seen {
          DistinctFromSpec(s, key, seen);
          assert key(r[j]) !in seen;
        }
      }
      forall i' | 0 <= i' < i + 1 ensures key(s[i']) != key(s[i + 1]) {
        if i' > 0 {
          assert s[i'] == s[1..][i' - 1];
        }
      }
    }
  }

  /** The keys of the kept elements. */
  function KeySet<T, K>(r: seq<T>, key: T -> K): set<K> {
    set i | 0 <= i < |r| :: key(r[i])
  }

  /** De-duplicating one more element appends it exactly when its key is new. */
  lemma {:induction false} DistinctFromSnoc<T, K>(s: seq<T>, x: T, key: T -> K, seen: set<K>)
    ensures DistinctFrom(s + [x], key, seen) ==
      DistinctFrom(s, key, seen) +
      (if key(x) in seen || key(x) in KeySet(DistinctFrom(s, key, seen), key) then [] else [x])
    decreases |s|
  {
    if s == [] {
      assert [x][1..] == [];
    } else {
      assert (s + [x])[1..] == s[1..] + [x];
      var k0 := key(s[0]);
      var seen' := if k0 in seen then seen else seen + {k0};
      DistinctFromSnoc(s[1..], x, key, seen');
      var tail := DistinctFrom(s[1..], key, seen');
      var r := DistinctFrom(s, key, seen);
      if k0 in seen {
        assert r == tail;
      } else {
        assert r == [s[0]] + tail;
        assert KeySet(r, key) == {k0} + KeySet(tail, key) by {
          forall y | y in KeySet(r, key) ensures y in {k0} + KeySet(tail, key) {
            var i :| 0 <= i < |r| && key(r[i]) == y;
            if i > 0 { assert r[i] == tail[i - 1]; } else { assert r[0] == s[0]; }
          }
          assert r[0] == s[0] && key(r[0]) == k0;
          forall y | y in KeySet(tail, key) ensures y in KeySet(r, key) {
            var i :| 0 <= i < |tail| && key(tail[i]) == y;
            assert r[i + 1] == tail[i];
          }
        }
      }
    }
  }

  /** `distinctBy` keeps the first element of each key, drops every later one,
      and applying it twice changes nothing more. */
  lemma DistinctBySpec<T, K>(s: seq<T>, key: T -> K)
    ensures UniqueBy(DistinctBy(s, key), key)
    ensures forall x :: x in DistinctBy(s, key) ==> x in s
    ensures forall i :: 0 <= i < |s| ==>
      exists j :: 0 <= j < |DistinctBy(s, key)| && key(DistinctBy(s, key)[j]) == key(s[i])
    ensures exists pos :: SubsequenceAt(DistinctBy(s, key), s, pos)
    ensures DistinctBy(DistinctBy(s, key), key) == DistinctBy(s, key)
    ensures forall j :: 0 <= j < |DistinctBy(s, key)| ==>
      exists i :: 0 <= i < |s| && s[i] == DistinctBy(s, key)[j] &&
                  forall i' :: 0 <= i' < i ==> key(s[i']) != key(s[i])
  {
    DistinctFromSpec(s, key, {});
    DistinctFromOrder(s, key, {});
    DistinctFromUnique(DistinctBy(s, key), key, {});
    forall j | 0 <= j < |DistinctBy(s, key)|
      ensures exists i :: 0 <= i < |s| && s[i] == DistinctBy(s, key)[j] &&
                          forall i' :: 0 <= i' < i ==> key(s[i']) != key(s[i])
    {
      DistinctFromFirst(s, key, {}, j);
    }
  }

  /** A list equals its own `distinctBy` exactly when its keys are unique. */
  lemma DistinctByFixedIffUnique<T, K>(s: seq<T>, key: T -> K)
    ensures DistinctBy(s, key) == s <==> UniqueBy(s, key)
  {
    DistinctBySpec(s, key);
    if UniqueBy(s, key) {
      DistinctFromUnique(s, key, {});
    }
  }

  function Reverse<T>(s: seq<T>): (r: seq<T>)
    ensures |r| == |s|
    ensures forall i :: 0 <= i < |s| ==> r[i] == s[|s| - 1 - i]
  {
    if s == [] then [] else Reverse(s[1..]) + [s[0]]
  }

  /**
   * `LastBy` keeps, for each key, its last element, in the order of those
   * last elements.
   */
  function LastBy<T, K(==)>(s: seq<T>, key: T -> K): seq<T> {
    Reverse(DistinctBy(Reverse(s), key))
  }

  lemma LastBySpec<T, K>(s: seq<T>, key: T -> K)
    ensures UniqueBy(LastBy(s, key), key)
    ensures forall i :: 0 <= i < |s| ==>
      exists j :: 0 <= j < |LastBy(s, key)| && key(LastBy(s, key)[j]) == key(s[i])
    ensures forall j :: 0 <= j < |LastBy(s, key)| ==> IsLastWithKey(s, key, LastBy(s, key)[j])
    ensures exists pos :: SubsequenceAt(LastBy(s, key), s, pos)
  {
    LastByUnique(s, key);
    LastByCovers(s, key);
    LastByOrder(s, key);
    forall j | 0 <= j < |LastBy(s, key)| ensures IsLastWithKey(s, key, LastBy(s, key)[j]) {
      LastByKeepsLast(s, key, j);
    }
  }

  /** The kept elements stand in the input's order. */
  lemma LastByOrder<T, K>(s: seq<T>, key: T -> K)
    ensures exists pos :: SubsequenceAt(LastBy(s, key), s, pos)
  {
    var rs := Reverse(s);
    var d := DistinctBy(rs, key);
    var r := LastBy(s, key);
    DistinctFromOrder(rs, key, {});
    var q :| SubsequenceAt(d, rs, q);
    var pos := seq(|d|, k requires 0 <= k < |d| => |s| - 1 - q[|d| - 1 - k]);
    forall k | 0 <= k < |pos| ensures pos[k] < |s| && s[pos[k]] == r[k] {
      assert rs[q[|d| - 1 - k]] == s[pos[k]];
    }
    assert SubsequenceAt(r, s, pos);
  }

  /** `x` occurs in `s` at a position after which no element has its key. */
  ghost predicate IsLastWithKey<T, K>(s: seq<T>, key: T -> K, x: T) {
    exists i :: 0 <= i < |s| && s[i] == x && (forall i' :: i < i' < |s| ==> key(s[i']) != key(x))
  }

  lemma LastByUnique<T, K>(s: seq<T>, key: T -> K)
    ensures UniqueBy(LastBy(s, key), key)
  {
    var d := DistinctBy(Reverse(s), key);
    assert UniqueBy(d, key) by {
      DistinctBySpec(Reverse(s), key);
    }
    ReverseUnique(d, key);
  }

  lemma ReverseUnique<T, K>(d: seq<T>, key: T -> K)
    requires UniqueBy(d, key)
    ensures UniqueBy(Reverse(d), key)
  {
    var r := Reverse(d);
    forall i, j | 0 <= i < j < |r| ensures key(r[i]) != key(r[j]) {
      assert r[i] == d[|d| - 1 - i] && r[j] == d[|d| - 1 - j];
    }
  }

  lemma LastByCovers<T, K>(s: seq<T>, key: T -> K)
    ensures forall i :: 0 <= i < |s| ==>
      exists j :: 0 <= j < |LastBy(s, key)| && key(LastBy(s, key)[j]) == key(s[i])
  {
    var rs := Reverse(s);
    var d := DistinctBy(rs, key);
    var r := LastBy(s, key);
    DistinctBySpec(rs, key);
    forall i | 0 <= i < |s| ensures exists j :: 0 <= j < |r| && key(r[j]) == key(s[i]) {
      assert rs[|s| - 1 - i] == s[i];
      var j :| 0 <= j < |d| && key(d[j]) == key(rs[|s| - 1 - i]);
      assert r[|d| - 1 - j] == d[j];
    }
  }

  lemma LastByKeepsLast<T, K>(s: seq<T>, key: T -> K, j: nat)
    requires j < |LastBy(s, key)|
    ensures IsLastWithKey(s, key, LastBy(s, key)[j])
  {
    var rs := Reverse(s);
    var d := DistinctBy(rs, key);
    var r := LastBy(s, key);
    var jd := |d| - 1 - j;
    assert r[j] == d[jd];
    DistinctFromFirst(rs, key, {}, jd);
    var ir :| 0 <= ir < |rs| && rs[ir] == d[jd] &&
              (forall i' :: 0 <= i' < ir ==> key(rs[i']) != key(rs[ir]));
    var i := |s| - 1 - ir;
    assert s[i] == rs[ir];
    forall i' | i < i' < |s| ensures key(s[i']) != key(r[j]) {
      assert s[i'] == rs[|s| - 1 - i'];
    }
  }
}
