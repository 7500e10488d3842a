/** The parts of `std::map<std::string, V>` the benchmark relies on: the key
    comparison `std::less<std::string>` (lexicographic, character by
    character, a proper prefix first) and the order in which a range-for
    visits the entries (ascending keys, each key once). */
module StdMap {

  /** `a < b` for `std::string`: the first differing character decides; if one
      string is a prefix of the other, the shorter one comes first. */
  predicate Less(a: string, b: string)
    decreases |a|
  {
    |b| > 0 && (|a| == 0 || a[0] < b[0] || (a[0] == b[0] && Less(a[1..], b[1..])))
  }

  lemma {:induction false} LessIrreflexive(a: string)
    ensures !Less(a, a)
    decreases |a|
  {
    if |a| > 0 {
      LessIrreflexive(a[1..]);
    }
  }

  lemma {:induction false} LessTransitive(a: string, b: string, c: string)
    requires Less(a, b) && Less(b, c)
    ensures Less(a, c)
    decreases |a|
  {
    if |a| > 0 && a[0] == b[0] && b[0] == c[0] {
      LessTransitive(a[1..], b[1..], c[1..]);
    }
  }

  /** Two strings that agree on their first `k` characters and differ at
      position `k` are ordered by that character. */
  lemma {:induction false} LessAt(a: string, b: string, k: nat)
    requires k < |a| && k < |b|
    requires a[..k] == b[..k] && a[k] < b[k]
    ensures Less(a, b)
    decreases k
  {
    if k > 0 {
      assert a[0] == a[..k][0] && b[0] == b[..k][0];
      assert a[1..][..k - 1] == a[..k][1..] && b[1..][..k - 1] == b[..k][1..];
      LessAt(a[1..], b[1..], k - 1);
    }
  }

  /** Every earlier key is strictly less than every later one. */
  predicate StrictlySorted(keys: seq<string>)
  {
    forall i, j :: 0 <= i < j < |keys| ==> Less(keys[i], keys[j])
  }

  /** `keys` is the sequence of keys that `for (const auto& kv : m)` visits. */
  predicate IsIterationOrder<V>(keys: seq<string>, m: map<string, V>)
  {
    && StrictlySorted(keys)
    && (forall k :: k in keys ==> k in m)
    && (forall k :: k in m ==> k in keys)
  }

  /** Strict sortedness can be checked on neighbours only. */
  lemma {:induction false} SortedFromNeighbours(keys: seq<string>)
    requires forall i :: 0 <= i < |keys| - 1 ==> Less(keys[i], keys[i + 1])
    ensures StrictlySorted(keys)
    decreases |keys|
  {
    if |keys| > 1 {
      var tail := keys[1..];
      assert forall i :: 0 <= i < |tail| - 1 ==> Less(tail[i], tail[i + 1]) by {
        forall i | 0 <= i < |tail| - 1
          ensures Less(tail[i], tail[i + 1])
        {
          assert tail[i] == keys[i + 1] && tail[i + 1] == keys[i + 2];
        }
      }
      SortedFromNeighbours(tail);
      forall i, j | 0 <= i < j < |keys|
        ensures Less(keys[i], keys[j])
      {
        if i == 0 && j > 1 {
          assert keys[1] == tail[0] && keys[j] == tail[j - 1];
          LessTransitive(keys[0], keys[1], keys[j]);
        } else if i > 0 {
          assert keys[i] == tail[i - 1] && keys[j] == tail[j - 1];
        }
      }
    }
  }

  /** A strictly sorted sequence has no repeated key. */
  lemma SortedDistinct(keys: seq<string>, i: int, j: int)
    requires StrictlySorted(keys)
    requires 0 <= i < |keys| && 0 <= j < |keys| && i != j
    ensures keys[i] != keys[j]
  {
    if i < j {
      LessIrreflexive(keys[i]);
    } else {
      LessIrreflexive(keys[j]);
    }
  }

  /** The first element of a non-empty sequence is one of its elements. */
  lemma HeadIsMember(s: seq<string>)
    requires |s| > 0
    ensures s[0] in s
  {
  }

  /** Two strictly sorted sequences with the same elements are equal: a set of
      keys has exactly one ascending enumeration. */
  lemma {:induction false} SortedEnumerationUnique(a: seq<string>, b: seq<string>)
    requires StrictlySorted(a) && StrictlySorted(b)
    requires forall k :: k in a <==> k in b
    ensures a == b
    decreases |a|
  {
    if |a| == 0 {
      if |b| > 0 {
        HeadIsMember(b);
        assert false;
      }
    } else {
      assert a[0] in b;
      assert |b| > 0;
      var j :| 0 <= j < |b| && b[j] == a[0];
      assert b[0] in a;
      var i :| 0 <= i < |a| && a[i] == b[0];
      if i > 0 && j > 0 {
        // a[0] < a[i] == b[0] < b[j] == a[0]
        LessTransitive(a[0], a[i], b[j]);
        LessIrreflexive(a[0]);
      } else if i > 0 {
        SortedDistinct(a, 0, i);
      } else if j > 0 {
        SortedDistinct(b, 0, j);
      }
      assert a[0] == b[0];
      var ta, tb := a[1..], b[1..];
      forall k
        ensures k in ta <==> k in tb
      {
        if k in ta {
          var x :| 0 <= x < |ta| && ta[x] == k;
          SortedDistinct(a, 0, x + 1);
          assert k in b;
          var y :| 0 <= y < |b| && b[y] == k;
          assert y != 0;
          assert b[y] == tb[y - 1];
        }
        if k in tb {
          var y :| 0 <= y < |tb| && tb[y] == k;
          SortedDistinct(b, 0, y + 1);
          assert k in a;
          var x :| 0 <= x < |a| && a[x] == k;
          assert x != 0;
          assert a[x] == ta[x - 1];
        }
      }
      SortedEnumerationUnique(ta, tb);
      assert a == [a[0]] + ta && b == [b[0]] + tb;
    }
  }

  /** The visiting order of a map is determined by the map alone. */
  lemma IterationOrderUnique<V>(a: seq<string>, b: seq<string>, m: map<string, V>)
    requires IsIterationOrder(a, m) && IsIterationOrder(b, m)
    ensures a == b
  {
    SortedEnumerationUnique(a, b);
  }

  /** A range-for over a map visits exactly as many entries as the map holds. */
  lemma {:induction false} IterationOrderLength<V>(keys: seq<string>, m: map<string, V>)
    requires IsIterationOrder(keys, m)
    ensures |keys| == |m|
  {
    SortedIsDistinct(keys);
    DistinctCard(keys);
    assert (set k | k in keys) == m.Keys;
  }

  /** No key occurs twice. */
  predicate Distinct<T(==)>(xs: seq<T>)
  {
    forall i, j :: 0 <= i < j < |xs| ==> xs[i] != xs[j]
  }

  lemma SortedIsDistinct(keys: seq<string>)
    requires StrictlySorted(keys)
    ensures Distinct(keys)
  {
    forall i, j | 0 <= i < j < |keys|
      ensures keys[i] != keys[j]
    {
      SortedDistinct(keys, i, j);
    }
  }

  lemma {:induction false} DistinctCard<T>(xs: seq<T>)
    requires Distinct(xs)
    ensures |set x | x in xs| == |xs|
    decreases |xs|
  {
    if |xs| > 0 {
      var tail := xs[1..];
      assert Distinct(tail) by {
        forall i, j | 0 <= i < j < |tail|
          ensures tail[i] != tail[j]
        {
          assert tail[i] == xs[i + 1] && tail[j] == xs[j + 1];
        }
      }
      DistinctCard(tail);
      assert xs[0] !in tail by {
        forall x | 0 <= x < |tail|
          ensures tail[x] != xs[0]
        {
          assert tail[x] == xs[x + 1];
        }
      }
      assert (set x | x in xs) == (set x | x in tail) + {xs[0]} by {
        assert xs == [xs[0]] + tail;
      }
    }
  }
}
