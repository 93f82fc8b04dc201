/** The dictionary merge used to accumulate update maps across cycles. */
module Dicts {

  /** `r` is the right-biased union of `a` and `b`: the keys of both, with
      `b`'s value on a shared key. An independent characterisation of Merge. */
  ghost predicate RightBiasedUnion<K, V>(a: map<K, V>, b: map<K, V>, r: map<K, V>) {
    && r.Keys == a.Keys + b.Keys
    && (forall k :: k in b ==> k in r && r[k] == b[k])
    && (forall k :: k in a && k !in b ==> k in r && r[k] == a[k])
  }

  /** `_merge_dict`: a copy of `original` updated with `incoming`. The
      argument maps are values, so `original` is left as it was. */
  function Merge<K, V>(original: map<K, V>, incoming: map<K, V>): (r: map<K, V>)
    ensures r.Keys == original.Keys + incoming.Keys
    ensures forall k :: k in incoming ==> r[k] == incoming[k]
    ensures forall k :: k in original && k !in incoming ==> r[k] == original[k]
  {
    original + incoming
  }

  /** Merge is exactly the right-biased union: no other map satisfies it. */
  lemma MergeIsRightBiasedUnion<K, V>(a: map<K, V>, b: map<K, V>, r: map<K, V>)
    ensures RightBiasedUnion(a, b, r) <==> r == Merge(a, b)
  {
    if RightBiasedUnion(a, b, r) {
      var m := Merge(a, b);
      assert r.Keys == m.Keys;
      forall k | k in r
        ensures r[k] == m[k]
      {
        if k in b {
        } else {
          assert k in a;
        }
      }
    }
  }

  /** The empty map is a left and right identity of Merge. */
  lemma MergeIdentity<K, V>(a: map<K, V>)
    ensures Merge(map[], a) == a
    ensures Merge(a, map[]) == a
  {
  }

  /** Merge is associative, so folding it over cycles from either end agrees. */
  lemma MergeAssociative<K, V>(a: map<K, V>, b: map<K, V>, c: map<K, V>)
    ensures Merge(Merge(a, b), c) == Merge(a, Merge(b, c))
  {
  }

  /** The union of a sequence of maps in which later maps win. */
  function MergeAll<K, V>(ms: seq<map<K, V>>): map<K, V>
  {
    if |ms| == 0 then map[] else Merge(ms[0], MergeAll(ms[1..]))
  }

  /** Folding one more map in from the right is a single Merge: this is how
      the loop accumulates `updates` cycle by cycle. */
  lemma {:induction false} MergeAllSnoc<K, V>(ms: seq<map<K, V>>, m: map<K, V>)
    ensures MergeAll(ms + [m]) == Merge(MergeAll(ms), m)
  {
    if |ms| == 0 {
      assert ms + [m] == [m];
      assert [m][1..] == [];
    } else {
      assert (ms + [m])[1..] == ms[1..] + [m];
      MergeAllSnoc(ms[1..], m);
      MergeAssociative(ms[0], MergeAll(ms[1..]), m);
    }
  }

  /** A key is in the union iff some map holds it, and its value comes from
      the last map that holds it. */
  lemma {:induction false} MergeAllLastWins<K, V>(ms: seq<map<K, V>>, k: K)
    ensures k in MergeAll(ms) <==> exists i :: 0 <= i < |ms| && k in ms[i]
    ensures k in MergeAll(ms) ==>
      exists i :: 0 <= i < |ms| && k in ms[i] && MergeAll(ms)[k] == ms[i][k]
        && forall j :: i < j < |ms| ==> k !in ms[j]
  {
    if |ms| > 0 {
      MergeAllLastWins(ms[1..], k);
      var rest := MergeAll(ms[1..]);
      if k in rest {
        var i :| 0 <= i < |ms[1..]| && k in ms[1..][i] && rest[k] == ms[1..][i][k]
          && forall j :: i < j < |ms[1..]| ==> k !in ms[1..][j];
        assert k in ms[i + 1] && MergeAll(ms)[k] == ms[i + 1][k];
        forall j | i + 1 < j < |ms|
          ensures k !in ms[j]
        {
          assert ms[j] == ms[1..][j - 1];
        }
      } else if k in ms[0] {
        forall j | 0 < j < |ms|
          ensures k !in ms[j]
        {
          assert ms[j] == ms[1..][j - 1];
        }
      } else {
        forall i | 0 <= i < |ms|
          ensures k !in ms[i]
        {
          if i > 0 {
            assert ms[i] == ms[1..][i - 1];
          }
        }
      }
    }
  }
}
