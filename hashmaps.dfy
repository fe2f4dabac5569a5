/** Orders in which a Rust `HashMap` may be iterated, and the values and keys
    visited along such an order. The order is unspecified, so the scheduler's
    operations are stated for every order that lists each key once. */
module HashMaps {

  /** No element of `s` occurs twice. */
  ghost predicate Distinct<T>(s: seq<T>)
  {
    forall i, j :: 0 <= i < j < |s| ==> s[i] != s[j]
  }

  /** `order` lists every key of `keys` exactly once: one order a HashMap may
      iterate in. */
  ghost predicate IsEnumeration(order: seq<nat>, keys: set<nat>)
  {
    && Distinct(order)
    && (forall i :: 0 <= i < |order| ==> order[i] in keys)
    && (forall k :: k in keys ==> k in order)
  }

  /** The values of `m` taken in the order `order`. */
  function Pick<V>(m: map<nat, V>, order: seq<nat>): (r: seq<V>)
    requires forall i :: 0 <= i < |order| ==> order[i] in m
    ensures |r| == |order| && forall i :: 0 <= i < |order| ==> r[i] == m[order[i]]
  {
    seq(|order|, i requires 0 <= i < |order| => m[order[i]])
  }

  /** Picking along two orders one after the other. */
  lemma PickAppend<V>(m: map<nat, V>, a: seq<nat>, b: seq<nat>)
    requires forall i :: 0 <= i < |a| ==> a[i] in m
    requires forall i :: 0 <= i < |b| ==> b[i] in m
    ensures Pick(m, a + b) == Pick(m, a) + Pick(m, b)
  {
    assert forall i :: 0 <= i < |a + b| ==> (a + b)[i] in m by {
      forall i | 0 <= i < |a + b| ensures (a + b)[i] in m {
        if i >= |a| { assert (a + b)[i] == b[i - |a|]; }
      }
    }
  }

  /** Two maps that agree on the keys of `order` give the same values along it. */
  lemma PickAgree<V>(m: map<nat, V>, m': map<nat, V>, order: seq<nat>)
    requires forall i :: 0 <= i < |order| ==> order[i] in m && order[i] in m' && m[order[i]] == m'[order[i]]
    ensures Pick(m, order) == Pick(m', order)
  {
  }

  /** The order a HashMap with keys `keys` is iterated in: some order, each key once. */
  method IterationOrder(keys: set<nat>) returns (order: seq<nat>)
    ensures IsEnumeration(order, keys)
  {
    order := [];
    var remaining := keys;
    while remaining != {}
      invariant remaining <= keys
      invariant IsEnumeration(order, keys - remaining)
      decreases |remaining|
    {
      var k :| k in remaining;
      EnumerationJoin(order, keys - remaining, [k], {k});
      order := order + [k];
      assert keys - remaining + {k} == keys - (remaining - {k});
      remaining := remaining - {k};
    }
    assert keys - {} == keys;
  }

  /** Appending one more value to a list extended by picked values. */
  lemma PickSnoc<V>(front: seq<V>, m: map<nat, V>, t: seq<nat>, x: nat)
    requires x in m && forall i :: 0 <= i < |t| ==> t[i] in m
    ensures front + Pick(m, t) + [m[x]] == front + Pick(m, t + [x])
  {
    PickAppend(m, t, [x]);
  }

  /** Every finite set of keys can be listed once each. */
  lemma {:induction false} EnumerationExists(keys: set<nat>)
    ensures exists order :: IsEnumeration(order, keys)
    decreases |keys|
  {
    if keys == {} {
      assert IsEnumeration([], keys);
    } else {
      var k :| k in keys;
      EnumerationExists(keys - {k});
      var rest :| IsEnumeration(rest, keys - {k});
      assert IsEnumeration([k] + rest, keys) by {
        forall i | 0 <= i < |[k] + rest| ensures ([k] + rest)[i] in keys {
          if i > 0 { assert ([k] + rest)[i] == rest[i - 1]; }
        }
        forall x | x in keys ensures x in [k] + rest {
          if x != k { assert x in rest; }
        }
      }
    }
  }

  /** Enumerations of two disjoint key sets, one after the other, enumerate their union. */
  lemma EnumerationJoin(a: seq<nat>, s: set<nat>, b: seq<nat>, t: set<nat>)
    requires IsEnumeration(a, s) && IsEnumeration(b, t) && s !! t
    ensures IsEnumeration(a + b, s + t)
  {
    var c := a + b;
    forall i, j | 0 <= i < j < |c| ensures c[i] != c[j] {
      if j < |a| {
      } else if i >= |a| {
        assert c[i] == b[i - |a|] && c[j] == b[j - |a|];
      } else {
        assert c[i] == a[i] && c[j] == b[j - |a|];
        assert c[i] in s && c[j] in t;
      }
    }
    forall i | 0 <= i < |c| ensures c[i] in s + t {
      if i >= |a| { assert c[i] == b[i - |a|]; }
    }
  }

  /** The elements of `s` as a set. */
  ghost function Elems(s: seq<nat>): set<nat>
  {
    set x | x in s
  }

  /** A prefix one longer is the prefix and the next element. */
  lemma PrefixSnoc<T>(s: seq<T>, i: nat)
    requires i < |s|
    ensures s[..i + 1] == s[..i] + [s[i]]
  {
  }

  /** Appending `x` adds `x` to the elements. */
  lemma ElemsSnoc(s: seq<nat>, x: nat)
    ensures Elems(s + [x]) == Elems(s) + {x}
  {
  }

  /** Removing the ids of `t` and then `x` from a map removes those of `t + [x]`. */
  lemma MinusSnoc<V>(m: map<nat, V>, t: seq<nat>, x: nat)
    ensures m - Elems(t) - {x} == m - Elems(t + [x])
  {
    ElemsSnoc(t, x);
  }
}
