/**
 * Byte strings and the engine's key order: bytewise lexicographic comparison
 * in which a proper prefix sorts first (Go's bytes.Compare).
 */
module Bytes {

  newtype byte = x: int | 0 <= x < 256

  type Bytes = seq<byte>

  /** `bytes.Compare(a, b) <= 0` */
  predicate LessEq(a: Bytes, b: Bytes)
    decreases |a|
  {
    |a| == 0 || (|b| != 0 && (a[0] < b[0] || (a[0] == b[0] && LessEq(a[1..], b[1..]))))
  }

  /** `bytes.Compare(a, b) < 0` */
  predicate Less(a: Bytes, b: Bytes)
  {
    LessEq(a, b) && a != b
  }

  lemma {:induction false} Reflexive(a: Bytes)
    ensures LessEq(a, a)
  {
    if |a| != 0 {
      Reflexive(a[1..]);
    }
  }

  lemma {:induction false} Antisymmetric(a: Bytes, b: Bytes)
    requires LessEq(a, b) && LessEq(b, a)
    ensures a == b
  {
    if |a| != 0 && |b| != 0 {
      Antisymmetric(a[1..], b[1..]);
      assert a == [a[0]] + a[1..] && b == [b[0]] + b[1..];
    }
  }

  lemma {:induction false} Transitive(a: Bytes, b: Bytes, c: Bytes)
    requires LessEq(a, b) && LessEq(b, c)
    ensures LessEq(a, c)
  {
    if |a| != 0 && a[0] == b[0] && b[0] == c[0] {
      Transitive(a[1..], b[1..], c[1..]);
    }
  }

  lemma {:induction false} Total(a: Bytes, b: Bytes)
    ensures LessEq(a, b) || LessEq(b, a)
  {
    if |a| != 0 && |b| != 0 && a[0] == b[0] {
      Total(a[1..], b[1..]);
    }
  }

  /** Strictly ascending: every key is below every later key. */
  predicate Ascending(s: seq<Bytes>)
  {
    forall i, j {:trigger Less(s[i], s[j])} :: 0 <= i < j < |s| ==> Less(s[i], s[j])
  }

  /** `m` is at or below every key of `ks`. */
  predicate IsLeast(m: Bytes, ks: set<Bytes>)
  {
    forall k :: k in ks ==> LessEq(m, k)
  }

  lemma {:induction false} LeastExists(ks: set<Bytes>)
    requires ks != {}
    ensures exists m :: m in ks && IsLeast(m, ks)
    decreases ks
  {
    var x :| x in ks;
    Reflexive(x);
    if ks != {x} {
      LeastExists(ks - {x});
      var m :| m in ks - {x} && IsLeast(m, ks - {x});
      Total(x, m);
      if LessEq(x, m) {
        forall k | k in ks ensures LessEq(x, k) {
          if k != x {
            Transitive(x, m, k);
          }
        }
      } else {
        assert m in ks && IsLeast(m, ks);
      }
    }
  }

  lemma LeastUnique(ks: set<Bytes>)
    ensures forall m, n :: m in ks && n in ks && IsLeast(m, ks) && IsLeast(n, ks) ==> m == n
  {
    forall m, n | m in ks && n in ks && IsLeast(m, ks) && IsLeast(n, ks) ensures m == n {
      Antisymmetric(m, n);
    }
  }

  /** The smallest key of a non-empty set. */
  function Least(ks: set<Bytes>): (m: Bytes)
    requires ks != {}
    ensures m in ks && IsLeast(m, ks)
  {
    LeastExists(ks);
    LeastUnique(ks);
    var m :| m in ks && IsLeast(m, ks); m
  }

  /** The keys of `ks` in ascending order, each once. */
  function SortSet(ks: set<Bytes>): (r: seq<Bytes>)
    ensures Ascending(r)
    ensures forall k :: k in r <==> k in ks
    ensures |r| == |ks|
    decreases ks
  {
    if ks == {} then []
    else
      var m := Least(ks);
      var rest := SortSet(ks - {m});
      assert forall j :: 0 <= j < |rest| ==> Less(m, rest[j]);
      [m] + rest
  }

  /** A strictly ascending sequence is determined by the keys it holds. */
  lemma {:induction false} AscendingUnique(s: seq<Bytes>, t: seq<Bytes>)
    requires Ascending(s) && Ascending(t)
    requires forall k :: k in s <==> k in t
    ensures s == t
  {
    assert s == [] <==> t == [] by {
      if s != [] {
        assert s[0] in t;
      }
      if t != [] {
        assert t[0] in s;
      }
    }
    if s != [] {
      assert t[0] in s && s[0] in t;
      assert LessEq(s[0], t[0]) by {
        if s[0] != t[0] {
          var j :| 0 <= j < |s| && s[j] == t[0];
          assert Less(s[0], s[j]);
        } else {
          Reflexive(s[0]);
        }
      }
      assert LessEq(t[0], s[0]) by {
        if s[0] != t[0] {
          var j :| 0 <= j < |t| && t[j] == s[0];
          assert Less(t[0], t[j]);
        } else {
          Reflexive(s[0]);
        }
      }
      Antisymmetric(s[0], t[0]);
      forall k ensures k in s[1..] <==> k in t[1..] {
        if k in s[1..] {
          var j :| 1 <= j < |s| && s[j] == k;
          assert Less(s[0], s[j]);
          assert k in t;
        }
        if k in t[1..] {
          var j :| 1 <= j < |t| && t[j] == k;
          assert Less(t[0], t[j]);
          assert k in s;
        }
      }
      AscendingUnique(s[1..], t[1..]);
      assert s == [s[0]] + s[1..] && t == [t[0]] + t[1..];
    }
  }
}
