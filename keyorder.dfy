/** The ordered key space of the storage engine: keys are byte strings
    compared lexicographically, and the engine keeps them in ascending order.
    The engine's sorted key list is modelled as a strictly ascending
    sequence; its cursor is an index into that sequence. */
module KeyOrder {

  predicate StartsWith(s: string, prefix: string) {
    |prefix| <= |s| && s[..|prefix|] == prefix
  }

  /** Byte-lexicographic order: a proper prefix sorts first, otherwise the
      first differing byte decides. */
  predicate Less(a: string, b: string)
    decreases |a|
  {
    if |b| == 0 then false
    else if |a| == 0 then true
    else if a[0] != b[0] then a[0] < b[0]
    else Less(a[1..], b[1..])
  }

  lemma {:induction false} LessIrreflexive(a: string)
    ensures !Less(a, a)
    decreases |a|
  {
    if |a| > 0 { LessIrreflexive(a[1..]); }
  }

  lemma {:induction false} LessTransitive(a: string, b: string, c: string)
    requires Less(a, b) && Less(b, c)
    ensures Less(a, c)
    decreases |a|
  {
    if |a| > 0 && a[0] == b[0] && b[0] == c[0] {
      LessTransitive(a[1..], b[1..], c[1..]);
    }
  }

  lemma {:induction false} LessTotal(a: string, b: string)
    ensures a == b || Less(a, b) || Less(b, a)
    decreases |a|
  {
    if |a| > 0 && |b| > 0 && a[0] == b[0] {
      LessTotal(a[1..], b[1..]);
      if a[1..] == b[1..] {
        assert a == [a[0]] + a[1..] && b == [b[0]] + b[1..];
      }
    }
  }

  lemma LessAsymmetric(a: string, b: string)
    requires Less(a, b)
    ensures !Less(b, a) && a != b
  {
    if Less(b, a) {
      LessTransitive(a, b, a);
      LessIrreflexive(a);
    }
    if a == b {
      LessIrreflexive(a);
    }
  }

  /** A proper prefix sorts before every extension of it. */
  lemma {:induction false} PrefixLess(p: string, s: string)
    requires StartsWith(s, p) && |p| < |s|
    ensures Less(p, s)
    decreases |p|
  {
    if |p| > 0 {
      assert s[0] == p[0];
      assert s[1..][..|p| - 1] == p[1..];
      PrefixLess(p[1..], s[1..]);
    }
  }

  /** A key that sorts strictly between `k` and `k + [c]` extends `k` with a
      byte below `c`. */
  lemma {:induction false} BetweenExtends(k: string, c: char, s: string)
    requires Less(k, s) && Less(s, k + [c])
    ensures StartsWith(s, k) && |k| < |s| && s[|k|] < c
    decreases |k|
  {
    if |k| > 0 {
      assert (k + [c])[0] == k[0];
      assert (k + [c])[1..] == k[1..] + [c];
      BetweenExtends(k[1..], c, s[1..]);
      assert s == [s[0]] + s[1..];
    }
  }

  /** A string without prefix `p` that does not sort below `p` sorts above
      every string with prefix `p`. */
  lemma {:induction false} BlockBelowOutsider(p: string, x: string, s: string)
    requires StartsWith(x, p) && !StartsWith(s, p) && !Less(s, p)
    ensures Less(x, s)
    decreases |p|
  {
    if |p| == 0 {
    } else {
      assert x[0] == p[0];
      assert x[1..][..|p| - 1] == p[1..];
      if |s| == 0 {
      } else if s[0] != p[0] {
      } else {
        if |s| >= |p| {
          assert s[..|p|] == [s[0]] + s[1..][..|p| - 1];
        }
        BlockBelowOutsider(p[1..], x[1..], s[1..]);
      }
    }
  }

  /** Equal up to position `i`, where `a` has the smaller byte. */
  lemma {:induction false} LessAt(a: string, b: string, i: nat)
    requires i < |a| && i < |b| && a[..i] == b[..i] && a[i] < b[i]
    ensures Less(a, b)
    decreases i
  {
    if i > 0 {
      assert a[0] == a[..i][0] == b[..i][0] == b[0];
      assert a[1..][..i - 1] == a[..i][1..] == b[..i][1..] == b[1..][..i - 1];
      LessAt(a[1..], b[1..], i - 1);
    }
  }

  /** Strictly ascending, hence free of duplicates. */
  ghost predicate Sorted(keys: seq<string>) {
    forall i, j :: 0 <= i < j < |keys| ==> Less(keys[i], keys[j])
  }

  lemma HasMember(t: seq<string>)
    ensures t != [] ==> exists x :: x in t
  {
    if t != [] {
      assert t[0] in t;
    }
  }

  /** A set of keys has exactly one ascending arrangement. */
  lemma {:induction false} SortedUnique(s: seq<string>, t: seq<string>)
    requires Sorted(s) && Sorted(t)
    requires forall x :: x in s <==> x in t
    ensures s == t
    decreases |s|
  {
    if s == [] {
      HasMember(t);
    } else {
      assert s[0] in t && t != [] && t[0] in s;
      var i :| 0 <= i < |s| && s[i] == t[0];
      var j :| 0 <= j < |t| && t[j] == s[0];
      if s[0] != t[0] {
        LessAsymmetric(s[0], s[i]);
        assert false;
      }
      forall x
        ensures x in s[1..] <==> x in t[1..]
      {
        if x in s[1..] {
          var k :| 1 <= k < |s| && s[k] == x;
          LessAsymmetric(s[0], s[k]);
          assert x in t && x != t[0];
          var m :| 0 <= m < |t| && t[m] == x;
          assert m > 0 && t[1..][m - 1] == x;
        }
        if x in t[1..] {
          var k :| 1 <= k < |t| && t[k] == x;
          LessAsymmetric(t[0], t[k]);
          assert x in s && x != s[0];
          var m :| 0 <= m < |s| && s[m] == x;
          assert m > 0 && s[1..][m - 1] == x;
        }
      }
      SortedUnique(s[1..], t[1..]);
      assert s == [s[0]] + s[1..] && t == [t[0]] + t[1..];
    }
  }

  /** The sorted key list after the engine stores a new key. */
  function Insert(keys: seq<string>, k: string): (r: seq<string>)
    requires Sorted(keys)
    ensures forall x :: x in r <==> x in keys || x == k
    ensures k !in keys ==> |r| == |keys| + 1
    ensures k !in keys ==> Sorted(r)
    decreases |keys|
  {
    if keys == [] then [k]
    else if k == keys[0] then keys
    else if Less(k, keys[0]) then
      (assert forall j :: 0 < j < |keys| ==> Less(k, keys[j]) by {
         forall j | 0 < j < |keys| ensures Less(k, keys[j]) { LessTransitive(k, keys[0], keys[j]); }
       }
       [k] + keys)
    else
      var tail := Insert(keys[1..], k);
      LessTotal(k, keys[0]);
      assert forall x :: x in tail ==> Less(keys[0], x);
      [keys[0]] + tail
  }

  /** The sorted key list after the engine deletes a key. */
  function Remove(keys: seq<string>, k: string): (r: seq<string>)
    requires Sorted(keys)
    ensures forall x :: x in r <==> x in keys && x != k
    ensures Sorted(r)
    decreases |keys|
  {
    if keys == [] then []
    else if keys[0] == k then
      (assert forall j :: 0 < j < |keys| ==> keys[j] != k by {
         forall j | 0 < j < |keys| ensures keys[j] != k { LessAsymmetric(keys[0], keys[j]); }
       }
       keys[1..])
    else
      var tail := Remove(keys[1..], k);
      assert forall x :: x in tail ==> Less(keys[0], x);
      [keys[0]] + tail
  }

  /** The cursor position `set_location(k)` moves to: the first key that is
      not below `k` (|keys| when there is none). */
  function Locate(keys: seq<string>, k: string): (i: nat)
    ensures i <= |keys|
    ensures forall j :: 0 <= j < i ==> Less(keys[j], k)
    ensures i < |keys| ==> !Less(keys[i], k)
    decreases |keys|
  {
    if keys == [] || !Less(keys[0], k) then 0 else 1 + Locate(keys[1..], k)
  }
}
