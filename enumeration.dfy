/** What `Persistent.iterkeys` produces, as a function of the engine's sorted
    key list, and what that result means: under one condition on the key
    space it is exactly the object's attribute names in key order, and when
    that condition fails it is empty. */
module Enumeration {
  import opened Results
  import opened KeyOrder
  import opened KeyNames

  /** `key + '_'`: every attribute key of the object starts with it. */
  function BlockPrefix(key: string): (p: string) {
    key + [Sep]
  }

  function Prepend(a: AttrName, rest: Result<seq<AttrName>>): (r: Result<seq<AttrName>>) {
    match rest
    case Ok(names) => Ok([a] + names)
    case Err(e) => Err(e)
  }

  /** The scan from cursor position `i`: skip the object's own record, yield
      the decoded suffix of every key in the block, stop at the first key
      outside it or at the end of the engine. An undecodable suffix aborts
      the whole listing. */
  function ScanFrom(keys: seq<string>, key: string, i: nat): (r: Result<seq<AttrName>>)
    requires i <= |keys|
    decreases |keys| - i
  {
    if i == |keys| then Ok([])
    else if keys[i] == key then ScanFrom(keys, key, i + 1)
    else if StartsWith(keys[i], BlockPrefix(key)) then
      match Decode(keys[i][|key| + 1..])
      case None => Err(DecodeError(keys[i][|key| + 1..]))
      case Some(a) => Prepend(a, ScanFrom(keys, key, i + 1))
    else Ok([])
  }

  /** At an attribute key of the object the scan yields that attribute. */
  lemma ScanAtAttrKey(keys: seq<string>, key: string, i: nat, a: AttrName)
    requires i < |keys| && keys[i] == AttrKey(key, a)
    ensures ScanFrom(keys, key, i) == Prepend(a, ScanFrom(keys, key, i + 1))
  {
    AttrKeyShape(key, a);
    DecodeEncode(a);
  }

  /** `keys()`: position the cursor on the first key not below the object's
      key (the engine fails when there is none), then scan. */
  function Listing(keys: seq<string>, key: string): (r: Result<seq<AttrName>>) {
    var i := Locate(keys, key);
    if i == |keys| then Err(KeyError(key)) else ScanFrom(keys, key, i)
  }

  /** No key sorts strictly between the object's key and its block. */
  ghost predicate NoIntruder(keys: seq<string>, key: string) {
    forall s :: s in keys ==> !(Less(key, s) && Less(s, BlockPrefix(key)))
  }

  /** Every key of the block carries a decodable suffix. */
  ghost predicate BlockDecodes(keys: seq<string>, key: string) {
    forall s :: s in keys && StartsWith(s, BlockPrefix(key)) ==> Decode(s[|key| + 1..]).Some?
  }

  lemma BelowPrefixOutsideBlock(x: string, p: string)
    requires Less(x, p)
    ensures !StartsWith(x, p)
  {
    if StartsWith(x, p) {
      if |p| < |x| {
        PrefixLess(p, x);
        LessAsymmetric(x, p);
      } else {
        assert x == x[..|p|];
        LessIrreflexive(x);
      }
    }
  }

  /** A key with the block prefix is the attribute key of what its suffix
      decodes to. */
  lemma BlockKeyIsAttrKey(key: string, s: string, a: AttrName)
    requires StartsWith(s, BlockPrefix(key)) && Decode(s[|key| + 1..]) == Some(a)
    ensures AttrKey(key, a) == s
  {
    EncodeDecode(s[|key| + 1..], a);
    SplitBlock(key, s);
  }

  /** The attribute keys of a list of names of the object keyed `key`. */
  function KeysOf(key: string, names: seq<AttrName>): (r: seq<string>)
    ensures |r| == |names|
    ensures forall p :: 0 <= p < |names| ==> r[p] == AttrKey(key, names[p])
  {
    if names == [] then [] else [AttrKey(key, names[0])] + KeysOf(key, names[1..])
  }

  /** The scan from position `i` lists exactly the names whose attribute
      keys lie at or after `i`, in ascending key order. */
  ghost predicate ListsBlockFrom(keys: seq<string>, key: string, i: nat)
    requires i <= |keys|
  {
    && ScanFrom(keys, key, i).Ok?
    && (forall a :: a in ScanFrom(keys, key, i).value <==> AttrKey(key, a) in keys[i..])
    && Sorted(KeysOf(key, ScanFrom(keys, key, i).value))
  }

  /** Under the two conditions, the scan from any position at or above the
      object's key lists exactly the block from there on. */
  lemma {:induction false} ScanFromBlock(keys: seq<string>, key: string, i: nat)
    requires Sorted(keys) && NoIntruder(keys, key) && BlockDecodes(keys, key)
    requires i <= |keys|
    requires forall j :: i <= j < |keys| ==> !Less(keys[j], key)
    ensures ListsBlockFrom(keys, key, i)
    decreases |keys| - i
  {
    if i == |keys| {
    } else if keys[i] == key {
      ScanFromBlock(keys, key, i + 1);
      OwnRecordStep(keys, key, i);
    } else if StartsWith(keys[i], BlockPrefix(key)) {
      ScanFromBlock(keys, key, i + 1);
      BlockStep(keys, key, i);
    } else {
      OutsiderStep(keys, key, i);
    }
  }

  lemma OwnRecordStep(keys: seq<string>, key: string, i: nat)
    requires i < |keys| && keys[i] == key && ListsBlockFrom(keys, key, i + 1)
    ensures ListsBlockFrom(keys, key, i)
  {
    assert keys[i..] == [keys[i]] + keys[i + 1..];
    forall a ensures AttrKey(key, a) != key {
      AttrKeyShape(key, a);
      LessIrreflexive(key);
    }
  }

  lemma BlockStep(keys: seq<string>, key: string, i: nat)
    requires Sorted(keys) && BlockDecodes(keys, key)
    requires i < |keys| && keys[i] != key && StartsWith(keys[i], BlockPrefix(key))
    requires ListsBlockFrom(keys, key, i + 1)
    ensures ListsBlockFrom(keys, key, i)
  {
    var a0 := Decode(keys[i][|key| + 1..]).value;
    BlockKeyIsAttrKey(key, keys[i], a0);
    var rest := ScanFrom(keys, key, i + 1).value;
    assert ScanFrom(keys, key, i) == Ok([a0] + rest);
    BlockStepMembers(keys, key, i, a0, rest);
    BlockStepOrder(keys, key, i, a0, rest);
  }

  lemma BlockStepMembers(keys: seq<string>, key: string, i: nat, a0: AttrName, rest: seq<AttrName>)
    requires i < |keys| && AttrKey(key, a0) == keys[i]
    requires forall a :: a in rest <==> AttrKey(key, a) in keys[i + 1..]
    ensures forall a :: a in [a0] + rest <==> AttrKey(key, a) in keys[i..]
  {
    assert keys[i..] == [keys[i]] + keys[i + 1..];
    forall a ensures a in [a0] + rest <==> AttrKey(key, a) in keys[i..] {
      if AttrKey(key, a) == keys[i] {
        AttrKeyInjective(key, a, a0);
      }
    }
  }

  lemma BlockStepOrder(keys: seq<string>, key: string, i: nat, a0: AttrName, rest: seq<AttrName>)
    requires Sorted(keys) && i < |keys| && AttrKey(key, a0) == keys[i]
    requires forall a :: a in rest ==> AttrKey(key, a) in keys[i + 1..]
    requires Sorted(KeysOf(key, rest))
    ensures Sorted(KeysOf(key, [a0] + rest))
  {
    var tail := KeysOf(key, rest);
    assert KeysOf(key, [a0] + rest) == [keys[i]] + tail by {
      assert ([a0] + rest)[1..] == rest;
    }
    forall q | 0 <= q < |tail| ensures Less(keys[i], tail[q]) {
      assert rest[q] in rest;
      SortedHeadBelowRest(keys, i, tail[q]);
    }
    SortedCons(keys[i], tail);
  }

  lemma SortedCons(x: string, t: seq<string>)
    requires Sorted(t) && forall q :: 0 <= q < |t| ==> Less(x, t[q])
    ensures Sorted([x] + t)
  {
    var r := [x] + t;
    forall p, q | 0 <= p < q < |r| ensures Less(r[p], r[q]) {
      if p == 0 {
        assert r[q] == t[q - 1];
      } else {
        assert r[p] == t[p - 1] && r[q] == t[q - 1];
      }
    }
  }

  lemma SortedHeadBelowRest(keys: seq<string>, i: nat, k: string)
    requires Sorted(keys) && i < |keys| && k in keys[i + 1..]
    ensures Less(keys[i], k)
  {
    var j :| 0 <= j < |keys[i + 1..]| && keys[i + 1..][j] == k;
    assert keys[i + 1 + j] == k;
  }

  lemma OutsiderStep(keys: seq<string>, key: string, i: nat)
    requires Sorted(keys) && NoIntruder(keys, key)
    requires i < |keys| && keys[i] != key && !StartsWith(keys[i], BlockPrefix(key))
    requires !Less(keys[i], key)
    ensures ListsBlockFrom(keys, key, i)
  {
    var prefix := BlockPrefix(key);
    LessTotal(keys[i], key);
    assert !Less(keys[i], prefix);
    forall j | i <= j < |keys| ensures !StartsWith(keys[j], prefix) {
      if j > i && StartsWith(keys[j], prefix) {
        BlockBelowOutsider(prefix, keys[j], keys[i]);
        LessAsymmetric(keys[i], keys[j]);
      }
    }
    forall a ensures AttrKey(key, a) !in keys[i..] {
      AttrKeyShape(key, a);
    }
  }

  /** Enumeration completeness. When the seek finds a key at or above the
      object's key (its own record, say), no other key sorts between the
      object's key and its block, and every key in the block decodes,
      `keys()` succeeds and lists exactly the names whose attribute keys are
      in the store, each once, in ascending key order. */
  lemma ListingComplete(keys: seq<string>, key: string)
    requires Sorted(keys) && Locate(keys, key) < |keys|
    requires NoIntruder(keys, key) && BlockDecodes(keys, key)
    ensures Listing(keys, key).Ok?
    ensures forall a :: a in Listing(keys, key).value <==> AttrKey(key, a) in keys
    ensures Sorted(KeysOf(key, Listing(keys, key).value))
  {
    var i := Locate(keys, key);
    NotBelowFromLocate(keys, key);
    ScanFromBlock(keys, key, i);
    assert Listing(keys, key) == ScanFrom(keys, key, i);
    forall a ensures AttrKey(key, a) in keys[i..] <==> AttrKey(key, a) in keys {
      AttrKeyShape(key, a);
      AttrKeysFromLocate(keys, key, AttrKey(key, a));
    }
  }

  /** The seek succeeds exactly when some key sorts at or above the object's
      key; in particular when the object's own record is present. */
  lemma SeekFinds(keys: seq<string>, key: string)
    ensures Locate(keys, key) < |keys| <==> exists j :: 0 <= j < |keys| && !Less(keys[j], key)
    ensures key in keys ==> Locate(keys, key) < |keys|
  {
    if key in keys {
      LessIrreflexive(key);
    }
  }

  /** When the seek finds nothing, `keys()` fails as the cursor does. */
  lemma SeekPastEnd(keys: seq<string>, key: string)
    requires Locate(keys, key) == |keys|
    ensures Listing(keys, key) == Err(KeyError(key))
  {
  }

  /** From the seek position, no key sorts below the object's key. */
  lemma NotBelowFromLocate(keys: seq<string>, key: string)
    requires Sorted(keys) && Locate(keys, key) < |keys|
    ensures forall j :: Locate(keys, key) <= j < |keys| ==> !Less(keys[j], key)
  {
    var i := Locate(keys, key);
    forall j | i < j < |keys| ensures !Less(keys[j], key) {
      if Less(keys[j], key) {
        LessTransitive(keys[i], keys[j], key);
      }
    }
  }

  /** Keys above the object's key all lie at or after its seek position. */
  lemma AttrKeysFromLocate(keys: seq<string>, key: string, k: string)
    requires Less(key, k)
    ensures k in keys[Locate(keys, key)..] <==> k in keys
  {
    var i := Locate(keys, key);
    if k in keys {
      var j :| 0 <= j < |keys| && keys[j] == k;
      if j < i {
        LessAsymmetric(key, keys[j]);
      }
      assert keys[i..][j - i] == k;
    }
  }

  /** The flagged precondition is needed: one key sorting between the
      object's key and its block (the key "root2" for an object "root")
      makes `keys()` come back empty, whatever attributes exist. */
  lemma IntruderHidesBlock(keys: seq<string>, key: string, s: string)
    requires Sorted(keys) && s in keys
    requires Less(key, s) && Less(s, BlockPrefix(key))
    ensures Listing(keys, key) == Ok([])
  {
    var prefix := BlockPrefix(key);
    var i := Locate(keys, key);
    var m :| 0 <= m < |keys| && keys[m] == s;
    LessAsymmetric(key, s);
    assert i <= m;
    if keys[i] == key {
      assert i < m;
      LessAsymmetric(keys[i], keys[i + 1]);
      if i + 1 < m {
        LessTransitive(keys[i + 1], s, prefix);
      }
      BelowPrefixOutsideBlock(keys[i + 1], prefix);
      assert ScanFrom(keys, key, i + 1) == Ok([]);
    } else {
      if i < m {
        LessTransitive(keys[i], s, prefix);
      }
      BelowPrefixOutsideBlock(keys[i], prefix);
    }
  }

  /** Whatever the conditions, every listed name is the suffix of a key the
      store holds: listing never invents an attribute. */
  lemma {:induction false} ScanListsStoredKeys(keys: seq<string>, key: string, i: nat)
    requires i <= |keys| && ScanFrom(keys, key, i).Ok?
    ensures forall a :: a in ScanFrom(keys, key, i).value ==> AttrKey(key, a) in keys
    decreases |keys| - i
  {
    if i == |keys| {
    } else if keys[i] == key {
      ScanListsStoredKeys(keys, key, i + 1);
    } else if StartsWith(keys[i], BlockPrefix(key)) {
      var a0 := Decode(keys[i][|key| + 1..]).value;
      BlockKeyIsAttrKey(key, keys[i], a0);
      ScanListsStoredKeys(keys, key, i + 1);
    }
  }

  lemma ListingListsStoredKeys(keys: seq<string>, key: string)
    requires Listing(keys, key).Ok?
    ensures forall a :: a in Listing(keys, key).value ==> AttrKey(key, a) in keys
  {
    ScanListsStoredKeys(keys, key, Locate(keys, key));
  }

  /** Keys that cannot intrude: a key no other key extends by a byte below
      the separator (so "root" is safe unless the store also holds, say,
      "root2" or "root-x"). */
  lemma NoExtensionNoIntruder(keys: seq<string>, key: string)
    requires forall s :: s in keys && StartsWith(s, key) && |key| < |s| ==> s[|key|] >= Sep
    ensures NoIntruder(keys, key)
  {
    forall s | s in keys && Less(key, s) && Less(s, BlockPrefix(key)) ensures false {
      BetweenExtends(key, Sep, s);
    }
  }

  /** A key as the store holds it when object keys come from uuid4: an
      object key in uuid shape or one of its attribute keys, or a key that
      does not start with a hex digit (such as "root" and its attributes). */
  predicate WellKeyed(s: string) {
    (|s| >= 36 && UuidLike(s[..36]) && (|s| == 36 || s[36] == Sep))
    || (|s| > 0 && !IsHexDigit(s[0]))
  }

  /** Generated keys never intrude: in a store whose keys are all well keyed,
      a uuid-keyed object meets the enumeration precondition. */
  lemma UuidKeysDoNotIntrude(keys: seq<string>, u: string)
    requires UuidLike(u)
    requires forall s :: s in keys ==> WellKeyed(s)
    ensures NoIntruder(keys, u)
  {
    forall s | s in keys && Less(u, s) && Less(s, BlockPrefix(u)) ensures false {
      BetweenExtends(u, Sep, s);
    }
  }
}
