/** Properties that span several operations on the object graph: the
    write-then-read round trip, the stability of auto-created children, and
    the session that the module's own self-test runs against a new store. */
module Scenarios {
  import opened Results
  import opened KeyOrder
  import opened KeyNames
  import opened Enumeration
  import opened Pypers

  /** `o.a = v` followed by `o.a`: a plain value comes back equal, the live
      instance of a key comes back as itself, and any other object comes
      back as an instance with the same key. */
  method SetThenGet(o: Persistent, a: AttrName, v: Value, newKey: string) returns (r: Result<Value>)
    requires o.Valid() && !IsBookkeeping(a) && !IsPrivate(a) && FreshKey(o.db, newKey)
    requires AttrKey(o.key, a) !in o.db.key2obj
    modifies o, o.db
    ensures o.Valid() && o.db.records == old(o.db.records)[AttrKey(o.key, a) := Serialise(v)]
    ensures v.Scalar? ==> r == Ok(v) && o.db.key2obj == old(o.db.key2obj)
    ensures v.Object? && old(o.db.Canonical(v.obj)) ==> r == Ok(v)
    ensures v.Object? ==> r.Ok? && r.value.Object? && r.value.obj.key == v.obj.key
  {
    o.SetAttr(a, v);
    GeneratedKeyIsNoAttrKey(newKey, o.key, a);
    r := o.GetAttr(a, newKey);
  }

  /** Two reads of a persisted name that was never set: the first creates a
      child object, the second returns that same instance. */
  method ReadTwice(o: Persistent, a: AttrName, k1: string, k2: string) returns (first: Result<Value>, second: Result<Value>)
    requires o.Valid() && !IsBookkeeping(a) && !IsPrivate(a)
    requires FreshKey(o.db, k1) && FreshKey(o.db, k2) && k1 != k2
    requires AttrKey(o.key, a) !in o.db.records && AttrKey(o.key, a) !in o.db.key2obj
    modifies o, o.db
    ensures first.Ok? && first.value.Object? && fresh(first.value.obj)
    ensures first.value.obj.key == k1 && o.db.Canonical(first.value.obj)
    ensures second == first
  {
    GeneratedKeyIsNoAttrKey(k1, o.key, a);
    GeneratedKeyIsNoAttrKey(k2, o.key, a);
    first := o.GetAttr(a, k1);
    second := o.GetAttr(a, k2);
  }

  /** An object key followed by three of its attribute keys lists those three
      attributes in that order. */
  lemma ListingOfThree(keys: seq<string>, key: string, a1: AttrName, a2: AttrName, a3: AttrName)
    requires keys == [key, AttrKey(key, a1), AttrKey(key, a2), AttrKey(key, a3)]
    ensures Listing(keys, key) == Ok([a1, a2, a3])
  {
    ThreeScanSteps(keys, key, a1, a2, a3);
    ScanOfThree(keys, key, a1, a2, a3);
  }

  lemma ThreeScanSteps(keys: seq<string>, key: string, a1: AttrName, a2: AttrName, a3: AttrName)
    requires |keys| == 4
    requires keys[1] == AttrKey(key, a1) && keys[2] == AttrKey(key, a2) && keys[3] == AttrKey(key, a3)
    ensures ScanFrom(keys, key, 1) == Prepend(a1, ScanFrom(keys, key, 2))
    ensures ScanFrom(keys, key, 2) == Prepend(a2, ScanFrom(keys, key, 3))
    ensures ScanFrom(keys, key, 3) == Prepend(a3, ScanFrom(keys, key, 4))
  {
    ScanAtAttrKey(keys, key, 1, a1);
    ScanAtAttrKey(keys, key, 2, a2);
    ScanAtAttrKey(keys, key, 3, a3);
  }

  lemma ScanOfThree(keys: seq<string>, key: string, a1: AttrName, a2: AttrName, a3: AttrName)
    requires |keys| == 4 && keys[0] == key
    requires ScanFrom(keys, key, 1) == Prepend(a1, ScanFrom(keys, key, 2))
    requires ScanFrom(keys, key, 2) == Prepend(a2, ScanFrom(keys, key, 3))
    requires ScanFrom(keys, key, 3) == Prepend(a3, ScanFrom(keys, key, 4))
    ensures Listing(keys, key) == Ok([a1, a2, a3])
  {
    LessIrreflexive(key);
    assert Locate(keys, key) == 0;
    assert [a3] + [] == [a3];
    assert [a1] + ([a2] + [a3]) == [a1, a2, a3];
  }

  /** Attribute keys of one owner sort as their encoded names do. */
  lemma {:induction false} AttrKeyOrder(owner: string, a: AttrName, b: AttrName)
    requires Less(Encode(a), Encode(b))
    ensures Less(AttrKey(owner, a), AttrKey(owner, b))
  {
    CommonPrefixLess(owner + [Sep], Encode(a), Encode(b));
  }

  lemma {:induction false} CommonPrefixLess(p: string, x: string, y: string)
    requires Less(x, y)
    ensures Less(p + x, p + y)
    decreases |p|
  {
    if |p| > 0 {
      assert (p + x)[0] == p[0] == (p + y)[0];
      assert (p + x)[1..] == p[1..] + x && (p + y)[1..] == p[1..] + y;
      CommonPrefixLess(p[1..], x, y);
    } else {
      assert p + x == x && p + y == y;
    }
  }

  const Attr1: AttrName := StrName("attr1")
  const Attr2: AttrName := StrName("attr2")
  const Int333: AttrName := IntName(333)

  /** The three names of the self-test session encode in ascending byte
      order: a quoted string sorts below a digit. */
  lemma SessionNamesAscend()
    ensures Ascending(Attr1, Attr2, Int333)
  {
    SessionNamesPlain();
    Attr1BelowAttr2();
    Attr2BelowInt333();
  }

  lemma SessionNamesPlain()
    ensures Plain(Attr1) && Plain(Attr2) && Plain(Int333)
  {
    assert Attr1.s[0] == 'a' && Attr2.s[0] == 'a';
  }

  lemma Attr1BelowAttr2()
    ensures Less(Encode(Attr1), Encode(Attr2))
  {
    EncodeAttr1();
    EncodeAttr2();
    LessAt("'attr1'", "'attr2'", 5);
  }

  lemma Attr2BelowInt333()
    ensures Less(Encode(Attr2), Encode(Int333))
  {
    EncodeAttr2();
    EncodeSmallInt();
    LessAt("'attr2'", "333", 0);
  }

  lemma EncodeAttr1()
    ensures Encode(Attr1) == "'attr1'"
  {
    EncodePlainName(Attr1.s);
  }

  lemma EncodeAttr2()
    ensures Encode(Attr2) == "'attr2'"
  {
    EncodePlainName(Attr2.s);
  }

  lemma EncodeSmallInt()
    ensures Encode(Int333) == "333"
  {
  }

  /** An object key followed by attribute keys whose encoded names ascend
      is in ascending byte order. */
  lemma ThreeAttrKeysSorted(key: string, n1: AttrName, n2: AttrName, n3: AttrName)
    requires Less(Encode(n1), Encode(n2)) && Less(Encode(n2), Encode(n3))
    ensures Sorted([key, AttrKey(key, n1), AttrKey(key, n2), AttrKey(key, n3)])
  {
    AttrKeyOrder(key, n1, n2);
    AttrKeyOrder(key, n2, n3);
    AttrKeyShape(key, n1);
    var k := [key, AttrKey(key, n1), AttrKey(key, n2), AttrKey(key, n3)];
    LessTransitive(k[0], k[1], k[2]);
    LessTransitive(k[0], k[2], k[3]);
    LessTransitive(k[1], k[2], k[3]);
  }

  /** `o.x = o.y` where `y` was never set, then reading both: the same
      auto-created instance comes back from each. */
  method AliasedRead(o: Persistent, x: AttrName, y: AttrName, k1: string, k2: string)
    returns (rx: Result<Value>, ry: Result<Value>)
    requires o.Valid() && x != y
    requires !IsBookkeeping(x) && !IsPrivate(x) && !IsBookkeeping(y) && !IsPrivate(y)
    requires FreshKey(o.db, k1) && FreshKey(o.db, k2) && k1 != k2
    requires AttrKey(o.key, y) !in o.db.records
    requires AttrKey(o.key, x) !in o.db.key2obj && AttrKey(o.key, y) !in o.db.key2obj
    modifies o, o.db
    ensures rx.Ok? && rx.value.Object? && fresh(rx.value.obj) && rx.value.obj.key == k1
    ensures ry == rx
  {
    GeneratedKeyIsNoAttrKey(k1, o.key, x);
    GeneratedKeyIsNoAttrKey(k1, o.key, y);
    GeneratedKeyIsNoAttrKey(k2, o.key, x);
    GeneratedKeyIsNoAttrKey(k2, o.key, y);
    AttrKeysDistinct(o.key, x, y);
    var created := o.GetAttr(y, k1);
    o.SetAttr(x, created.value);
    rx := o.GetAttr(x, k2);
    ry := o.GetAttr(y, k2);
  }

  /** A name that is persisted and is neither `_key` nor `_db`. */
  predicate Plain(n: AttrName) {
    !IsBookkeeping(n) && !IsPrivate(n)
  }

  /** Three plain names whose encodings ascend, so their attribute keys are
      stored in this order. */
  predicate Ascending(n1: AttrName, n2: AttrName, n3: AttrName) {
    Plain(n1) && Plain(n2) && Plain(n3) && Less(Encode(n1), Encode(n2)) && Less(Encode(n2), Encode(n3))
  }

  /** The first steps of the self-test session: a new store, its root
      object, and three plain attributes written and read back. */
  method SessionWrites(k1: string, n1: AttrName, n2: AttrName, n3: AttrName)
    returns (root: Persistent, values: seq<Result<Value>>)
    requires UuidLike(k1) && Plain(n1) && Plain(n2) && Plain(n3)
    ensures fresh(root) && fresh(root.db) && root.Valid() && root.key == "root"
    ensures root.db.key2obj == map["root" := root]
    ensures root.db.records.Keys == {"root", AttrKey("root", n1), AttrKey("root", n2), AttrKey("root", n3)}
    ensures values == [Ok(Scalar(IntValue(123))), Ok(Scalar(StrValue("abc"))), Ok(Scalar(StrValue("ttt")))]
  {
    var db := new DB();
    root := db.Get("root");
    values := WriteThree(root, k1, n1, n2, n3);
  }

  /** Three plain attributes written on an object that owns no attribute
      yet, each read back as written. */
  method WriteThree(o: Persistent, k1: string, n1: AttrName, n2: AttrName, n3: AttrName)
    returns (values: seq<Result<Value>>)
    requires o.Valid() && Plain(n1) && Plain(n2) && Plain(n3) && FreshKey(o.db, k1)
    requires o.db.records.Keys == {o.key} && o.db.key2obj == map[o.key := o]
    modifies o, o.db
    ensures o.Valid() && o.db.key2obj == old(o.db.key2obj)
    ensures o.db.records.Keys == {o.key, AttrKey(o.key, n1), AttrKey(o.key, n2), AttrKey(o.key, n3)}
    ensures values == [Ok(Scalar(IntValue(123))), Ok(Scalar(StrValue("abc"))), Ok(Scalar(StrValue("ttt")))]
  {
    assert |AttrKey(o.key, n1)| > |o.key| && |AttrKey(o.key, n2)| > |o.key| && |AttrKey(o.key, n3)| > |o.key|;
    GeneratedKeyIsNoAttrKey(k1, o.key, n1);
    GeneratedKeyIsNoAttrKey(k1, o.key, n2);
    var v1 := SetThenGet(o, n1, Scalar(IntValue(123)), k1);
    var v2 := SetThenGet(o, n2, Scalar(StrValue("abc")), k1);
    var v3 := SetThenGet(o, n3, Scalar(StrValue("ttt")), k1);
    values := [v1, v2, v3];
  }

  /** The listing step of the self-test session. */
  method SessionListing(root: Persistent, n1: AttrName, n2: AttrName, n3: AttrName)
    returns (listed: Result<seq<AttrName>>)
    requires Less(Encode(n1), Encode(n2)) && Less(Encode(n2), Encode(n3))
    requires root.Valid() && root.key == "root"
    requires root.db.records.Keys == {"root", AttrKey("root", n1), AttrKey("root", n2), AttrKey("root", n3)}
    ensures listed == Ok([n1, n2, n3])
  {
    ThreeAttrKeysSorted("root", n1, n2, n3);
    SortedUnique(root.db.order, ["root", AttrKey("root", n1), AttrKey("root", n2), AttrKey("root", n3)]);
    ListingOfThree(root.db.order, "root", n1, n2, n3);
    listed := root.Keys();
  }

  /** The self-test session on a new store, up to its listing, for any three
      plain names whose encodings ascend. */
  method Session(k1: string, n1: AttrName, n2: AttrName, n3: AttrName)
    returns (values: seq<Result<Value>>, listed: Result<seq<AttrName>>)
    requires UuidLike(k1) && Ascending(n1, n2, n3)
    ensures values == [Ok(Scalar(IntValue(123))), Ok(Scalar(StrValue("abc"))), Ok(Scalar(StrValue("ttt")))]
    ensures listed == Ok([n1, n2, n3])
  {
    var root;
    root, values := SessionWrites(k1, n1, n2, n3);
    listed := SessionListing(root, n1, n2, n3);
  }

  /** The self-test session on a new store, up to its listing: three plain
      attributes read back as written, and the listing names them in key
      order (the quote opening a string name sorts below a digit). `k1`
      stands for an identifier the session could generate; no read in it
      creates an object. */
  method SelfTest(k1: string) returns (values: seq<Result<Value>>, listed: Result<seq<AttrName>>)
    requires UuidLike(k1)
    ensures values == [Ok(Scalar(IntValue(123))), Ok(Scalar(StrValue("abc"))), Ok(Scalar(StrValue("ttt")))]
    ensures listed == Ok([Attr1, Attr2, Int333])
  {
    SessionNamesAscend();
    values, listed := Session(k1, Attr1, Attr2, Int333);
  }
}
