/** The persistent object graph: `DB` wraps the ordered engine and owns the
    identity map, `Persistent` turns attribute reads, writes and deletes into
    store operations on keys built by the key-naming scheme. */
module Pypers {
  import opened Results
  import opened KeyOrder
  import opened KeyNames
  import opened Enumeration

  /** A picklable value that is not a persistent object. The codec is a
      foreign library; integers, strings and None stand for its values. */
  datatype Datum = IntValue(i: int) | StrValue(s: string) | NoneValue

  /** What the engine holds under a key: a pickled plain value, or the
      pickle of a persistent object, which carries its key and nothing else. */
  datatype Record = Data(d: Datum) | Ref(key: string)

  /** A value as application code sees it. */
  datatype Value = Scalar(d: Datum) | Object(obj: Persistent)

  /** Pickling a value for the store (`__getstate__` for persistent objects). */
  function Serialise(v: Value): (r: Record) {
    match v
    case Scalar(d) => Data(d)
    case Object(p) => Ref(p.key)
  }

  /** The stand-in for `uuid.uuid4()`: a key the store does not hold yet,
      with the shape of a generated identifier. */
  ghost predicate FreshKey(db: DB, k: string)
    reads db
  {
    k !in db.records && UuidLike(k)
  }

  /** `_key` and `_db`, which the model keeps as the object's fixed fields. */
  predicate IsBookkeeping(a: AttrName) {
    a == StrName("_key") || a == StrName("_db")
  }

  predicate IsPrivateField(n: string) {
    |n| > 0 && n[0] == '_'
  }

  class DB {
    /** The engine: records by key, and the same keys in ascending order. */
    var records: map<string, Record>
    var order: seq<string>
    /** `key2obj`: the live instance of each object key. */
    var key2obj: map<string, Persistent>

    ghost predicate Valid()
      reads this
    {
      && Sorted(order)
      && (forall k :: k in records <==> k in order)
      && (forall k :: k in key2obj ==> key2obj[k].key == k && key2obj[k].db == this)
    }

    /** `p` is the instance the identity map holds for its key. */
    ghost predicate Canonical(p: Persistent)
      reads this
    {
      p.key in key2obj && key2obj[p.key] == p
    }

    /** The identity map only gained entries since the old state. */
    twostate predicate IdentityGrown()
      reads this
    {
      Grown(old(key2obj), key2obj)
    }

    /** Opening an empty engine file. */
    constructor ()
      ensures Valid() && records == map[] && order == [] && key2obj == map[]
    {
      records := map[];
      order := [];
      key2obj := map[];
    }

    /** `key in db`. */
    predicate Contains(k: string)
      reads this
    {
      k in records
    }

    /** `db.get(key)`: a new instance for `k`, which becomes the live one. */
    method Get(k: string) returns (p: Persistent)
      requires Valid()
      modifies this
      ensures Valid() && fresh(p) && p.key == k && p.db == this && p.locals == map[]
      ensures k in records
      ensures records == if k in old(records) then old(records) else old(records)[k := Ref(k)]
      ensures key2obj == old(key2obj)[k := p]
    {
      p := new Persistent(k, this);
    }

    /** `db[key] = value`. */
    method SetItem(k: string, v: Value)
      requires Valid()
      modifies this
      ensures Valid()
      ensures records == old(records)[k := Serialise(v)] && key2obj == old(key2obj)
    {
      if k !in records {
        order := Insert(order, k);
      }
      records := records[k := Serialise(v)];
    }

    /** `del db[key]`: the record goes, a live instance stays. */
    method DelItem(k: string) returns (r: Result<()>)
      requires Valid()
      modifies this
      ensures Valid() && key2obj == old(key2obj)
      ensures k in old(records) ==> r == Ok(()) && records == old(records) - {k}
      ensures k !in old(records) ==> r == Err(KeyError(k)) && records == old(records)
    {
      if k !in records {
        return Err(KeyError(k));
      }
      order := Remove(order, k);
      records := records - {k};
      r := Ok(());
    }

    /** What `db[k]` returns and how it changes the identity map. */
    twostate predicate Fetched(k: string, new r: Result<Value>)
      reads this
    {
      if k in old(key2obj) then r == Ok(Object(old(key2obj)[k])) && key2obj == old(key2obj)
      else if k !in records then r == Err(KeyError(k)) && key2obj == old(key2obj)
      else match records[k]
        case Data(d) => r == Ok(Scalar(d)) && key2obj == old(key2obj)
        case Ref(rk) =>
          if rk in old(key2obj) then r == Ok(Object(old(key2obj)[rk])) && key2obj == old(key2obj)
          else
            && r.Ok? && r.value.Object? && fresh(r.value.obj)
            && r.value.obj.key == rk && r.value.obj.db == this
            && key2obj == old(key2obj)[rk := r.value.obj]
    }

    /** `db[key]`: the live instance when the identity map has one for the
        key; otherwise the unpickled record, where a reference resolves to
        the live instance of its key, or to a new instance that becomes the
        live one. Every object returned is the live instance of its key. */
    method GetItem(k: string) returns (r: Result<Value>)
      requires Valid()
      modifies this
      ensures Valid() && records == old(records) && order == old(order)
      ensures Fetched(k, r) && IdentityGrown()
      ensures r.Ok? && r.value.Object? ==> Canonical(r.value.obj)
      ensures r.Ok? && r.value.Object? && fresh(r.value.obj) ==> r.value.obj.locals == map[]
    {
      if k in key2obj {
        return Ok(Object(key2obj[k]));
      }
      if k !in records {
        return Err(KeyError(k));
      }
      var record := records[k];
      if record.Data? {
        r := Ok(Scalar(record.d));
      } else if record.key in key2obj {
        r := Ok(Object(key2obj[record.key]));
      } else {
        var p := new Persistent.Rehydrated(record.key, this);
        key2obj := key2obj[record.key := p];
        r := Ok(Object(p));
      }
    }
  }

  class Persistent {
    const key: string
    const db: DB
    /** The underscore attributes held in memory (`__dict__` less `_key`
        and `_db`). */
    var locals: map<string, Value>

    ghost predicate Valid()
      reads this, db
    {
      db.Valid() && forall n :: n in locals ==> IsPrivateField(n)
    }

    /** `Persistent(key, db)`: writes a self-reference unless the store
        already holds `key`, and becomes the live instance of `key`. */
    constructor (key: string, db: DB)
      requires db.Valid()
      modifies db
      ensures Valid() && this.key == key && this.db == db && locals == map[]
      ensures key in db.records
      ensures db.records == if key in old(db.records) then old(db.records) else old(db.records)[key := Ref(key)]
      ensures db.key2obj == old(db.key2obj)[key := this]
    {
      this.key := key;
      this.db := db;
      locals := map[];
      new;
      if !db.Contains(key) {
        db.SetItem(key, Object(this));
      }
      db.key2obj := db.key2obj[key := this];
    }

    /** An instance unpickled from a reference: it carries the key, is bound
        to the store, and touches neither the engine nor the identity map. */
    constructor Rehydrated(key: string, db: DB)
      ensures this.key == key && this.db == db && locals == map[]
    {
      this.key := key;
      this.db := db;
      locals := map[];
    }

    /** `setattr(o, a, v)` and `o[a] = v`. */
    method SetAttr(a: AttrName, v: Value)
      requires Valid() && !IsBookkeeping(a)
      modifies this, db
      ensures Valid()
      ensures IsPrivate(a) ==> locals == old(locals)[a.s := v] && unchanged(db)
      ensures !IsPrivate(a) ==>
        && locals == old(locals)
        && db.records == old(db.records)[AttrKey(key, a) := Serialise(v)]
        && db.key2obj == old(db.key2obj)
    {
      if IsPrivate(a) {
        locals := locals[a.s := v];
      } else {
        db.SetItem(AttrKey(key, a), v);
      }
    }

    /** `getattr(o, a)` and `o[a]`. A persisted name that was never set is
        created: a new object under the generated key `newKey`, referenced
        from the attribute's key, and returned. */
    method GetAttr(a: AttrName, newKey: string) returns (r: Result<Value>)
      requires Valid() && !IsBookkeeping(a) && FreshKey(db, newKey)
      modifies this, db
      ensures Valid() && locals == old(locals)
      ensures IsPrivate(a) ==>
        && unchanged(db)
        && r == (if a.s in locals then Ok(locals[a.s]) else Err(AttributeError(a.s)))
      ensures !IsPrivate(a) && AttrKey(key, a) in old(db.records) ==>
        && db.records == old(db.records) && db.order == old(db.order)
        && db.Fetched(AttrKey(key, a), r)
        && db.IdentityGrown()
      ensures !IsPrivate(a) && AttrKey(key, a) !in old(db.records) ==>
        && r.Ok? && r.value.Object? && fresh(r.value.obj)
        && r.value.obj.key == newKey && r.value.obj.db == db && r.value.obj.locals == map[]
        && db.records == old(db.records)[newKey := Ref(newKey)][AttrKey(key, a) := Ref(newKey)]
        && db.key2obj == old(db.key2obj)[newKey := r.value.obj]
      ensures !IsPrivate(a) && r.Ok? && r.value.Object? ==> db.Canonical(r.value.obj)
    {
      if a.StrName? && a.s in locals {
        return Ok(locals[a.s]);
      } else if !IsPrivate(a) {
        var k := AttrKey(key, a);
        if db.Contains(k) {
          r := db.GetItem(k);
        } else {
          var o := new Persistent(newKey, db);
          SetAttr(a, Object(o));
          GeneratedKeyIsNoAttrKey(newKey, key, a);
          r := Ok(Object(o));
        }
      } else {
        r := Err(AttributeError(a.s));
      }
    }

    /** `delattr(o, a)` and `del o[a]`. */
    method DelAttr(a: AttrName) returns (r: Result<()>)
      requires Valid() && !IsBookkeeping(a)
      modifies this, db
      ensures Valid()
      ensures IsPrivate(a) ==>
        && unchanged(db)
        && (if a.s in old(locals) then r == Ok(()) && locals == old(locals) - {a.s}
            else r == Err(AttributeError(a.s)) && locals == old(locals))
      ensures !IsPrivate(a) ==>
        && locals == old(locals) && db.key2obj == old(db.key2obj)
        && if AttrKey(key, a) in old(db.records) then
             r == Ok(()) && db.records == old(db.records) - {AttrKey(key, a)}
           else
             r == Err(KeyError(AttrKey(key, a))) && db.records == old(db.records)
    {
      if a.StrName? && a.s in locals {
        locals := locals - {a.s};
        r := Ok(());
      } else if !IsPrivate(a) {
        r := db.DelItem(AttrKey(key, a));
      } else {
        r := Err(AttributeError(a.s));
      }
    }

    /** `keys()` / `iterkeys()`: seek to the object's key, then walk the
        sorted keys while they carry the prefix `key + '_'`, decoding each
        suffix. What the result means is stated by Enumeration.ListingComplete
        and Enumeration.IntruderHidesBlock. */
    method Keys() returns (r: Result<seq<AttrName>>)
      requires db.Valid()
      ensures r == Listing(db.order, key)
    {
      var keys := db.order;
      var i := Locate(keys, key);
      if i == |keys| {
        return Err(KeyError(key));
      }
      ghost var start := i;
      var prefix := key + [Sep];
      var names: seq<AttrName> := [];
      ConcatNil(ScanFrom(keys, key, i));
      while i < |keys|
        invariant start <= i <= |keys|
        invariant ScanFrom(keys, key, start) == Concat(names, ScanFrom(keys, key, i))
      {
        var k := keys[i];
        if k == key {
          assert ScanFrom(keys, key, i) == ScanFrom(keys, key, i + 1);
        } else {
          if StartsWith(k, prefix) {
            var suffix := k[|key| + 1..];
            var decoded := Decode(suffix);
            if decoded.None? {
              assert ScanFrom(keys, key, i) == Err(DecodeError(suffix));
              return Err(DecodeError(suffix));
            }
            ConcatPrepend(names, decoded.value, ScanFrom(keys, key, i + 1));
            names := names + [decoded.value];
          } else {
            assert ScanFrom(keys, key, i) == Ok([]);
            break;
          }
        }
        i := i + 1;
      }
      assert names + [] == names;
      r := Ok(names);
    }

    /** One read of the listing walk: the name has a record, so the read
        leaves the engine as it was and gives what `o[name]` gives. */
    method ReadStored(a: AttrName, newKey: string) returns (r: Result<Value>)
      requires Valid() && !IsBookkeeping(a) && FreshKey(db, newKey)
      requires !IsPrivate(a) ==> AttrKey(key, a) in db.records
      modifies this, db
      ensures Valid() && locals == old(locals)
      ensures db.records == old(db.records) && db.order == old(db.order) && db.IdentityGrown()
      ensures Missing(a, locals) ==> r == Err(AttributeError(a.s))
      ensures !Missing(a, locals) ==> r.Ok? && ReadValue(a, r.value, key, db.records, locals, db.key2obj)
    {
      r := GetAttr(a, newKey);
    }

    /** The reads of the listing walk, name by name: each name with the
        value reading it gives, or the error of the first read that fails. */
    method ReadAll(names: seq<AttrName>, newKey: string) returns (r: Result<seq<(AttrName, Value)>>)
      requires Valid() && FreshKey(db, newKey)
      requires forall a :: a in names ==> !IsBookkeeping(a) && AttrKey(key, a) in db.order
      modifies this, db
      ensures Valid() && locals == old(locals)
      ensures db.records == old(db.records) && db.IdentityGrown()
      ensures r.Ok? ==> ReadBack(names, r.value, key, db.records, locals, db.key2obj)
      ensures r.Err? ==> exists t :: FailsAt(names, locals, t) && r.error == AttributeError(names[t].s)
    {
      var pairs: seq<(AttrName, Value)> := [];
      var j := 0;
      while j < |names|
        invariant 0 <= j <= |names|
        invariant Valid() && locals == old(locals)
        invariant db.records == old(db.records) && db.order == old(db.order) && db.IdentityGrown()
        invariant FreshKey(db, newKey)
        invariant ReadBack(names[..j], pairs, key, db.records, locals, db.key2obj)
        invariant forall u :: 0 <= u < j ==> !Missing(names[u], locals)
      {
        var a := names[j];
        assert AttrKey(key, a) in db.records;
        ghost var live := db.key2obj;
        var v := ReadStored(a, newKey);
        if v.Err? {
          assert FailsAt(names, locals, j);
          return Err(v.error);
        }
        ReadStep(names, j, pairs, v.value, key, db.records, locals, live, db.key2obj);
        pairs := pairs + [(a, v.value)];
        j := j + 1;
      }
      assert names[..j] == names;
      r := Ok(pairs);
    }

    /** `iteritems()`: each listed name with the value `o[name]` gives. No
        read along the way creates an attribute, because every listed name
        has a record; the first listed underscore name that is not held in
        memory ends the walk with `AttributeError`. */
    method Items(newKey: string) returns (r: Result<seq<(AttrName, Value)>>)
      requires Valid() && FreshKey(db, newKey)
      requires Listing(db.order, key).Ok? ==>
        forall a :: a in Listing(db.order, key).value ==> !IsBookkeeping(a)
      modifies this, db
      ensures Valid() && locals == old(locals)
      ensures db.records == old(db.records) && db.IdentityGrown()
      ensures Listing(old(db.order), key).Err? ==> r == Err(Listing(old(db.order), key).error)
      ensures Listing(old(db.order), key).Ok? && r.Ok? ==>
        ReadBack(Listing(old(db.order), key).value, r.value, key, db.records, locals, db.key2obj)
      ensures Listing(old(db.order), key).Ok? && r.Err? ==>
        exists t :: FailsAt(Listing(old(db.order), key).value, locals, t)
                 && r.error == AttributeError(Listing(old(db.order), key).value[t].s)
    {
      var listed := Keys();
      if listed.Err? {
        return Err(listed.error);
      }
      ListingListsStoredKeys(db.order, key);
      r := ReadAll(listed.value, newKey);
    }
  }

  /** `newer` keeps every entry of `older`. */
  ghost predicate Grown(older: map<string, Persistent>, newer: map<string, Persistent>) {
    forall k :: k in older ==> k in newer && newer[k] == older[k]
  }

  /** Reading `a` raises `AttributeError`: an underscore name that is not
      held in memory. */
  predicate Missing(a: AttrName, locals: map<string, Value>) {
    IsPrivate(a) && a.s !in locals
  }

  /** The walk over `names` fails at position `t`: the first missing name. */
  predicate FailsAt(names: seq<AttrName>, locals: map<string, Value>, t: int) {
    && 0 <= t < |names|
    && Missing(names[t], locals)
    && forall u :: 0 <= u < t ==> !Missing(names[u], locals)
  }

  /** `v` is what reading `a` on the object keyed `key` gives: the in-memory
      value of an underscore name; otherwise the unpickled record (a plain
      value, or an instance of the referenced key), unless the attribute key
      itself has a live instance, which is then returned. Every object read
      from the store is the live instance of its key. */
  ghost predicate ReadValue(a: AttrName, v: Value, key: string, records: map<string, Record>,
                            locals: map<string, Value>, live: map<string, Persistent>)
  {
    if IsPrivate(a) then a.s in locals && v == locals[a.s]
    else
      var k := AttrKey(key, a);
      && k in records
      && (Serialise(v) == records[k] || (k in live && v == Object(live[k])))
      && (v.Object? ==> v.obj.key in live && live[v.obj.key] == v.obj)
  }

  /** Each of `pairs` holds the corresponding name of `names` and the value
      reading it gives. */
  ghost predicate ReadBack(names: seq<AttrName>, pairs: seq<(AttrName, Value)>, key: string,
                           records: map<string, Record>, locals: map<string, Value>,
                           live: map<string, Persistent>)
  {
    && |pairs| == |names|
    && forall t :: 0 <= t < |pairs| ==>
         pairs[t].0 == names[t] && ReadValue(names[t], pairs[t].1, key, records, locals, live)
  }

  /** Reading more attributes keeps what earlier reads returned valid. */
  lemma ReadBackGrown(names: seq<AttrName>, pairs: seq<(AttrName, Value)>, key: string,
                      records: map<string, Record>, locals: map<string, Value>,
                      older: map<string, Persistent>, newer: map<string, Persistent>)
    requires ReadBack(names, pairs, key, records, locals, older) && Grown(older, newer)
    ensures ReadBack(names, pairs, key, records, locals, newer)
  {
  }

  /** One more name read in the walk. */
  lemma ReadStep(names: seq<AttrName>, j: nat, pairs: seq<(AttrName, Value)>, v: Value,
                 key: string, records: map<string, Record>, locals: map<string, Value>,
                 older: map<string, Persistent>, newer: map<string, Persistent>)
    requires j < |names| && ReadBack(names[..j], pairs, key, records, locals, older)
    requires Grown(older, newer) && ReadValue(names[j], v, key, records, locals, newer)
    ensures ReadBack(names[..j + 1], pairs + [(names[j], v)], key, records, locals, newer)
  {
    ReadBackGrown(names[..j], pairs, key, records, locals, older, newer);
    ReadBackAppend(names[..j], pairs, names[j], v, key, records, locals, newer);
    assert names[..j + 1] == names[..j] + [names[j]];
  }

  lemma ReadBackAppend(names: seq<AttrName>, pairs: seq<(AttrName, Value)>, a: AttrName, v: Value,
                       key: string, records: map<string, Record>, locals: map<string, Value>,
                       live: map<string, Persistent>)
    requires ReadBack(names, pairs, key, records, locals, live)
    requires ReadValue(a, v, key, records, locals, live)
    ensures ReadBack(names + [a], pairs + [(a, v)], key, records, locals, live)
  {
  }

  /** The listing collected so far followed by the rest of the scan. */
  function Concat(names: seq<AttrName>, rest: Result<seq<AttrName>>): (r: Result<seq<AttrName>>) {
    match rest
    case Ok(more) => Ok(names + more)
    case Err(e) => Err(e)
  }

  lemma ConcatNil(rest: Result<seq<AttrName>>)
    ensures Concat([], rest) == rest
  {
    if rest.Ok? {
      assert [] + rest.value == rest.value;
    }
  }

  lemma ConcatPrepend(names: seq<AttrName>, a: AttrName, rest: Result<seq<AttrName>>)
    ensures Concat(names, Prepend(a, rest)) == Concat(names + [a], rest)
  {
    if rest.Ok? {
      assert names + ([a] + rest.value) == (names + [a]) + rest.value;
    }
  }
}
