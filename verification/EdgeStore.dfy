/** The edge hub's store: an in-memory cache per resource type over one flat persistent
    key-value store, across connected and disconnected operation, refresh and restart. */
module EdgeStore {

  import opened Options

  type Type = string
  type Key = string
  type Data = string

  const SEPARATION := '-'

  // ----- The flat key space -----

  function FormKeyName(t: Type, k: Key): string {
    t + [SEPARATION] + k
  }

  datatype Full = Full(t: Type, k: Key)

  /** Split at the first separator; no separator is an error. */
  function SplitKeyName(name: string): Option<Full> {
    if name == "" then None
    else if name[0] == SEPARATION then Some(Full("", name[1..]))
    else match SplitKeyName(name[1..])
         case None => None
         case Some(f) => Some(Full([name[0]] + f.t, f.k))
  }

  predicate Plain(t: Type) {
    SEPARATION !in t
  }

  /** Splitting inverts forming for types without a separator, whatever the key. */
  lemma {:induction false} SplitForm(t: Type, k: Key)
    requires Plain(t)
    ensures SplitKeyName(FormKeyName(t, k)) == Some(Full(t, k))
  {
    var name := FormKeyName(t, k);
    if t == "" {
      assert name[1..] == k;
    } else {
      assert name[1..] == FormKeyName(t[1..], k) && t[0] in t;
      SplitForm(t[1..], k);
      assert [t[0]] + t[1..] == t;
    }
  }

  /** Forming inverts splitting. */
  lemma {:induction false} FormSplit(name: string)
    ensures var f := SplitKeyName(name);
            && (f.Some? ==> Plain(f.value.t) && FormKeyName(f.value.t, f.value.k) == name)
            && (f.None? <==> SEPARATION !in name)
  {
    if name != "" && name[0] != SEPARATION {
      FormSplit(name[1..]);
      assert name == [name[0]] + name[1..];
    }
  }

  lemma FormInjective(t: Type, k: Key, t': Type, k': Key)
    requires Plain(t) && Plain(t') && FormKeyName(t, k) == FormKeyName(t', k')
    ensures t == t' && k == k'
  {
    SplitForm(t, k);
    SplitForm(t', k');
  }

  /** The names in a prefix scan for type `t` are exactly those of the entries of that type. */
  lemma PrefixIsType(t: Type, name: string)
    requires Plain(t)
    ensures t + [SEPARATION] <= name <==> SplitKeyName(name).Some? && SplitKeyName(name).value.t == t
  {
    FormSplit(name);
    if t + [SEPARATION] <= name {
      var k := name[|t| + 1..];
      assert name == FormKeyName(t, k);
      SplitForm(t, k);
    }
  }

  // ----- Objects and caches -----

  datatype Obj = Obj(key: Key, body: string)

  /** JSON encoding and decoding by type; `decode` fails for unsupported types and bad data. */
  datatype Codec = Codec(encode: Obj -> Data, decode: (Type, Data) -> Option<Obj>)

  type Cache = map<Type, map<Key, Obj>>
  type Db = map<string, Data>

  function Lookup(c: Cache, t: Type, k: Key): Option<Obj> {
    if t in c && k in c[t] then Some(c[t][k]) else None
  }

  /** The object the persistent store holds for a type and key. */
  function Stored(codec: Codec, db: Db, t: Type, k: Key): Option<Obj> {
    if FormKeyName(t, k) in db then codec.decode(t, db[FormKeyName(t, k)]) else None
  }

  /** Add or replace an object under its own key. */
  function PutObj(c: Cache, t: Type, o: Obj): Cache
    requires t in c
  {
    c[t := c[t][o.key := o]]
  }

  function DropObj(c: Cache, t: Type, k: Key): Cache
    requires t in c
  {
    c[t := c[t] - {k}]
  }

  /** Update in disconnected mode: the cache follows only for a cached type and decodable data. */
  function UpdatedCache(codec: Codec, c: Cache, t: Type, data: Data): Cache {
    if t !in c then c
    else match codec.decode(t, data)
         case None => c
         case Some(o) => PutObj(c, t, o)
  }

  function DeletedCache(c: Cache, t: Type, k: Key): Cache {
    if t !in c || k !in c[t] then c else DropObj(c, t, k)
  }

  /** The type and key of a name are cached. */
  predicate IsCached(c: Cache, name: string) {
    match SplitKeyName(name)
    case None => false
    case Some(f) => Lookup(c, f.t, f.k).Some?
  }

  /** MergeDelete: keep the entries whose type and key are cached. */
  function Merged(c: Cache, db: Db): Db {
    map n | n in db && IsCached(c, n) :: db[n]
  }

  /** RebuildCache over the entries named in `order`. */
  function Rebuilt(codec: Codec, db: Db, order: seq<string>): Cache
    requires forall n :: n in order ==> n in db
    decreases order
  {
    if order == [] then map[]
    else
      var n := order[|order| - 1];
      var c := Rebuilt(codec, db, order[..|order| - 1]);
      match SplitKeyName(n)
      case None => c
      case Some(f) =>
        var c1 := if f.t in c then c else c[f.t := map[]];
        match codec.decode(f.t, db[n])
        case None => c1
        case Some(o) => PutObj(c1, f.t, o)
  }

  ghost predicate Enumerates(order: seq<string>, db: Db) {
    forall n :: n in order <==> n in db
  }

  /** `list` holds the data of exactly the entries `wanted`, each once, under `names`. */
  ghost predicate ListsData(list: seq<Data>, names: seq<string>, db: Db, wanted: set<string>) {
    && (forall n :: n in names <==> n in wanted)
    && (forall i, j :: 0 <= i < j < |names| ==> names[i] != names[j])
    && |list| == |names| && forall i :: 0 <= i < |list| ==> names[i] in db && list[i] == db[names[i]]
  }

  /** The names of `db` in a prefix scan for type `t`. */
  ghost function WithPrefix(db: Db, t: Type): set<string> {
    set n | n in db && t + [SEPARATION] <= n
  }

  lemma ListsOneMore(list: seq<Data>, names: seq<string>, db: Db, wanted: set<string>, n: string)
    requires ListsData(list, names, db, wanted) && n in db && n !in wanted
    ensures ListsData(list + [db[n]], names + [n], db, wanted + {n})
  {
  }

  class EdgehubStorage {
    const codec: Codec
    var cache: Cache
    var db: Db
    var remoteEnable: bool

    /** Open a store on existing persistent data. */
    constructor (codec: Codec, db: Db)
      ensures this.codec == codec && this.db == db && !remoteEnable
      ensures exists order :: Enumerates(order, db) && cache == Rebuilt(codec, db, order)
    {
      this.codec := codec;
      this.db := db;
      this.remoteEnable := false;
      new;
      cache := RebuildCache();
    }

    method Update(t: Type, k: Key, data: Data)
      modifies this`cache, this`db
      ensures db == old(db)[FormKeyName(t, k) := data]
      ensures cache == if remoteEnable then old(cache) else UpdatedCache(codec, old(cache), t, data)
    {
      if !remoteEnable {
        if t in cache {
          var obj := codec.decode(t, data);
          if obj.Some? {
            cache := cache[t := cache[t][obj.value.key := obj.value]];
          }
        }
      }
      db := db[FormKeyName(t, k) := data];
    }

    method Delete(t: Type, k: Key)
      modifies this`cache, this`db
      ensures db == old(db) - {FormKeyName(t, k)}
      ensures cache == if remoteEnable then old(cache) else DeletedCache(old(cache), t, k)
    {
      if !remoteEnable {
        if t in cache && k in cache[t] {
          cache := cache[t := cache[t] - {k}];
        }
      }
      db := db - {FormKeyName(t, k)};
    }

    /** Delete what is not cached, in one batch; a name without separator aborts the batch. */
    method MergeDelete() returns (ok: bool)
      modifies this`db
      ensures ok <==> forall n :: n in old(db) ==> SplitKeyName(n).Some?
      ensures db == if ok then Merged(cache, old(db)) else old(db)
    {
      var batch: set<string> := {};
      var rest := db.Keys;
      while rest != {}
        invariant rest <= db.Keys
        invariant forall n :: n in db && n !in rest ==> SplitKeyName(n).Some?
        invariant batch == set n | n in db && n !in rest && !IsCached(cache, n)
        decreases rest
      {
        var name :| name in rest;
        var f := SplitKeyName(name);
        if f.None? {
          return false;
        }
        rest := rest - {name};
        if f.value.t !in cache || f.value.k !in cache[f.value.t] {
          batch := batch + {name};
        }
      }
      db := db - batch;
      ok := true;
    }

    /** RefreshStorage: the informers' indexers become the cache, and what is not in them is
        deleted from the persistent store. */
    method RefreshStorage(indexers: Cache) returns (ok: bool)
      modifies this`cache, this`db
      ensures cache == indexers
      ensures ok <==> forall n :: n in old(db) ==> SplitKeyName(n).Some?
      ensures db == if ok then Merged(indexers, old(db)) else old(db)
    {
      cache := indexers;
      ok := MergeDelete();
    }

    /** Rebuild the cache from the persistent store, in the order of the iterator. */
    method RebuildCache() returns (c: Cache)
      ensures exists order :: Enumerates(order, db) && c == Rebuilt(codec, db, order)
    {
      c := map[];
      var rest := db.Keys;
      ghost var order: seq<string> := [];
      while rest != {}
        invariant rest <= db.Keys
        invariant forall n :: n in order <==> n in db && n !in rest
        invariant c == Rebuilt(codec, db, order)
        decreases rest
      {
        var n :| n in rest;
        rest := rest - {n};
        assert (order + [n])[..|order|] == order;
        order := order + [n];
        var f := SplitKeyName(n);
        if f.Some? {
          if f.value.t !in c {
            c := c[f.value.t := map[]];
          }
          var obj := codec.decode(f.value.t, db[n]);
          if obj.Some? {
            c := c[f.value.t := c[f.value.t][obj.value.key := obj.value]];
          }
        }
      }
      assert Enumerates(order, db);
    }

    /** The data of all entries under the prefix of a type. */
    method List(t: Type) returns (list: seq<Data>)
      ensures exists names :: ListsData(list, names, db, WithPrefix(db, t))
    {
      list := [];
      var rest := db.Keys;
      ghost var names: seq<string> := [];
      while rest != {}
        invariant rest <= db.Keys
        invariant ListsData(list, names, db, WithPrefix(db, t) - rest)
        decreases rest
      {
        var n :| n in rest;
        ghost var before := WithPrefix(db, t) - rest;
        rest := rest - {n};
        if t + [SEPARATION] <= n {
          ListsOneMore(list, names, db, before, n);
          list := list + [db[n]];
          names := names + [n];
          assert WithPrefix(db, t) - rest == before + {n};
        } else {
          assert WithPrefix(db, t) - rest == before;
        }
      }
      assert WithPrefix(db, t) - rest == WithPrefix(db, t);
    }
  }

  // ----- Rebuilding -----

  /** Every entry has a splittable name, and what can be decoded is stored under its own key. */
  ghost predicate WellStored(codec: Codec, db: Db) {
    forall n :: n in db ==>
                  && SplitKeyName(n).Some?
                  && var f := SplitKeyName(n).value;
                  codec.decode(f.t, db[n]).Some? ==> codec.decode(f.t, db[n]).value.key == f.k
  }

  /** Rebuilding a well-stored database caches exactly what it stores, in any iteration order. */
  lemma {:induction false} RebuiltAt(codec: Codec, db: Db, order: seq<string>, t: Type, k: Key)
    requires WellStored(codec, db) && (forall n :: n in order ==> n in db) && Plain(t)
    ensures Lookup(Rebuilt(codec, db, order), t, k) ==
            if FormKeyName(t, k) in order then Stored(codec, db, t, k) else None
    decreases order
  {
    SplitForm(t, k);
    if order != [] {
      var n := order[|order| - 1];
      RebuiltAt(codec, db, order[..|order| - 1], t, k);
      assert order == order[..|order| - 1] + [n];
      FormSplit(n);
    }
  }

  predicate OfType(n: string, t: Type) {
    SplitKeyName(n).Some? && SplitKeyName(n).value.t == t
  }

  /** Rebuilding makes a cache for exactly the types that have an entry, decodable or not. Updates of
      any other type do not reach the cache afterwards. */
  lemma {:induction false} RebuiltTypes(codec: Codec, db: Db, order: seq<string>, t: Type)
    requires forall n :: n in order ==> n in db
    ensures t in Rebuilt(codec, db, order) <==> exists n :: n in order && OfType(n, t)
    decreases order
  {
    if order != [] {
      var n := order[|order| - 1];
      RebuiltTypes(codec, db, order[..|order| - 1], t);
      assert order == order[..|order| - 1] + [n];
      assert t in Rebuilt(codec, db, order) <==> t in Rebuilt(codec, db, order[..|order| - 1]) || OfType(n, t);
    }
  }

  /** The cache and the persistent store hold the same objects. */
  ghost predicate Agree(codec: Codec, c: Cache, db: Db) {
    forall t, k :: Plain(t) ==> Lookup(c, t, k) == Stored(codec, db, t, k)
  }

  /** Two caches hold the same objects; types without objects do not count. */
  ghost predicate SameContents(c: Cache, d: Cache) {
    forall t, k :: Plain(t) ==> Lookup(c, t, k) == Lookup(d, t, k)
  }

  /** A cache agrees with the store if and only if rebuilding the store gives it back. */
  lemma AgreeIffRebuilt(codec: Codec, c: Cache, db: Db, order: seq<string>)
    requires WellStored(codec, db) && Enumerates(order, db)
    ensures Agree(codec, c, db) <==> SameContents(c, Rebuilt(codec, db, order))
  {
    forall t, k | Plain(t)
      ensures Lookup(Rebuilt(codec, db, order), t, k) == Stored(codec, db, t, k)
    {
      RebuiltAt(codec, db, order, t, k);
    }
  }

  /** MergeDelete leaves exactly the entries that are cached. */
  lemma MergedAt(codec: Codec, c: Cache, db: Db, t: Type, k: Key)
    requires Plain(t)
    ensures Stored(codec, Merged(c, db), t, k) == if Lookup(c, t, k).Some? then Stored(codec, db, t, k) else None
  {
    SplitForm(t, k);
  }

  /** If the store covered the cache, then after MergeDelete rebuilding gives the cache back. */
  lemma MergeThenRebuild(codec: Codec, c: Cache, db: Db, order: seq<string>)
    requires WellStored(codec, db) && Enumerates(order, Merged(c, db))
    requires forall t, k :: Plain(t) && Lookup(c, t, k).Some? ==> Stored(codec, db, t, k) == Lookup(c, t, k)
    ensures SameContents(c, Rebuilt(codec, Merged(c, db), order))
  {
    forall t, k | Plain(t)
      ensures Lookup(c, t, k) == Stored(codec, Merged(c, db), t, k)
    {
      MergedAt(codec, c, db, t, k);
    }
    AgreeIffRebuilt(codec, c, Merged(c, db), order);
  }

  /** An indexer holds every object under the object's own key. */
  ghost predicate WellCached(c: Cache) {
    forall t, k :: t in c && k in c[t] ==> c[t][k].key == k
  }

  /** An update in disconnected mode keeps cache and store in agreement if and only if the type
      is cached and the data decodes to an object of that key, or neither side shows anything
      under the key afterwards. */
  lemma OfflineUpdateAgreesIff(codec: Codec, c: Cache, db: Db, t: Type, k: Key, data: Data)
    requires Agree(codec, c, db) && WellCached(c) && Plain(t)
    ensures Agree(codec, UpdatedCache(codec, c, t, data), db[FormKeyName(t, k) := data]) <==>
            var o := codec.decode(t, data);
            if o.Some? then t in c && o.value.key == k else Lookup(c, t, k).None?
  {
    var c', db' := UpdatedCache(codec, c, t, data), db[FormKeyName(t, k) := data];
    var o := codec.decode(t, data);
    forall t1, k1 | Plain(t1) && (t1 != t || k1 != k)
      ensures Stored(codec, db', t1, k1) == Stored(codec, db, t1, k1)
    {
      if FormKeyName(t1, k1) == FormKeyName(t, k) {
        FormInjective(t1, k1, t, k);
      }
    }
    assert Stored(codec, db', t, k) == o;
    if o.Some? && t in c && o.value.key != k {
      assert Lookup(c', t, k) == Lookup(c, t, k) != o;
    }
  }
}
