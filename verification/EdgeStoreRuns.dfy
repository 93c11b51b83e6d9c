/** Whole runs of the edge store. The informers of the syncer update their indexers first and
    notify the handlers afterwards, in order for each type; a handler writes the event to the
    persistent store. */
module EdgeStoreRuns {

  import opened Options
  import opened EdgeStore

  /** A change of an indexer and the notification it causes. */
  datatype Event = Put(t: Type, obj: Obj) | Drop(t: Type, key: Key)

  function KeyOf(e: Event): Key {
    match e
    case Put(_, obj) => obj.key
    case Drop(_, key) => key
  }

  datatype Mode = Offline | Syncing | Online

  /** While syncing the cache is still the old one; online it is the informers' indexers.
      `pending` are the notifications not yet handled. `lost` is a history: the objects for which
      a disconnect dropped a notification that was not stored, or a local write went to the
      persistent store alone, and nothing has made up for it since. */
  datatype State = State(
    mode: Mode, cache: Cache, informers: Cache, db: Db, pending: seq<Event>, lost: set<Full>)

  /** `Local` is an update or a delete that a request makes in the store. Requests go by the flag
      of the load balancer, which is down before the store leaves connected mode, so local writes
      come in every mode. A notification that is still handled after a disconnect is one, too. */
  datatype Step =
    | Connect
    | Inform(e: Event)
    | Handle(i: nat)
    | Refresh
    | Disconnect
    | Local(e: Event)
    | StoreOther(t: Type, key: Key, data: Data)
    | Restart(order: seq<string>)

  /** The resource types with a syncer: no separator in the name, and encoding is invertible. */
  ghost predicate Supported(codec: Codec, types: set<Type>) {
    && (forall t :: t in types ==> Plain(t))
    && (forall t, o :: t in types ==> codec.decode(t, codec.encode(o)) == Some(o))
  }

  ghost predicate Enabled(codec: Codec, types: set<Type>, s: State, step: Step) {
    match step
    case Connect => s.mode.Offline?
    case Inform(e) => !s.mode.Offline? && e.t in s.informers
    case Handle(i) => !s.mode.Offline? && i < |s.pending| && forall j :: 0 <= j < i ==> s.pending[j].t != s.pending[i].t
    case Refresh => s.mode.Syncing?
    case Disconnect => s.mode.Online?
    case Local(e) => e.t in types
    case StoreOther(t, _, _) => Plain(t) && forall data :: codec.decode(t, data).None?
    case Restart(order) => Enumerates(order, s.db)
  }

  function Applied(c: Cache, e: Event): Cache
    requires e.t in c
  {
    match e
    case Put(t, obj) => PutObj(c, t, obj)
    case Drop(t, key) => DropObj(c, t, key)
  }

  /** The cache after a local write in disconnected mode. */
  function LocalCache(codec: Codec, c: Cache, e: Event): Cache {
    match e
    case Put(t, obj) => UpdatedCache(codec, c, t, codec.encode(obj))
    case Drop(t, key) => DeletedCache(c, t, key)
  }

  /** A write in connected mode: only the persistent store changes. */
  function Written(codec: Codec, db: Db, e: Event): Db {
    match e
    case Put(t, obj) => db[FormKeyName(t, obj.key) := codec.encode(obj)]
    case Drop(t, key) => db - {FormKeyName(t, key)}
  }

  /** The last pending notification for an object. */
  function LastFor(es: seq<Event>, t: Type, k: Key): Option<Event> {
    if es == [] then None
    else
      var e := es[|es| - 1];
      if e.t == t && KeyOf(e) == k then Some(e) else LastFor(es[..|es| - 1], t, k)
  }

  function Shown(e: Event): Option<Obj> {
    match e
    case Put(_, obj) => Some(obj)
    case Drop(_, _) => None
  }

  /** What the store will hold for an object once everything pending is handled. */
  function Eventually(codec: Codec, s: State, t: Type, k: Key): Option<Obj> {
    match LastFor(s.pending, t, k)
    case Some(e) => Shown(e)
    case None => Stored(codec, s.db, t, k)
  }

  /** The objects whose last pending notification differs from what is stored. */
  ghost function Unwritten(codec: Codec, s: State): set<Full> {
    set e | e in s.pending && Eventually(codec, s, e.t, KeyOf(e)) != Stored(codec, s.db, e.t, KeyOf(e))
      :: Full(e.t, KeyOf(e))
  }

  ghost function Next(codec: Codec, types: set<Type>, s: State, step: Step): State
    requires Enabled(codec, types, s, step)
  {
    match step
    case Connect => s.(mode := Syncing, informers := map t | t in types :: map[], pending := [], lost := {})
    case Inform(e) =>
      var informers := Applied(s.informers, e);
      var cache := if s.mode.Online? then informers else s.cache;
      s.(informers := informers, cache := cache, pending := s.pending + [e], lost := s.lost - {Full(e.t, KeyOf(e))})
    case Handle(i) =>
      s.(db := Written(codec, s.db, s.pending[i]), pending := s.pending[..i] + s.pending[i + 1..])
    case Refresh =>
      var lost := set f | f in s.lost && Lookup(s.informers, f.t, f.k).Some?;
      s.(mode := Online, cache := s.informers, db := Merged(s.informers, s.db), lost := lost)
    case Disconnect => s.(mode := Offline, pending := [], lost := s.lost + Unwritten(codec, s))
    case Local(e) =>
      var cache := if s.mode.Offline? then LocalCache(codec, s.cache, e) else s.cache;
      var f := Full(e.t, KeyOf(e));
      var view := Lookup(if s.mode.Offline? then cache else s.informers, f.t, f.k);
      var kept := LastFor(s.pending, f.t, f.k).Some? || view == Shown(e);
      s.(cache := cache, db := Written(codec, s.db, e), lost := if kept then s.lost - {f} else s.lost + {f})
    case StoreOther(t, key, data) =>
      var cache := if s.mode.Offline? then UpdatedCache(codec, s.cache, t, data) else s.cache;
      s.(cache := cache, db := s.db[FormKeyName(t, key) := data])
    case Restart(order) =>
      s.(mode := Offline, cache := Rebuilt(codec, s.db, order), pending := [], lost := {})
  }

  // ----- The invariant -----

  ghost predicate Shape(codec: Codec, types: set<Type>, s: State) {
    && Supported(codec, types) && WellStored(codec, s.db)
    && (s.mode.Offline? ==> s.pending == [])
    && (!s.mode.Offline? ==> s.informers.Keys == types && forall e :: e in s.pending ==> e.t in types)
    && (s.mode.Online? ==> s.cache == s.informers)
    && (forall t :: t in s.cache ==> Plain(t)) && (forall f :: f in s.lost ==> Plain(f.t))
  }

  /** Offline the store holds what the cache holds, and connected it will hold what the informers
      hold once the pending notifications are handled, but for the lost objects. While syncing
      this is so for what the informers have announced. */
  ghost predicate Inv(codec: Codec, types: set<Type>, s: State) {
    && Shape(codec, types, s)
    && forall t, k :: Plain(t) ==> InvAt(codec, types, s, t, k)
  }

  ghost predicate InvAt(codec: Codec, types: set<Type>, s: State, t: Type, k: Key) {
    && (LastFor(s.pending, t, k).Some? ==> Full(t, k) !in s.lost)
    && match s.mode
       case Offline => Lookup(s.cache, t, k) == Stored(codec, s.db, t, k) <==> Full(t, k) !in s.lost
       case Online => Lookup(s.informers, t, k) == Eventually(codec, s, t, k) <==> Full(t, k) !in s.lost
       case Syncing =>
         t in types && (Lookup(s.informers, t, k).Some? || LastFor(s.pending, t, k).Some?) ==>
           (Lookup(s.informers, t, k) == Eventually(codec, s, t, k) <==> Full(t, k) !in s.lost)
  }

  lemma LastForSnoc(es: seq<Event>, e: Event, t: Type, k: Key)
    ensures LastFor(es + [e], t, k) == if e.t == t && KeyOf(e) == k then Some(e) else LastFor(es, t, k)
  {
    assert (es + [e])[..|es|] == es;
  }

  lemma {:induction false} LastForConcat(a: seq<Event>, b: seq<Event>, t: Type, k: Key)
    ensures LastFor(a + b, t, k) == if LastFor(b, t, k).Some? then LastFor(b, t, k) else LastFor(a, t, k)
    decreases b
  {
    if b == [] {
      assert a + b == a;
    } else {
      var n := |b| - 1;
      assert a + b == (a + b[..n]) + [b[n]];
      LastForSnoc(a + b[..n], b[n], t, k);
      LastForConcat(a, b[..n], t, k);
    }
  }

  lemma {:induction false} LastForOtherType(es: seq<Event>, t: Type, k: Key)
    requires forall e :: e in es ==> e.t != t
    ensures LastFor(es, t, k) == None
  {
    if es != [] {
      LastForOtherType(es[..|es| - 1], t, k);
    }
  }

  lemma {:induction false} LastForIs(es: seq<Event>, t: Type, k: Key)
    requires LastFor(es, t, k).Some?
    ensures LastFor(es, t, k).value in es && LastFor(es, t, k).value.t == t && KeyOf(LastFor(es, t, k).value) == k
  {
    var e := es[|es| - 1];
    if !(e.t == t && KeyOf(e) == k) {
      LastForIs(es[..|es| - 1], t, k);
    }
  }

  lemma WrittenAt(codec: Codec, types: set<Type>, db: Db, e: Event, t: Type, k: Key)
    requires Supported(codec, types) && e.t in types && Plain(t)
    ensures Stored(codec, Written(codec, db, e), t, k) ==
            if e.t == t && KeyOf(e) == k then Shown(e) else Stored(codec, db, t, k)
  {
    if FormKeyName(e.t, KeyOf(e)) == FormKeyName(t, k) {
      FormInjective(e.t, KeyOf(e), t, k);
    }
  }

  lemma WrittenKeepsWellStored(codec: Codec, types: set<Type>, db: Db, e: Event)
    requires Supported(codec, types) && e.t in types && WellStored(codec, db)
    ensures WellStored(codec, Written(codec, db, e))
  {
    SplitForm(e.t, KeyOf(e));
  }

  /** Handling a notification does not change what the store will eventually hold. */
  lemma HandleKeepsEventually(codec: Codec, types: set<Type>, s: State, i: nat, t: Type, k: Key)
    requires Shape(codec, types, s) && Enabled(codec, types, s, Handle(i)) && Plain(t)
    ensures var s' := Next(codec, types, s, Handle(i));
            && Eventually(codec, s', t, k) == Eventually(codec, s, t, k)
            && (LastFor(s'.pending, t, k).Some? ==> LastFor(s.pending, t, k).Some?)
            && (LastFor(s.pending, t, k).Some? && LastFor(s'.pending, t, k).None? ==>
                  Stored(codec, s'.db, t, k) == Eventually(codec, s, t, k))
  {
    var e := s.pending[i];
    var a, b := s.pending[..i], s.pending[i + 1..];
    assert s.pending == (a + [e]) + b;
    LastForConcat(a + [e], b, t, k);
    LastForSnoc(a, e, t, k);
    LastForConcat(a, b, t, k);
    if e.t == t {
      LastForOtherType(a, t, k);
    }
    WrittenAt(codec, types, s.db, e, t, k);
  }

  // ----- Every step keeps the invariant -----

  lemma ConnectKeepsInv(codec: Codec, types: set<Type>, s: State)
    requires Inv(codec, types, s) && Enabled(codec, types, s, Connect)
    ensures Inv(codec, types, Next(codec, types, s, Connect))
  {
  }

  lemma InformKeepsInv(codec: Codec, types: set<Type>, s: State, e: Event)
    requires Inv(codec, types, s) && Enabled(codec, types, s, Inform(e))
    ensures Inv(codec, types, Next(codec, types, s, Inform(e)))
  {
    var s' := Next(codec, types, s, Inform(e));
    forall t, k | Plain(t)
      ensures InvAt(codec, types, s', t, k)
    {
      assert InvAt(codec, types, s, t, k);
      LastForSnoc(s.pending, e, t, k);
      assert Lookup(s'.informers, t, k) ==
             if e.t == t && KeyOf(e) == k then Shown(e) else Lookup(s.informers, t, k);
    }
  }

  lemma HandleKeepsInv(codec: Codec, types: set<Type>, s: State, i: nat)
    requires Inv(codec, types, s) && Enabled(codec, types, s, Handle(i))
    ensures Inv(codec, types, Next(codec, types, s, Handle(i)))
  {
    var s' := Next(codec, types, s, Handle(i));
    WrittenKeepsWellStored(codec, types, s.db, s.pending[i]);
    forall t, k | Plain(t)
      ensures InvAt(codec, types, s', t, k)
    {
      assert InvAt(codec, types, s, t, k);
      HandleKeepsEventually(codec, types, s, i, t, k);
    }
  }

  lemma RefreshKeepsInv(codec: Codec, types: set<Type>, s: State)
    requires Inv(codec, types, s) && Enabled(codec, types, s, Refresh)
    ensures Inv(codec, types, Next(codec, types, s, Refresh))
  {
    var s' := Next(codec, types, s, Refresh);
    forall t, k | Plain(t)
      ensures InvAt(codec, types, s', t, k)
    {
      assert InvAt(codec, types, s, t, k);
      MergedAt(codec, s.informers, s.db, t, k);
      if LastFor(s.pending, t, k).Some? {
        LastForIs(s.pending, t, k);
      }
    }
  }

  lemma UnwrittenIff(codec: Codec, s: State, t: Type, k: Key)
    ensures Full(t, k) in Unwritten(codec, s) <==> Eventually(codec, s, t, k) != Stored(codec, s.db, t, k)
  {
    if LastFor(s.pending, t, k).Some? {
      LastForIs(s.pending, t, k);
    }
  }

  /** What a restart would not bring back as it is in the cache. */
  ghost function NotKept(codec: Codec, s: State): set<Full> {
    s.lost + Unwritten(codec, s)
  }

  lemma KeptIff(codec: Codec, types: set<Type>, s: State, t: Type, k: Key)
    requires Inv(codec, types, s) && !s.mode.Syncing? && Plain(t)
    ensures Lookup(s.cache, t, k) == Stored(codec, s.db, t, k) <==> Full(t, k) !in NotKept(codec, s)
  {
    assert InvAt(codec, types, s, t, k);
    UnwrittenIff(codec, s, t, k);
  }

  lemma NotKeptPlain(codec: Codec, types: set<Type>, s: State)
    requires Shape(codec, types, s)
    ensures forall f :: f in NotKept(codec, s) ==> Plain(f.t)
  {
  }

  lemma AgreeIffKept(codec: Codec, types: set<Type>, s: State)
    requires Inv(codec, types, s) && !s.mode.Syncing?
    ensures Agree(codec, s.cache, s.db) <==> NotKept(codec, s) == {}
  {
    forall t, k | Plain(t)
      ensures Lookup(s.cache, t, k) == Stored(codec, s.db, t, k) <==> Full(t, k) !in NotKept(codec, s)
    {
      KeptIff(codec, types, s, t, k);
    }
    NotKeptPlain(codec, types, s);
    if NotKept(codec, s) != {} {
      var f :| f in NotKept(codec, s);
      assert f == Full(f.t, f.k) && Plain(f.t);
    }
  }

  lemma DisconnectKeepsInv(codec: Codec, types: set<Type>, s: State)
    requires Inv(codec, types, s) && Enabled(codec, types, s, Disconnect)
    ensures Inv(codec, types, Next(codec, types, s, Disconnect))
  {
    var s' := Next(codec, types, s, Disconnect);
    NotKeptPlain(codec, types, s);
    forall t, k | Plain(t)
      ensures InvAt(codec, types, s', t, k)
    {
      KeptIff(codec, types, s, t, k);
    }
  }

  /** A disconnect drops the notifications that are not handled. The store then still holds what
      the cache holds if and only if what each last one says was stored already, and nothing was
      lost before. */
  lemma DisconnectAgreesIff(codec: Codec, types: set<Type>, s: State)
    requires Inv(codec, types, s) && s.mode.Online?
    ensures var s' := Next(codec, types, s, Disconnect);
            Agree(codec, s'.cache, s'.db) <==>
            && s.lost == {}
            && forall t, k :: LastFor(s.pending, t, k).Some? ==>
                                Shown(LastFor(s.pending, t, k).value) == Stored(codec, s.db, t, k)
  {
    AgreeIffKept(codec, types, s);
    forall t, k
      ensures Full(t, k) in Unwritten(codec, s) <==> Eventually(codec, s, t, k) != Stored(codec, s.db, t, k)
    {
      UnwrittenIff(codec, s, t, k);
    }
    if Unwritten(codec, s) != {} {
      var f :| f in Unwritten(codec, s);
      assert Full(f.t, f.k) in Unwritten(codec, s);
    }
  }

  /** An object that the informer has announced just before a disconnect is in the cache, and a
      restart would not bring it back. */
  lemma DisconnectLoses(codec: Codec, types: set<Type>, s: State, t: Type, obj: Obj)
    requires Inv(codec, types, s) && s.mode.Online? && t in types && Stored(codec, s.db, t, obj.key) != Some(obj)
    ensures var s1 := Next(codec, types, s, Inform(Put(t, obj)));
            var s' := Next(codec, types, s1, Disconnect);
            Lookup(s'.cache, t, obj.key) == Some(obj) && !Agree(codec, s'.cache, s'.db)
  {
    var s1 := Next(codec, types, s, Inform(Put(t, obj)));
    assert Lookup(s1.cache, t, obj.key) == Some(obj) && s1.db == s.db;
  }

  /** A request that comes between the balancer's flag and the store's mode is stored and not
      cached: cache and store differ, and still do after the disconnect. */
  lemma ConnectedWriteDiffers(codec: Codec, types: set<Type>, s: State, e: Event)
    requires Inv(codec, types, s) && s.mode.Online? && s.pending == [] && e.t in types
    requires Lookup(s.cache, e.t, KeyOf(e)) != Shown(e)
    ensures var s1 := Next(codec, types, s, Local(e));
            var s' := Next(codec, types, s1, Disconnect);
            && Stored(codec, s1.db, e.t, KeyOf(e)) == Shown(e) != Lookup(s1.cache, e.t, KeyOf(e))
            && !Agree(codec, s1.cache, s1.db) && !Agree(codec, s'.cache, s'.db)
            && NotKept(codec, s1) == NotKept(codec, s) + {Full(e.t, KeyOf(e))}
  {
    WrittenAt(codec, types, s.db, e, e.t, KeyOf(e));
  }

  lemma LocalCacheAt(codec: Codec, types: set<Type>, c: Cache, e: Event, t: Type, k: Key)
    requires Supported(codec, types) && e.t in types
    ensures Lookup(LocalCache(codec, c, e), t, k) ==
            if e.t == t && KeyOf(e) == k && e.t in c then Shown(e) else Lookup(c, t, k)
  {
  }

  /** A local write in disconnected mode is stored. It is also cached, and kept by a restart, if and
      only if it is a delete or its type has a cache; nothing else is touched. */
  lemma OfflineWriteKeptIff(codec: Codec, types: set<Type>, s: State, e: Event, t: Type, k: Key)
    requires Inv(codec, types, s) && s.mode.Offline? && e.t in types && Plain(t)
    ensures var s', own := Next(codec, types, s, Local(e)), e.t == t && KeyOf(e) == k;
            && Stored(codec, s'.db, t, k) == (if own then Shown(e) else Stored(codec, s.db, t, k))
            && Lookup(s'.cache, t, k) == (if own && e.t in s.cache then Shown(e) else Lookup(s.cache, t, k))
            && (own ==> (Full(t, k) !in NotKept(codec, s') <==> e.Drop? || e.t in s.cache))
            && (!own ==> (Full(t, k) in NotKept(codec, s') <==> Full(t, k) in NotKept(codec, s)))
  {
    var s' := Next(codec, types, s, Local(e));
    WrittenAt(codec, types, s.db, e, t, k);
    LocalCacheAt(codec, types, s.cache, e, t, k);
    LocalKeepsInv(codec, types, s, e);
    KeptIff(codec, types, s, t, k);
    KeptIff(codec, types, s', t, k);
  }

  lemma LocalKeepsInv(codec: Codec, types: set<Type>, s: State, e: Event)
    requires Inv(codec, types, s) && Enabled(codec, types, s, Local(e))
    ensures Inv(codec, types, Next(codec, types, s, Local(e)))
  {
    var s' := Next(codec, types, s, Local(e));
    WrittenKeepsWellStored(codec, types, s.db, e);
    forall t, k | Plain(t)
      ensures InvAt(codec, types, s', t, k)
    {
      assert InvAt(codec, types, s, t, k);
      WrittenAt(codec, types, s.db, e, t, k);
      LocalCacheAt(codec, types, s.cache, e, t, k);
      if s.mode.Online? && LastFor(s.pending, t, k).Some? {
        LastForIs(s.pending, t, k);
      }
    }
  }

  lemma StoreOtherKeepsInv(codec: Codec, types: set<Type>, s: State, t: Type, key: Key, data: Data)
    requires Inv(codec, types, s) && Enabled(codec, types, s, StoreOther(t, key, data))
    ensures Inv(codec, types, Next(codec, types, s, StoreOther(t, key, data)))
  {
    var s' := Next(codec, types, s, StoreOther(t, key, data));
    SplitForm(t, key);
    assert s'.cache == s.cache;
    forall t1, k1 | Plain(t1)
      ensures Stored(codec, s'.db, t1, k1) == Stored(codec, s.db, t1, k1)
    {
      if FormKeyName(t1, k1) == FormKeyName(t, key) {
        FormInjective(t1, k1, t, key);
      }
    }
    forall t1, k1 | Plain(t1)
      ensures InvAt(codec, types, s', t1, k1)
    {
      assert InvAt(codec, types, s, t1, k1);
    }
  }

  lemma RebuiltTypesPlain(codec: Codec, db: Db, order: seq<string>)
    requires forall n :: n in order ==> n in db
    ensures forall t :: t in Rebuilt(codec, db, order) ==> Plain(t)
  {
    forall t | t in Rebuilt(codec, db, order)
      ensures Plain(t)
    {
      RebuiltTypes(codec, db, order, t);
      var n :| n in order && OfType(n, t);
      FormSplit(n);
    }
  }

  lemma RestartKeepsInv(codec: Codec, types: set<Type>, s: State, order: seq<string>)
    requires Inv(codec, types, s) && Enabled(codec, types, s, Restart(order))
    ensures Inv(codec, types, Next(codec, types, s, Restart(order)))
  {
    RebuiltTypesPlain(codec, s.db, order);
    forall t, k | Plain(t)
      ensures Lookup(Rebuilt(codec, s.db, order), t, k) == Stored(codec, s.db, t, k)
    {
      RebuiltAt(codec, s.db, order, t, k);
    }
  }

  lemma NextKeepsInv(codec: Codec, types: set<Type>, s: State, step: Step)
    requires Inv(codec, types, s) && Enabled(codec, types, s, step)
    ensures Inv(codec, types, Next(codec, types, s, step))
  {
    match step {
      case Connect => ConnectKeepsInv(codec, types, s);
      case Inform(e) => InformKeepsInv(codec, types, s, e);
      case Handle(i) => HandleKeepsInv(codec, types, s, i);
      case Refresh => RefreshKeepsInv(codec, types, s);
      case Disconnect => DisconnectKeepsInv(codec, types, s);
      case Local(e) => LocalKeepsInv(codec, types, s, e);
      case StoreOther(t, key, data) => StoreOtherKeepsInv(codec, types, s, t, key, data);
      case Restart(order) => RestartKeepsInv(codec, types, s, order);
    }
  }

  // ----- Runs -----

  /** A hub just started on a well-stored database. */
  ghost predicate Opened(codec: Codec, s: State) {
    && s.mode.Offline? && WellStored(codec, s.db) && s.pending == [] && s.lost == {}
    && exists order :: Enumerates(order, s.db) && s.cache == Rebuilt(codec, s.db, order)
  }

  lemma OpenedInv(codec: Codec, types: set<Type>, s: State)
    requires Supported(codec, types) && Opened(codec, s)
    ensures Inv(codec, types, s)
  {
    var order :| Enumerates(order, s.db) && s.cache == Rebuilt(codec, s.db, order);
    RebuiltTypesPlain(codec, s.db, order);
    AgreeIffRebuilt(codec, s.cache, s.db, order);
  }

  ghost predicate IsRun(codec: Codec, types: set<Type>, ss: seq<State>, steps: seq<Step>) {
    && |ss| == |steps| + 1
    && Supported(codec, types)
    && Opened(codec, ss[0])
    && forall i :: 0 <= i < |steps| ==>
                     Enabled(codec, types, ss[i], steps[i]) && ss[i + 1] == Next(codec, types, ss[i], steps[i])
  }

  lemma {:induction false} RunInv(codec: Codec, types: set<Type>, ss: seq<State>, steps: seq<Step>, n: nat)
    requires IsRun(codec, types, ss, steps) && n <= |steps|
    ensures Inv(codec, types, ss[n])
  {
    if n == 0 {
      OpenedInv(codec, types, ss[0]);
    } else {
      RunInv(codec, types, ss, steps, n - 1);
      NextKeepsInv(codec, types, ss[n - 1], steps[n - 1]);
    }
  }

  /** In every run, with local writes, disconnects and crashes at any moment: whenever the hub is
      disconnected or connected, a restart rebuilds exactly the live cache if and only if no
      notification that says something else than what is stored is outstanding or was dropped, and
      no local write went to the store alone, without being made up for. */
  lemma RestartRestoresCacheIff(codec: Codec, types: set<Type>, ss: seq<State>, steps: seq<Step>, order: seq<string>)
    requires IsRun(codec, types, ss, steps)
    requires !ss[|steps|].mode.Syncing? && Enumerates(order, ss[|steps|].db)
    ensures var s := ss[|steps|]; SameContents(s.cache, Rebuilt(codec, s.db, order)) <==> NotKept(codec, s) == {}
  {
    var s := ss[|steps|];
    RunInv(codec, types, ss, steps, |steps|);
    AgreeIffKept(codec, types, s);
    AgreeIffRebuilt(codec, s.cache, s.db, order);
  }

  /** A restart from any state of a run, also in the middle of syncing, leaves cache and store in
      agreement. */
  lemma RestartAgrees(codec: Codec, types: set<Type>, ss: seq<State>, steps: seq<Step>, order: seq<string>)
    requires IsRun(codec, types, ss, steps) && Enumerates(order, ss[|steps|].db)
    ensures var s' := Next(codec, types, ss[|steps|], Restart(order)); Agree(codec, s'.cache, s'.db)
  {
    RunInv(codec, types, ss, steps, |steps|);
    RestartKeepsInv(codec, types, ss[|steps|], order);
    AgreeIffKept(codec, types, Next(codec, types, ss[|steps|], Restart(order)));
  }
}
