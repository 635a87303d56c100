/** `CollectionEnumSynchronizer.register`: at start-up the collections whose
    source is ENUM are reconciled with the registered collection enums. An
    enum with a collection of its name keeps it (its source renamed to the
    enum's class name), an enum without one gets a new system collection,
    and ENUM collections no enum names are deleted.

    The method is not transactional: when it throws, what it saved before
    the throw stays saved. */
module EnumSync {
  import opened Common
  import opened CollectionModel
  import opened EnumSourceLoader
  import CollectionService

  predicate IsEnumCollection(c: Collection)
  {
    c.source.Some? && c.source.value.sourceType == EnumSource
  }

  /** `findBySourceType(ENUM)`, in table order. */
  function EnumCollections(cs: seq<Collection>): (r: seq<Collection>)
    ensures forall c :: c in r <==> c in cs && IsEnumCollection(c)
    decreases |cs|
  {
    if |cs| == 0 then []
    else (if IsEnumCollection(cs[0]) then [cs[0]] else []) + EnumCollections(cs[1..])
  }

  predicate DistinctNames(cs: seq<Collection>)
  {
    forall i, j :: 0 <= i < j < |cs| ==> cs[i].name != cs[j].name
  }

  /** `Collectors.toMap(Collection::getName, identity())`, which throws on a
      repeated name. */
  function ByName(cs: seq<Collection>): (r: Result<map<string, Collection>, ServiceError>)
    ensures r.Err? <==> !DistinctNames(cs)
    ensures r.Err? ==> r.error == DuplicateKey
    ensures r.Ok? ==> forall c :: c in cs ==> c.name in r.value
    ensures r.Ok? ==> forall n :: n in r.value ==> r.value[n] in cs && r.value[n].name == n
    decreases |cs|
  {
    if |cs| == 0 then Ok(map[])
    else
      var rest := cs[1..];
      assert forall c :: c in cs <==> c == cs[0] || c in rest;
      DistinctNamesCons(cs);
      match ByName(rest)
      case Err(e) => Err(e)
      case Ok(m) =>
        if cs[0].name in m then
          var j :| 0 <= j < |rest| && rest[j] == m[cs[0].name];
          Err(DuplicateKey)
        else Ok(m[cs[0].name := cs[0]])
  }

  lemma DistinctNamesCons(cs: seq<Collection>)
    requires |cs| > 0
    ensures DistinctNames(cs) <==> DistinctNames(cs[1..]) && forall j :: 0 <= j < |cs| - 1 ==> cs[1..][j].name != cs[0].name
  {
    var rest := cs[1..];
    if DistinctNames(rest) && forall j :: 0 <= j < |rest| ==> rest[j].name != cs[0].name {
      forall i, j | 0 <= i < j < |cs| ensures cs[i].name != cs[j].name {
        assert cs[j] == rest[j - 1];
        if i > 0 { assert cs[i] == rest[i - 1]; }
      }
    }
    if DistinctNames(cs) {
      forall j | 0 <= j < |rest| ensures rest[j].name != cs[0].name {
        assert rest[j] == cs[j + 1];
      }
    }
  }

  /** The map of the ENUM collections by name; its values are collections
      of the table. */
  predicate IndexOf(m: map<string, Collection>, initial: seq<Collection>)
  {
    && DistinctNames(EnumCollections(initial))
    && (forall c :: c in initial && IsEnumCollection(c) ==> c.name in m && m[c.name] == c)
    && (forall n :: n in m ==> m[n] in initial && IsEnumCollection(m[n]) && m[n].name == n)
  }

  lemma ByNameIndex(initial: seq<Collection>)
    requires ByName(EnumCollections(initial)).Ok?
    ensures IndexOf(ByName(EnumCollections(initial)).value, initial)
  {
    var es := EnumCollections(initial);
    var m := ByName(es).value;
    forall c | c in initial && IsEnumCollection(c) ensures c.name in m && m[c.name] == c {
      var i :| 0 <= i < |es| && es[i] == c;
      var j :| 0 <= j < |es| && es[j] == m[c.name];
      assert i == j;
    }
  }

  /** The reconciliation in progress: the table, and the ENUM collections
      by name that no enum has claimed yet. */
  datatype Sync = Sync(store: Store, pending: map<string, Collection>)

  /** The table as it stood when an exception stopped the reconciliation. */
  datatype Halted = Halted(store: Store, error: ServiceError)

  /** What `register` leaves: the table, and the exception it threw if any. */
  datatype Outcome = Outcome(store: Store, error: Option<ServiceError>)

  /** A collection whose source is renamed to an enum's class name. */
  function Renamed(c: Collection, className: string): (r: Collection)
    requires c.source.Some?
    ensures r.uuid == c.uuid && r.name == c.name && r.items == c.items && r.systemCollection == c.systemCollection
    ensures r.source.Some? && r.source.value.name == Some(className)
    ensures r.source.value == c.source.value.(name := Some(className))
    ensures IsEnumCollection(r) == IsEnumCollection(c)
    ensures c.source.value.name == Some(className) ==> r == c
  {
    c.(source := Some(c.source.value.(name := Some(className))))
  }

  /** The system collection created for an enum, with its ENUM source. */
  function Created(e: CollectionEnum, u: Uuid): (r: Collection)
    ensures r.uuid == u && r.name == e.name && r.description == e.description && r.contentType == e.contentType
    ensures r.systemCollection && r.items == []
    ensures IsEnumCollection(r)
    ensures r.source == Some(Source(EnumSource, Some(e.className), None, None, Some(u)))
  {
    Collection(u, e.name, e.description, e.contentType, true, [],
               Some(Source(EnumSource, Some(e.className), None, None, Some(u))))
  }

  /** One pass of the loop over the enums; `u` is the uuid a new collection
      is given. No exception is thrown after a save, so a failed step saves
      nothing. */
  function Step(p: Sync, e: CollectionEnum, u: Uuid): (r: Result<Sync, ServiceError>)
    // a claimed collection whose source name is missing throws on the comparison
    ensures e.name in p.pending ==>
      (r.Err? <==> p.pending[e.name].source.None? || p.pending[e.name].source.value.name.None?)
    ensures e.name in p.pending && r.Err? ==> r.error == NullPointer
    // a claimed collection is dropped from the pending map; at most the rows
    // with its uuid change, and they become it with the source renamed
    ensures e.name in p.pending && r.Ok? ==>
      var c := p.pending[e.name];
      && r.value.pending == p.pending - {e.name}
      && |r.value.store.collections| == |p.store.collections|
      && forall i :: 0 <= i < |p.store.collections| ==>
           r.value.store.collections[i] == p.store.collections[i] ||
           (p.store.collections[i].uuid == c.uuid && r.value.store.collections[i] == Renamed(c, e.className))
    // an unclaimed name already taken by any collection throws
    ensures e.name !in p.pending ==>
      (r.Err? <==> FindByName(p.store.collections, e.name).Some?)
    ensures e.name !in p.pending && r.Err? ==> r.error == AlreadyExist(CollectionService.AlreadyExists(e.name))
    // otherwise a new collection is appended
    ensures e.name !in p.pending && r.Ok? ==>
      r.value == Sync(Store(p.store.collections + [Created(e, u)]), p.pending)
  {
    if e.name in p.pending then
      var c := p.pending[e.name];
      if c.source.None? || c.source.value.name.None? then Err(NullPointer)
      else if c.source.value.name == Some(e.className) then Ok(Sync(p.store, p.pending - {e.name}))
      else Ok(Sync(Store(ReplaceByUuid(p.store.collections, c.uuid, Renamed(c, e.className))), p.pending - {e.name}))
    else if FindByName(p.store.collections, e.name).Some? then
      Err(AlreadyExist(CollectionService.AlreadyExists(e.name)))
    else Ok(Sync(Store(p.store.collections + [Created(e, u)]), p.pending))
  }

  /** The loop over the first |enums| enums; the k-th new collection is
      given `newUuid(k)`. */
  function SyncPrefix(p0: Sync, enums: seq<CollectionEnum>, newUuid: nat -> Uuid): (r: Result<Sync, Halted>)
    decreases |enums|
  {
    if |enums| == 0 then Ok(p0)
    else
      match SyncPrefix(p0, enums[..|enums| - 1], newUuid)
      case Err(h) => Err(h)
      case Ok(p) =>
        match Step(p, enums[|enums| - 1], newUuid(|enums| - 1))
        case Err(e) => Err(Halted(p.store, e))
        case Ok(p2) => Ok(p2)
  }

  function PendingUuids(pending: map<string, Collection>): set<Uuid>
  {
    set n | n in pending :: pending[n].uuid
  }

  /** Deleting each unclaimed collection, with its items and source. */
  function RemoveUuids(cs: seq<Collection>, us: set<Uuid>): (r: seq<Collection>)
    ensures forall c :: c in r <==> c in cs && c.uuid !in us
    decreases |cs|
  {
    if |cs| == 0 then []
    else if cs[0].uuid in us then RemoveUuids(cs[1..], us)
    else [cs[0]] + RemoveUuids(cs[1..], us)
  }

  /** `register()`; `newUuid(k)` is the uuid the collection created for the
      k-th enum is given. */
  function Register(store: Store, enums: seq<CollectionEnum>, newUuid: nat -> Uuid): (r: Outcome)
    // repeated ENUM collection names stop the sync before anything changes
    ensures !DistinctNames(EnumCollections(store.collections)) ==> r == Outcome(store, Some(DuplicateKey))
  {
    match ByName(EnumCollections(store.collections))
    case Err(e) => Outcome(store, Some(e))
    case Ok(m) =>
      match SyncPrefix(Sync(store, m), enums, newUuid)
      case Err(h) => Outcome(h.store, Some(h.error))
      case Ok(p) => Outcome(Store(RemoveUuids(p.store.collections, PendingUuids(p.pending))), None)
  }

  // ---- what the loop keeps ----

  function EnumNames(enums: seq<CollectionEnum>): set<string>
  {
    set j | 0 <= j < |enums| :: enums[j].name
  }

  /** The uuids a new collection may be given are not in the table. */
  ghost predicate FreshUuids(initial: seq<Collection>, newUuid: nat -> Uuid)
  {
    forall k: nat, i :: 0 <= i < |initial| ==> newUuid(k) != initial[i].uuid
  }

  /** The collection a processed enum ends up with. */
  function Expected(m: map<string, Collection>, e: CollectionEnum, u: Uuid): Collection
  {
    if e.name in m && m[e.name].source.Some? then Renamed(m[e.name], e.className) else Created(e, u)
  }

  /** Facts about the loop that hold whether or not it goes on to succeed:
      the pending map is part of the index, and every collection that is
      not ENUM is still in the table. */
  predicate Kept(p: Sync, m: map<string, Collection>, initial: seq<Collection>)
  {
    && (forall n :: n in p.pending ==> n in m && p.pending[n] == m[n])
    && (forall n :: n in p.pending ==> p.pending[n] in p.store.collections)
    && (forall c :: c in initial && !IsEnumCollection(c) ==> c in p.store.collections)
  }

  /** Facts about a loop that has processed `done` without an exception. */
  predicate Claimed(p: Sync, m: map<string, Collection>, done: seq<CollectionEnum>, newUuid: nat -> Uuid)
  {
    // a name no enum has claimed is still pending
    && (forall n :: n in m && n !in EnumNames(done) ==> n in p.pending)
    // every ENUM collection is pending or carries a claimed name
    && (forall d :: d in p.store.collections && IsEnumCollection(d) ==>
          (d.name in p.pending && p.pending[d.name].uuid == d.uuid) || d.name in EnumNames(done))
    // each processed enum's collection is in the table, claimed and safe
    // from the final deletion
    && (forall j :: 0 <= j < |done| ==>
          && Expected(m, done[j], newUuid(j)) in p.store.collections
          && Expected(m, done[j], newUuid(j)).uuid !in PendingUuids(p.pending)
          && done[j].name !in p.pending)
  }

  lemma InitialKept(store: Store, m: map<string, Collection>)
    requires IndexOf(m, store.collections)
    ensures Kept(Sync(store, m), m, store.collections)
  {
  }

  lemma InitialClaimed(store: Store, m: map<string, Collection>, newUuid: nat -> Uuid)
    requires IndexOf(m, store.collections)
    ensures Claimed(Sync(store, m), m, [], newUuid)
  {
    forall d | d in store.collections && IsEnumCollection(d)
      ensures d.name in m && m[d.name].uuid == d.uuid
    {
    }
  }

  lemma UuidsOfIndex(m: map<string, Collection>, initial: seq<Collection>, a: string, b: string)
    requires IndexOf(m, initial) && UniqueUuids(Store(initial))
    requires a in m && b in m && a != b
    ensures m[a].uuid != m[b].uuid
  {
    var i :| 0 <= i < |initial| && initial[i] == m[a];
    var j :| 0 <= j < |initial| && initial[j] == m[b];
    assert i != j;
  }

  /** A collection no pending entry shares a uuid with is untouched by a
      step that claims a pending entry. */
  lemma StepKeepsOthers(p: Sync, e: CollectionEnum, u: Uuid, d: Collection)
    requires Step(p, e, u).Ok? && d in p.store.collections
    requires e.name in p.pending ==> d.uuid != p.pending[e.name].uuid
    ensures d in Step(p, e, u).value.store.collections
  {
    var i :| 0 <= i < |p.store.collections| && p.store.collections[i] == d;
    if e.name in p.pending {
      assert Step(p, e, u).value.store.collections[i] == d;
    } else {
      assert Step(p, e, u).value.store.collections[i] == d;
    }
  }

  lemma {:induction false} StepKept(p: Sync, e: CollectionEnum, u: Uuid, m: map<string, Collection>, initial: seq<Collection>)
    requires IndexOf(m, initial) && UniqueUuids(Store(initial))
    requires Kept(p, m, initial) && Step(p, e, u).Ok?
    ensures Kept(Step(p, e, u).value, m, initial)
  {
    var p2 := Step(p, e, u).value;
    forall n | n in p2.pending ensures p2.pending[n] in p2.store.collections {
      if e.name in p.pending {
        UuidsOfIndex(m, initial, n, e.name);
      }
      StepKeepsOthers(p, e, u, p.pending[n]);
    }
    forall c | c in initial && !IsEnumCollection(c) ensures c in p2.store.collections {
      if e.name in p.pending {
        var c1 := p.pending[e.name];
        var i :| 0 <= i < |initial| && initial[i] == c;
        var j :| 0 <= j < |initial| && initial[j] == c1;
        assert i != j;
      }
      StepKeepsOthers(p, e, u, c);
    }
  }

  lemma EnumNamesSnoc(done: seq<CollectionEnum>, e: CollectionEnum)
    ensures EnumNames(done + [e]) == EnumNames(done) + {e.name}
  {
    var all := done + [e];
    forall j | 0 <= j < |done| ensures done[j].name in EnumNames(all) {
      assert all[j] == done[j];
    }
    assert all[|done|] == e;
  }

  /** The new enum's collection is in the table after its step, and is no
      longer pending. */
  lemma {:induction false} StepClaimsNew(p: Sync, done: seq<CollectionEnum>, e: CollectionEnum, newUuid: nat -> Uuid,
                      m: map<string, Collection>, initial: seq<Collection>)
    requires IndexOf(m, initial) && UniqueUuids(Store(initial)) && FreshUuids(initial, newUuid)
    requires Kept(p, m, initial) && Claimed(p, m, done, newUuid)
    requires Step(p, e, newUuid(|done|)).Ok?
    ensures var p2 := Step(p, e, newUuid(|done|)).value;
      var x := Expected(m, e, newUuid(|done|));
      x in p2.store.collections && x.uuid !in PendingUuids(p2.pending) && e.name !in p2.pending
  {
    var u := newUuid(|done|);
    var p2 := Step(p, e, u).value;
    var x := Expected(m, e, u);
    if e.name in p.pending {
      var c := p.pending[e.name];
      assert x == Renamed(c, e.className);
      var i :| 0 <= i < |p.store.collections| && p.store.collections[i] == c;
      assert p2.store.collections[i] == x;
      forall n | n in p2.pending ensures p2.pending[n].uuid != x.uuid {
        UuidsOfIndex(m, initial, n, e.name);
      }
    } else {
      assert e.name in m ==> e.name in EnumNames(done);
      assert e.name !in EnumNames(done) by {
        forall j | 0 <= j < |done| ensures done[j].name != e.name {
          var y := Expected(m, done[j], newUuid(j));
          assert y in p.store.collections && y.name == done[j].name;
          assert FindByName(p.store.collections, done[j].name).Some?;
        }
      }
      assert x == Created(e, u);
      assert p2.store.collections[|p.store.collections|] == x;
      forall n | n in p2.pending ensures p2.pending[n].uuid != x.uuid {
        var k :| 0 <= k < |initial| && initial[k] == p2.pending[n];
      }
    }
  }

  /** The earlier enums' collections survive a step. */
  lemma StepKeepsEarlier(p: Sync, done: seq<CollectionEnum>, e: CollectionEnum, newUuid: nat -> Uuid,
                         m: map<string, Collection>, initial: seq<Collection>, j: nat)
    requires Claimed(p, m, done, newUuid)
    requires Step(p, e, newUuid(|done|)).Ok? && j < |done|
    ensures var p2 := Step(p, e, newUuid(|done|)).value;
      var y := Expected(m, done[j], newUuid(j));
      y in p2.store.collections && y.uuid !in PendingUuids(p2.pending) && done[j].name !in p2.pending
  {
    var p2 := Step(p, e, newUuid(|done|)).value;
    var y := Expected(m, done[j], newUuid(j));
    assert PendingUuids(p2.pending) <= PendingUuids(p.pending);
    assert e.name in p.pending ==> p.pending[e.name].uuid in PendingUuids(p.pending);
    StepKeepsOthers(p, e, newUuid(|done|), y);
  }

  /** After a step every ENUM collection is still pending or carries a
      claimed name. */
  lemma StepKeepsEnumNames(p: Sync, done: seq<CollectionEnum>, e: CollectionEnum, newUuid: nat -> Uuid,
                           m: map<string, Collection>, initial: seq<Collection>)
    requires IndexOf(m, initial) && Kept(p, m, initial) && Claimed(p, m, done, newUuid)
    requires Step(p, e, newUuid(|done|)).Ok?
    ensures var p2 := Step(p, e, newUuid(|done|)).value;
      forall d :: d in p2.store.collections && IsEnumCollection(d) ==>
        (d.name in p2.pending && p2.pending[d.name].uuid == d.uuid) || d.name in EnumNames(done + [e])
  {
    var p2 := Step(p, e, newUuid(|done|)).value;
    EnumNamesSnoc(done, e);
    forall d | d in p2.store.collections && IsEnumCollection(d)
      ensures (d.name in p2.pending && p2.pending[d.name].uuid == d.uuid) || d.name in EnumNames(done + [e])
    {
      var i :| 0 <= i < |p2.store.collections| && p2.store.collections[i] == d;
      if e.name in p.pending {
        assert d == p.store.collections[i] || d.name == e.name;
      } else if i < |p.store.collections| {
        assert d == p.store.collections[i];
      }
    }
  }

  lemma StepClaimed(p: Sync, done: seq<CollectionEnum>, e: CollectionEnum, newUuid: nat -> Uuid,
                    m: map<string, Collection>, initial: seq<Collection>)
    requires IndexOf(m, initial) && UniqueUuids(Store(initial)) && FreshUuids(initial, newUuid)
    requires Kept(p, m, initial) && Claimed(p, m, done, newUuid)
    requires Step(p, e, newUuid(|done|)).Ok?
    ensures Claimed(Step(p, e, newUuid(|done|)).value, m, done + [e], newUuid)
  {
    var p2 := Step(p, e, newUuid(|done|)).value;
    var all := done + [e];
    EnumNamesSnoc(done, e);
    StepClaimsNew(p, done, e, newUuid, m, initial);
    StepKeepsEnumNames(p, done, e, newUuid, m, initial);
    forall j | 0 <= j < |all|
      ensures Expected(m, all[j], newUuid(j)) in p2.store.collections
      ensures Expected(m, all[j], newUuid(j)).uuid !in PendingUuids(p2.pending)
      ensures all[j].name !in p2.pending
    {
      if j < |done| {
        assert all[j] == done[j];
        StepKeepsEarlier(p, done, e, newUuid, m, initial, j);
      } else {
        assert all[j] == e;
      }
    }
  }

  /** The loop invariants, on every prefix of the enums. */
  lemma {:induction false} SyncInvariant(store: Store, enums: seq<CollectionEnum>, newUuid: nat -> Uuid, m: map<string, Collection>)
    requires IndexOf(m, store.collections) && UniqueUuids(store)
    ensures SyncPrefix(Sync(store, m), enums, newUuid).Ok? ==> Kept(SyncPrefix(Sync(store, m), enums, newUuid).value, m, store.collections)
    ensures SyncPrefix(Sync(store, m), enums, newUuid).Err? ==>
      forall c :: c in store.collections && !IsEnumCollection(c) ==> c in SyncPrefix(Sync(store, m), enums, newUuid).error.store.collections
    ensures FreshUuids(store.collections, newUuid) && SyncPrefix(Sync(store, m), enums, newUuid).Ok? ==>
      Claimed(SyncPrefix(Sync(store, m), enums, newUuid).value, m, enums, newUuid)
    decreases |enums|
  {
    if |enums| == 0 {
      InitialKept(store, m);
      InitialClaimed(store, m, newUuid);
    } else {
      var init := enums[..|enums| - 1];
      var e := enums[|enums| - 1];
      assert enums == init + [e];
      SyncInvariant(store, init, newUuid, m);
      var r := SyncPrefix(Sync(store, m), init, newUuid);
      if r.Ok? && Step(r.value, e, newUuid(|init|)).Ok? {
        StepKept(r.value, e, newUuid(|init|), m, store.collections);
        if FreshUuids(store.collections, newUuid) {
          StepClaimed(r.value, init, e, newUuid, m, store.collections);
        }
      }
    }
  }

  // ---- the properties of register ----

  /** Only ENUM collections are touched: every other collection is still
      in the table, unchanged, whether or not the sync completes. */
  lemma OtherCollectionsUntouched(store: Store, enums: seq<CollectionEnum>, newUuid: nat -> Uuid)
    requires UniqueUuids(store)
    ensures forall c :: c in store.collections && !IsEnumCollection(c) ==> c in Register(store, enums, newUuid).store.collections
  {
    var es := EnumCollections(store.collections);
    if ByName(es).Ok? {
      var m := ByName(es).value;
      ByNameIndex(store.collections);
      SyncInvariant(store, enums, newUuid, m);
      var r := SyncPrefix(Sync(store, m), enums, newUuid);
      if r.Ok? {
        forall c | c in store.collections && !IsEnumCollection(c)
          ensures c.uuid !in PendingUuids(r.value.pending)
        {
          forall n | n in r.value.pending ensures r.value.pending[n].uuid != c.uuid {
            var i :| 0 <= i < |store.collections| && store.collections[i] == c;
            var j :| 0 <= j < |store.collections| && store.collections[j] == m[n];
            assert i != j;
          }
        }
      }
    }
  }

  /** On normal completion the names of the ENUM collections are exactly
      the names of the registered enums. */
  lemma EnumNamesMatchRegistry(store: Store, enums: seq<CollectionEnum>, newUuid: nat -> Uuid)
    requires UniqueUuids(store) && FreshUuids(store.collections, newUuid)
    requires Register(store, enums, newUuid).error.None?
    ensures var final := Register(store, enums, newUuid).store.collections;
      (set d | d in final && IsEnumCollection(d) :: d.name) == EnumNames(enums)
  {
    var m := ByName(EnumCollections(store.collections)).value;
    ByNameIndex(store.collections);
    SyncInvariant(store, enums, newUuid, m);
    var p := SyncPrefix(Sync(store, m), enums, newUuid).value;
    var final := Register(store, enums, newUuid).store.collections;
    assert final == RemoveUuids(p.store.collections, PendingUuids(p.pending));
    forall n | n in EnumNames(enums) ensures exists d :: d in final && IsEnumCollection(d) && d.name == n {
      var j :| 0 <= j < |enums| && enums[j].name == n;
      var x := Expected(m, enums[j], newUuid(j));
      assert x in final && IsEnumCollection(x) && x.name == n;
    }
    forall d | d in final && IsEnumCollection(d) ensures d.name in EnumNames(enums) {
      assert d.name in p.pending ==> p.pending[d.name].uuid in PendingUuids(p.pending);
    }
  }

  /** On normal completion an enum that had an ENUM collection of its name
      keeps that collection, with its source now named after the enum's
      class. */
  lemma ExistingCollectionReclaimed(store: Store, enums: seq<CollectionEnum>, newUuid: nat -> Uuid, c: Collection, j: nat)
    requires UniqueUuids(store) && FreshUuids(store.collections, newUuid)
    requires Register(store, enums, newUuid).error.None?
    requires c in store.collections && IsEnumCollection(c)
    requires j < |enums| && enums[j].name == c.name
    ensures Renamed(c, enums[j].className) in Register(store, enums, newUuid).store.collections
  {
    var m := ByName(EnumCollections(store.collections)).value;
    ByNameIndex(store.collections);
    SyncInvariant(store, enums, newUuid, m);
    assert Expected(m, enums[j], newUuid(j)) == Renamed(c, enums[j].className);
  }

  /** On normal completion an enum with no ENUM collection of its name has
      a new system collection with the enum's name, description and content
      type, no items, and an ENUM source named after the enum's class. */
  lemma MissingCollectionCreated(store: Store, enums: seq<CollectionEnum>, newUuid: nat -> Uuid, j: nat)
    requires UniqueUuids(store) && FreshUuids(store.collections, newUuid)
    requires Register(store, enums, newUuid).error.None?
    requires j < |enums| && forall c :: c in store.collections && IsEnumCollection(c) ==> c.name != enums[j].name
    ensures var x := Collection(newUuid(j), enums[j].name, enums[j].description, enums[j].contentType, true, [],
                                Some(Source(EnumSource, Some(enums[j].className), None, None, Some(newUuid(j)))));
      x in Register(store, enums, newUuid).store.collections
  {
    var m := ByName(EnumCollections(store.collections)).value;
    ByNameIndex(store.collections);
    SyncInvariant(store, enums, newUuid, m);
    NotIndexed(m, store.collections, enums[j].name);
    assert Expected(m, enums[j], newUuid(j)) == Created(enums[j], newUuid(j));
  }

  /** On normal completion an ENUM collection whose name no enum carries is
      deleted, with its items and source. */
  lemma UnclaimedCollectionDeleted(store: Store, enums: seq<CollectionEnum>, newUuid: nat -> Uuid, c: Collection)
    requires Register(store, enums, newUuid).error.None?
    requires c in store.collections && IsEnumCollection(c) && c.name !in EnumNames(enums)
    ensures forall d :: d in Register(store, enums, newUuid).store.collections ==> d.uuid != c.uuid
  {
    var m := ByName(EnumCollections(store.collections)).value;
    ByNameIndex(store.collections);
    ClaimedNamesStayPending(store, enums, newUuid, m);
    var p := SyncPrefix(Sync(store, m), enums, newUuid).value;
    assert p.pending[c.name] == c;
    assert c.uuid in PendingUuids(p.pending);
  }

  /** The deletion side of the invariant, which needs no assumption about
      uuids. */
  lemma {:induction false} ClaimedNamesStayPending(store: Store, enums: seq<CollectionEnum>, newUuid: nat -> Uuid, m: map<string, Collection>)
    ensures SyncPrefix(Sync(store, m), enums, newUuid).Ok? ==>
      var p := SyncPrefix(Sync(store, m), enums, newUuid).value;
      && (forall n :: n in p.pending ==> n in m && p.pending[n] == m[n])
      && (forall n :: n in m && n !in EnumNames(enums) ==> n in p.pending)
    decreases |enums|
  {
    if |enums| > 0 {
      var init := enums[..|enums| - 1];
      var e := enums[|enums| - 1];
      assert enums == init + [e];
      EnumNamesSnoc(init, e);
      ClaimedNamesStayPending(store, init, newUuid, m);
    }
  }

  // ---- when register completes ----

  function Names(cs: seq<Collection>): set<string>
  {
    set c | c in cs :: c.name
  }

  /** What lets every step of the loop go through: distinct ENUM collection
      names (or `toMap` throws), distinct enum names, and every collection
      carrying an enum's name being an ENUM collection whose source has a
      class name (or the step throws). */
  predicate Registrable(store: Store, enums: seq<CollectionEnum>)
  {
    && DistinctNames(EnumCollections(store.collections))
    && (forall i, j :: 0 <= i < j < |enums| ==> enums[i].name != enums[j].name)
    && (forall j, c :: 0 <= j < |enums| && c in store.collections && c.name == enums[j].name ==>
          IsEnumCollection(c) && c.source.value.name.Some?)
  }

  /** A collection in the table during the loop carries a name that was in
      the table at the start or that a processed enum carries. */
  lemma {:induction false} LoopNames(store: Store, enums: seq<CollectionEnum>, newUuid: nat -> Uuid, m: map<string, Collection>)
    requires IndexOf(m, store.collections)
    ensures SyncPrefix(Sync(store, m), enums, newUuid).Ok? ==>
      forall d :: d in SyncPrefix(Sync(store, m), enums, newUuid).value.store.collections ==>
        d.name in Names(store.collections) || d.name in EnumNames(enums)
    decreases |enums|
  {
    if |enums| > 0 && SyncPrefix(Sync(store, m), enums, newUuid).Ok? {
      var init := enums[..|enums| - 1];
      var e := enums[|enums| - 1];
      assert enums == init + [e];
      EnumNamesSnoc(init, e);
      LoopNames(store, init, newUuid, m);
      ClaimedNamesStayPending(store, init, newUuid, m);
      var p := SyncPrefix(Sync(store, m), init, newUuid).value;
      var p2 := SyncPrefix(Sync(store, m), enums, newUuid).value;
      assert p2 == Step(p, e, newUuid(|init|)).value;
      forall d | d in p2.store.collections ensures d.name in Names(store.collections) || d.name in EnumNames(enums) {
        var i :| 0 <= i < |p2.store.collections| && p2.store.collections[i] == d;
        if e.name in p.pending {
          assert p.pending[e.name] in store.collections;
        } else if i == |p.store.collections| {
          assert d.name == e.name;
        } else {
          assert d == p.store.collections[i];
        }
      }
    }
  }

  /** Under `Registrable` no step of the loop throws. */
  lemma {:induction false} LoopCompletes(store: Store, enums: seq<CollectionEnum>, all: seq<CollectionEnum>,
                                         newUuid: nat -> Uuid, m: map<string, Collection>)
    requires IndexOf(m, store.collections) && Registrable(store, all)
    requires |enums| <= |all| && enums == all[..|enums|]
    ensures SyncPrefix(Sync(store, m), enums, newUuid).Ok?
    decreases |enums|
  {
    if |enums| > 0 {
      var init := enums[..|enums| - 1];
      var e := enums[|enums| - 1];
      assert enums == init + [e];
      assert init == all[..|init|];
      LoopCompletes(store, init, all, newUuid, m);
      LoopNames(store, init, newUuid, m);
      ClaimedNamesStayPending(store, init, newUuid, m);
      var p := SyncPrefix(Sync(store, m), init, newUuid).value;
      assert e == all[|init|];
      assert e.name !in EnumNames(init) by {
        forall j | 0 <= j < |init| ensures init[j].name != e.name {
          assert init[j] == all[j];
        }
      }
      if e.name in p.pending {
        var c := p.pending[e.name];
        assert c == m[e.name] && c in store.collections;
      } else {
        assert e.name !in m;
      }
    }
  }

  /** `register` completes without throwing when every enum can claim or
      create its collection. */
  lemma RegisterCompletes(store: Store, enums: seq<CollectionEnum>, newUuid: nat -> Uuid)
    requires Registrable(store, enums)
    ensures Register(store, enums, newUuid).error.None?
  {
    var m := ByName(EnumCollections(store.collections)).value;
    ByNameIndex(store.collections);
    assert enums == enums[..|enums|];
    LoopCompletes(store, enums, enums, newUuid, m);
  }

  /** A name no ENUM collection carries is not in the index. */
  lemma NotIndexed(m: map<string, Collection>, initial: seq<Collection>, n: string)
    requires IndexOf(m, initial)
    requires forall c :: c in initial && IsEnumCollection(c) ==> c.name != n
    ensures n !in m
  {
  }

  /** A step for an unclaimed name that some collection already carries
      throws. */
  lemma TakenNameHalts(p: Sync, e: CollectionEnum, u: Uuid, d: Collection)
    requires e.name !in p.pending && d in p.store.collections && d.name == e.name
    ensures Step(p, e, u).Err?
  {
    var k :| 0 <= k < |p.store.collections| && p.store.collections[k] == d;
  }

  /** The step for such an enum throws, unless the loop threw before. */
  lemma {:induction false} TakenNameHaltsPrefix(store: Store, pre: seq<CollectionEnum>, e: CollectionEnum, newUuid: nat -> Uuid, c: Collection)
    requires UniqueUuids(store) && ByName(EnumCollections(store.collections)).Ok?
    requires forall d :: d in store.collections && IsEnumCollection(d) ==> d.name != e.name
    requires c in store.collections && c.name == e.name
    ensures SyncPrefix(Sync(store, ByName(EnumCollections(store.collections)).value), pre + [e], newUuid).Err?
  {
    var m := ByName(EnumCollections(store.collections)).value;
    ByNameIndex(store.collections);
    NotIndexed(m, store.collections, e.name);
    SyncInvariant(store, pre, newUuid, m);
    ClaimedNamesStayPending(store, pre, newUuid, m);
    assert (pre + [e])[..|pre|] == pre;
    var r := SyncPrefix(Sync(store, m), pre, newUuid);
    if r.Ok? {
      TakenNameHalts(r.value, e, newUuid(|pre|), c);
    }
  }

  /** A later enum whose name is taken by a collection that is not ENUM,
      with no ENUM collection of that name, stops the sync: the deletion of
      unclaimed collections never runs. */
  lemma {:induction false} TakenNameStopsSync(store: Store, enums: seq<CollectionEnum>, newUuid: nat -> Uuid, j: nat)
    requires UniqueUuids(store)
    requires j < |enums|
    requires forall c :: c in store.collections && IsEnumCollection(c) ==> c.name != enums[j].name
    requires exists c :: c in store.collections && c.name == enums[j].name
    ensures Register(store, enums, newUuid).error.Some?
  {
    if ByName(EnumCollections(store.collections)).Ok? {
      var c :| c in store.collections && c.name == enums[j].name;
      assert enums[..j + 1] == enums[..j] + [enums[j]];
      TakenNameHaltsPrefix(store, enums[..j], enums[j], newUuid, c);
      HaltPersists(Sync(store, ByName(EnumCollections(store.collections)).value), enums, newUuid, j + 1);
    }
  }

  /** Once the loop has thrown it stays thrown. */
  lemma {:induction false} HaltPersists(p0: Sync, enums: seq<CollectionEnum>, newUuid: nat -> Uuid, k: nat)
    requires k <= |enums| && SyncPrefix(p0, enums[..k], newUuid).Err?
    ensures SyncPrefix(p0, enums, newUuid).Err?
    decreases |enums| - k
  {
    if k < |enums| {
      assert enums[..k + 1][..k] == enums[..k];
      HaltPersists(p0, enums, newUuid, k + 1);
    } else {
      assert enums[..k] == enums;
    }
  }
}
