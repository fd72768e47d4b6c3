/**
  KvStoreMetaManager::UpgradeStoreMeta on the metadata store: loading a device's records, the whole
  upgrade, and running it again.
 */
module MetaUpgradeStore {
  import opened MetaKeys
  import opened MetaUpgrade
  import opened MetaUpgradeKeys
  import opened MetaUpgradeRuns

  const CURRENT_VERSION := 0x03000006

  /** StoreMetaData::GetPrefix({ uuid }) */
  function Prefix(uuid: string): string {
    PrefixOf([STORE, uuid])
  }

  /** An entry that cannot be read back leaves the default record. */
  function Decode(v: Value): Rec {
    RecOf(if v.Store? then v.meta else StoreMeta(CURRENT_VERSION, "", "", "", "", 0, "", 0))
  }

  function FoundBy(db: DB, prefix: string): set<string> {
    set k | k in db && prefix <= k
  }

  /** The entries found by the prefix of a device. */
  function Found(db: DB, uuid: string): set<string> {
    FoundBy(db, Prefix(uuid))
  }

  ghost predicate Enumerates(ks: seq<string>, keys: set<string>) {
    |ks| == |keys| && forall k :: k in ks <==> k in keys
  }

  ghost predicate DecodesTo(db: DB, ks: seq<string>, ms: seq<Rec>) {
    |ms| == |ks| && forall i | 0 <= i < |ks| :: ks[i] in db && ms[i] == Decode(db[ks[i]])
  }

  lemma DecodedOneMore(db: DB, ks: seq<string>, ms: seq<Rec>)
    requires |ms| < |ks| && ks[|ms|] in db && DecodesTo(db, ks[..|ms|], ms)
    ensures DecodesTo(db, ks[..|ms| + 1], ms + [Decode(db[ks[|ms|]])])
  {
  }

  lemma DecodedIsListed(db: DB, uuid: string, ks: seq<string>, ms: seq<Rec>)
    requires Enumerates(ks, Found(db, uuid)) && DecodesTo(db, ks, ms)
    ensures Lists(db, uuid, ms)
  {
    forall m | m in ms ensures exists k | k in Found(db, uuid) :: Decode(db[k]) == m {
      var i :| 0 <= i < |ms| && ms[i] == m;
      assert ks[i] in ks;
    }
    forall k | k in Found(db, uuid) ensures Decode(db[k]) in ms {
      var i :| 0 <= i < |ks| && ks[i] == k;
      assert ms[i] in ms;
    }
  }

  ghost predicate Lists(db: DB, uuid: string, ms: seq<Rec>) {
    (forall m | m in ms :: exists k | k in Found(db, uuid) :: Decode(db[k]) == m)
      && (forall k | k in Found(db, uuid) :: Decode(db[k]) in ms)
  }

  /** What is stored for a device are its records, each at its key without a path or its key with one. */
  ghost predicate Layout(db: DB, uuid: string) {
    forall k | k in Found(db, uuid) :: db[k].Store? && IsHome(uuid, Decode(db[k]), k)
  }

  predicate IsHome(uuid: string, m: Rec, k: string) {
    WellFormed(m.meta) && m.meta.deviceId == uuid && (k == m.oldStore || k == m.store)
  }

  lemma HomesHavePrefix(uuid: string, m: StoreMeta)
    requires HashFree(uuid) && WellFormed(m) && m.deviceId == uuid
    ensures Prefix(uuid) <= GetKey(m) && Prefix(uuid) <= KeyWithoutPath(m)
  {
    PartsPlain(m);
    PrefixFindsExtensions([STORE, uuid], StoreParts(STORE, m, true));
    PrefixFindsExtensions([STORE, uuid], StoreParts(STORE, m, false));
  }

  /** The query for a device, and whose records it finds: that device's alone. */
  lemma QueryFindsDevice(uuid: string, m: StoreMeta)
    requires HashFree(uuid) && Plain(m)
    ensures Prefix(uuid) == "KvStoreMetaData" + "###" + uuid + "###"
    ensures Prefix(uuid) <= GetKey(m) <==> m.deviceId == uuid
    ensures Prefix(uuid) <= KeyWithoutPath(m) <==> m.deviceId == uuid
  {
    PartsPlain(m);
    var query, long, short := [STORE, uuid], StoreParts(STORE, m, true), StoreParts(STORE, m, false);
    PrefixFindsExtensions(query, long);
    PrefixFindsExtensions(query, short);
    assert query == [STORE] + [uuid];
    KeyThen([STORE], uuid);
    assert query == long[..2] <==> m.deviceId == uuid by { assert long[1] == m.deviceId && query[1] == uuid; }
    assert query == short[..2] <==> m.deviceId == uuid by { assert short[1] == m.deviceId && query[1] == uuid; }
  }

  lemma PrefixShowsFamily(uuid: string, k: string)
    requires Prefix(uuid) <= k
    ensures Family(k) == STORE
  {
    PrefixFront([STORE, uuid]);
    assert k == STORE + k[|STORE|..];
    FamilyOfJoined(STORE, k[|STORE|..]);
  }

  /** Of the keys an upgrade touches, the prefix finds the two homes of a record. */
  lemma PrefixFindsHomes(uuid: string, m: StoreMeta, k: string)
    requires HashFree(uuid) && WellFormed(m) && m.deviceId == uuid && Touches(RecOf(m), k)
    ensures Prefix(uuid) <= k <==> IsHome(uuid, RecOf(m), k)
  {
    if Prefix(uuid) <= k {
      PrefixShowsFamily(uuid, k);
      RecordFamilies(m);
      assert |STORE| == 15 && |LOCAL| == 20 && |SECRET| == 9 && |MAPPING| == 16 && |DEBUG_INFO| == 14 && |DFX_INFO| == 12;
    }
    HomesHavePrefix(uuid, m);
  }

  lemma ListedIsHome(d: DB, uuid: string, ms: seq<Rec>, m: Rec) returns (k: string)
    requires Layout(d, uuid) && Lists(d, uuid, ms) && m in ms
    ensures k in Found(d, uuid) && d[k] == Store(m.meta) && m == RecOf(m.meta) && IsHome(uuid, m, k) && Touches(m, k)
  {
    k :| k in Found(d, uuid) && Decode(d[k]) == m;
  }

  /** One record per store, wherever it is stored. */
  ghost predicate OnePerStore(d: DB, uuid: string) {
    forall k, j | k in Found(d, uuid) && j in Found(d, uuid) && Decode(d[k]) != Decode(d[j]) ::
      !SameStore(Decode(d[k]).meta, Decode(d[j]).meta)
  }

  /** What is loaded for a device whose entries are its records, one per store. */
  lemma LoadedAreConsistent(d: DB, uuid: string, ms: seq<Rec>)
    requires Layout(d, uuid) && OnePerStore(d, uuid) && Lists(d, uuid, ms)
    ensures Consistent(ms)
  {
    forall m | m in ms ensures m == RecOf(m.meta) && WellFormed(m.meta) {
      var _ := ListedIsHome(d, uuid, ms, m);
    }
    forall m, n | m in ms && n in ms && m != n ensures !SameStore(m.meta, n.meta) {
      var k :| k in Found(d, uuid) && Decode(d[k]) == m;
      var j :| j in Found(d, uuid) && Decode(d[j]) == n;
    }
    RecordsAreConsistent(ms);
  }

  lemma StillHome(d: DB, uuid: string, ms: seq<Rec>, xs: seq<Rec>, e: DB, k: string)
    requires HashFree(uuid) && Layout(d, uuid) && Lists(d, uuid, ms) && (forall x | x in xs :: x in ms)
    requires Settled(ms, d, xs, e) && k in Found(e, uuid)
    ensures e[k].Store? && IsHome(uuid, Decode(e[k]), k) && Decode(e[k]) in ms
  {
    if Touched(xs, k) {
      var m :| m in xs && Touches(m, k);
      var _ := ListedIsHome(d, uuid, ms, m);
      PrefixFindsHomes(uuid, m.meta, k);
      assert Saved(ms, d, m, e);
      assert k != m.store ==> SameAt(d, e, k);
    } else {
      assert SameAt(d, e, k);
    }
    assert k in Found(d, uuid) && d[k] == e[k] ==> Decode(d[k]) in ms;
  }

  lemma StillListed(d: DB, uuid: string, ms: seq<Rec>, xs: seq<Rec>, e: DB, m: Rec) returns (k: string)
    requires HashFree(uuid) && Layout(d, uuid) && Lists(d, uuid, ms) && (forall x | x in xs :: x in ms)
    requires Consistent(ms) && Settled(ms, d, xs, e) && m in ms
    ensures k in Found(e, uuid) && Decode(e[k]) == m
  {
    k := ListedIsHome(d, uuid, ms, m);
    if m in xs {
      assert Saved(ms, d, m, e);
      k := m.store;
      PrefixFindsHomes(uuid, m.meta, k);
    } else {
      UnlistedWaits(d, ms, xs, m, e);
    }
  }

  /** Loading again after an upgrade that was cut short finds the same records. */
  lemma RerunLoadsTheSame(d: DB, uuid: string, ms: seq<Rec>, xs: seq<Rec>, e: DB, ns: seq<Rec>)
    requires HashFree(uuid) && Layout(d, uuid) && Lists(d, uuid, ms) && (forall x | x in xs :: x in ms)
    requires Consistent(ms) && Settled(ms, d, xs, e) && Lists(e, uuid, ns)
    ensures Layout(e, uuid) && forall m :: m in ms <==> m in ns
  {
    forall k | k in Found(e, uuid) ensures e[k].Store? && IsHome(uuid, Decode(e[k]), k) && Decode(e[k]) in ms {
      StillHome(d, uuid, ms, xs, e, k);
    }
    forall m | m in ms ensures m in ns {
      var k := StillListed(d, uuid, ms, xs, e, m);
    }
    forall n | n in ns ensures n in ms {
      var k :| k in Found(e, uuid) && Decode(e[k]) == n;
    }
  }

  // ---- Running again -----------------------------------------------------------------------------

  lemma SameRecords(all: seq<Rec>, ns: seq<Rec>, d: DB, e: DB)
    requires forall m :: m in all <==> m in ns
    ensures IsMoved(ns, d, ns, e) <==> IsMoved(all, d, all, e)
    ensures IsUpgrade(d, ns, e) <==> IsUpgrade(d, all, e)
  {
    assert forall m :: Shares(all, m) <==> Shares(ns, m);
    assert forall m :: Saved(all, d, m, e) <==> Saved(ns, d, m, e);
    assert forall k :: Touched(all, k) <==> Touched(ns, k);
  }

  /** Moving what an upgrade that was cut short left behind moves the whole. */
  lemma MoveResumes(d: DB, ms: seq<Rec>, xs: seq<Rec>, e: DB, f: DB)
    requires Consistent(ms) && (forall x | x in xs :: x in ms) && Settled(ms, d, xs, e) && IsMoved(ms, e, ms, f)
    ensures IsMoved(ms, d, ms, f)
  {
    Compose(d, ms, xs, e, ms, f);
    forall k | !Touched(ms, k) ensures SameAt(d, f, k) {
      assert !Touched(xs + ms, k);
    }
    assert forall m | m in ms :: m in xs + ms;
  }

  /** The secret of a record is still at its old key or is at its new one. */
  predicate SecretReachable(d: DB, m: Rec, e: DB) {
    m.oldSecret in d ==> m.oldSecret in e || (m.secret in e && e[m.secret] == d[m.oldSecret])
  }

  lemma SecretResumes(d: DB, ms: seq<Rec>, xs: seq<Rec>, e: DB, f: DB, m: Rec)
    requires Consistent(ms) && (forall x | x in xs :: x in ms) && Settled(ms, d, xs, e)
    requires m in ms && SecretCarried(e, m, f)
    ensures SecretCarried(d, m, f) <==> SecretReachable(d, m, e)
  {
    assert IsOldKey(m, m.oldSecret);
    if m in xs {
      assert Saved(ms, d, m, e);
    } else {
      UnlistedWaits(d, ms, xs, m, e);
    }
  }

  /**
    An upgrade cut short anywhere and then run again in full ends where one whole upgrade would have
    ended, exactly when the first run left every secret reachable.
   */
  lemma RerunCompletes(
      d: DB, uuid: string, ms: seq<Rec>, xs: seq<Rec>, e: DB, ns: seq<Rec>, f: DB, whole: DB)
    requires HashFree(uuid) && Layout(d, uuid) && Lists(d, uuid, ms) && (forall x | x in xs :: x in ms)
    requires Consistent(ms) && Settled(ms, d, xs, e) && Lists(e, uuid, ns)
    requires IsUpgrade(e, ns, f) && IsUpgrade(d, ms, whole)
    ensures IsMoved(ms, d, ms, f)
    ensures f == whole <==> forall m | m in ms :: SecretReachable(d, m, e)
  {
    RerunLoadsTheSame(d, uuid, ms, xs, e, ns);
    SameRecords(ms, ns, e, f);
    MoveResumes(d, ms, xs, e, f);
    forall m | m in ms ensures SecretCarried(d, m, f) <==> SecretReachable(d, m, e) {
      SecretResumes(d, ms, xs, e, f, m);
    }
    if IsUpgrade(d, ms, f) {
      UpgradeIsUnique(d, ms, ms, f, whole);
    }
  }

  /** Two ways to move the same records differ at shared secrets only. */
  lemma MovesAgree(ms: seq<Rec>, d: DB, e: DB, f: DB, k: string)
    requires IsMoved(ms, d, ms, e) && IsMoved(ms, d, ms, f) && !SameAt(e, f, k)
    ensures exists m | m in ms :: Shares(ms, m) && k == m.secret
  {
    assert !Touched(ms, k) ==> SameAt(d, e, k) && SameAt(d, f, k);
    var m :| m in ms && Touches(m, k);
    assert Saved(ms, d, m, e) && Saved(ms, d, m, f) && Cleared(m, e) && Cleared(m, f);
    MoveAtKey(ms, d, m, e, f, k);
  }

  lemma MoveAtKey(all: seq<Rec>, d: DB, m: Rec, e: DB, f: DB, k: string)
    requires Saved(all, d, m, e) && Saved(all, d, m, f) && Cleared(m, e) && Cleared(m, f) && Touches(m, k)
    ensures SameAt(e, f, k) || (Shares(all, m) && k == m.secret)
  {
    if IsOldKey(m, k) {
      assert k !in e && k !in f;
    }
  }

  /** Whatever becomes of the saves and deletes of a further run, moved records stay as they are. */
  lemma MovedStays(all: seq<Rec>, d: DB, ms: seq<Rec>, e: DB, xs: seq<Rec>, f: DB)
    requires IsMoved(all, d, ms, e) && (forall x | x in xs :: x in ms) && Settled(all, e, xs, f)
    ensures f == e
  {
    forall k ensures SameAt(e, f, k) {
      if Touched(xs, k) {
        var m :| m in xs && Touches(m, k);
        assert Saved(all, d, m, e) && Cleared(m, e) && Saved(all, e, m, f);
        MovedStaysAt(all, d, m, e, f, k);
      } else {
        assert SameAt(e, f, k);
      }
    }
    SameEverywhere(e, f);
  }

  lemma MovedStaysAt(all: seq<Rec>, d: DB, m: Rec, e: DB, f: DB, k: string)
    requires Saved(all, d, m, e) && Cleared(m, e) && Saved(all, e, m, f) && Touches(m, k)
    ensures SameAt(e, f, k)
  {
    assert IsOldKey(m, m.oldLocal) && IsOldKey(m, m.oldSecret);
    if IsOldKey(m, k) {
      assert k !in e;
      assert k in f ==> SameAt(e, f, k);
    }
  }

  // ---- The whole upgrade -------------------------------------------------------------------------

  /**
    UpgradeStoreMeta on a device with one record per store, given what the method promises. When it
    answers true every record is at its new keys and, if no delete failed, at no old one; every value
    but a shared secret is unchanged, and every key of no record. The upgrade is complete exactly when
    all old keys were deleted and each old secret was copied in time.
   */
  lemma UpgradeWorks(d: DB, uuid: string, ms: seq<Rec>, outcomes: seq<Outcome>, batches: nat)
    requires HashFree(uuid) && Layout(d, uuid) && OnePerStore(d, uuid) && Lists(d, uuid, ms)
    requires Stops(|ms|, outcomes, batches, true)
    ensures var e := RunBatches(d, ms, outcomes, batches);
      && Settled(ms, d, ms, e)
      && (AllFine(outcomes, batches) ==> IsMoved(ms, d, ms, e))
      && (IsUpgrade(d, ms, e) <==>
            AllDeleted(d, ms, outcomes, batches) && forall m | m in ms :: SecretSurvives(d, ms, outcomes, batches, m))
      && (forall m, q: StoreMeta | m in ms && SameStore(q, m.meta) ::
            MappingKey(q) in e && e[MappingKey(q)] == Mapping(m.meta))
  {
    LoadedAreConsistent(d, uuid, ms);
    WhenUpgraded(d, ms, outcomes, batches);
    var e := RunBatches(d, ms, outcomes, batches);
    forall m, q: StoreMeta | m in ms && SameStore(q, m.meta)
      ensures MappingKey(q) in e && e[MappingKey(q)] == Mapping(m.meta)
    {
      MappingNeedsNoPath(q, m.meta);
    }
  }

  /** `e` has the record `m` where the layout with paths wants it, and its local part too if `d` had one. */
  ghost predicate IsAtNewKeys(d: DB, m: StoreMeta, e: DB) {
    && GetKey(m) in e && e[GetKey(m)] == Store(m)
    && MappingKey(m) in e && e[MappingKey(m)] == Mapping(m)
    && (LocalKeyWithoutPath(m) in d ==> LocalKey(m) in e && e[LocalKey(m)] == d[LocalKeyWithoutPath(m)])
  }

  ghost predicate IsOffOldKeys(m: StoreMeta, e: DB) {
    && KeyWithoutPath(m) !in e && LocalKeyWithoutPath(m) !in e && SecretKeyWithoutPath(m) !in e
    && DebugKey(m) !in e && DfxKey(m) !in e
  }

  /** `k` is one of the nine keys of `m`. */
  ghost predicate IsKeyOf(m: StoreMeta, k: string) {
    k in {GetKey(m), LocalKey(m), SecretKey(m), MappingKey(m),
          KeyWithoutPath(m), LocalKeyWithoutPath(m), SecretKeyWithoutPath(m), DebugKey(m), DfxKey(m)}
  }

  /** The same, key by key, of whatever the database has for the device. */
  lemma UpgradeSays(d: DB, uuid: string, ms: seq<Rec>, outcomes: seq<Outcome>, batches: nat)
    requires HashFree(uuid) && Layout(d, uuid) && OnePerStore(d, uuid) && Lists(d, uuid, ms)
    requires Stops(|ms|, outcomes, batches, true)
    ensures var e := RunBatches(d, ms, outcomes, batches);
      && (forall j | j in Found(d, uuid) :: IsAtNewKeys(d, d[j].meta, e))
      && (AllFine(outcomes, batches) ==> forall j | j in Found(d, uuid) :: IsOffOldKeys(d[j].meta, e))
      && forall k | forall j | j in Found(d, uuid) :: !IsKeyOf(d[j].meta, k) ::
           (k in d <==> k in e) && (k in d ==> d[k] == e[k])
  {
    var e := RunBatches(d, ms, outcomes, batches);
    UpgradeWorks(d, uuid, ms, outcomes, batches);
    forall j | j in Found(d, uuid)
      ensures IsAtNewKeys(d, d[j].meta, e) && (AllFine(outcomes, batches) ==> IsOffOldKeys(d[j].meta, e))
    {
      SavedSays(d, ms, Decode(d[j]), e, AllFine(outcomes, batches));
    }
    forall k | forall j | j in Found(d, uuid) :: !IsKeyOf(d[j].meta, k)
      ensures (k in d <==> k in e) && (k in d ==> d[k] == e[k])
    {
      OthersSay(d, uuid, ms, e, k);
    }
  }

  lemma OthersSay(d: DB, uuid: string, ms: seq<Rec>, e: DB, k: string)
    requires Layout(d, uuid) && Lists(d, uuid, ms) && OthersKept(d, ms, e)
    requires forall j | j in Found(d, uuid) :: !IsKeyOf(d[j].meta, k)
    ensures SameAt(d, e, k)
  {
    forall m | m in ms ensures !Touches(m, k) {
      var j := ListedIsHome(d, uuid, ms, m);
      TouchesItsKeys(m.meta, k);
      assert !IsKeyOf(d[j].meta, k);
    }
  }

  lemma TouchesItsKeys(m: StoreMeta, k: string)
    ensures Touches(RecOf(m), k) <==> IsKeyOf(m, k)
  {
  }

  lemma SavedSays(d: DB, ms: seq<Rec>, m: Rec, e: DB, moved: bool)
    requires m == RecOf(m.meta) && m in ms && Settled(ms, d, ms, e) && (moved ==> IsMoved(ms, d, ms, e))
    ensures IsAtNewKeys(d, m.meta, e) && (moved ==> IsOffOldKeys(m.meta, e))
  {
    assert Saved(ms, d, m, e);
    if moved {
      assert Cleared(m, e);
      assert IsOldKey(m, m.oldStore) && IsOldKey(m, m.oldLocal) && IsOldKey(m, m.oldSecret);
      assert IsOldKey(m, DebugKey(m.meta)) && IsOldKey(m, DfxKey(m.meta));
    }
  }

  /** A second call after one that saved and deleted everything leaves the database as it is, even if it fails. */
  lemma SecondUpgradeChangesNothing(
      d: DB, uuid: string, ms: seq<Rec>, outcomes: seq<Outcome>, batches: nat,
      ns: seq<Rec>, outcomes': seq<Outcome>, batches': nat, ok: bool)
    requires HashFree(uuid) && Layout(d, uuid) && OnePerStore(d, uuid) && Lists(d, uuid, ms)
    requires Stops(|ms|, outcomes, batches, true) && AllFine(outcomes, batches)
    requires Lists(RunBatches(d, ms, outcomes, batches), uuid, ns) && Stops(|ns|, outcomes', batches', ok)
    ensures var e := RunBatches(d, ms, outcomes, batches); RunBatches(e, ns, outcomes', batches') == e
  {
    var e := RunBatches(d, ms, outcomes, batches);
    UpgradeWorks(d, uuid, ms, outcomes, batches);
    LoadedAreConsistent(d, uuid, ms);
    RerunLoadsTheSame(d, uuid, ms, ms, e, ns);
    RerunStays(d, ms, e, ns, outcomes', batches');
  }

  lemma RerunStays(d: DB, ms: seq<Rec>, e: DB, ns: seq<Rec>, outcomes: seq<Outcome>, batches: nat)
    requires Consistent(ms) && IsMoved(ms, d, ms, e) && (forall m :: m in ms <==> m in ns)
    requires AllSaved(outcomes, batches)
    ensures RunBatches(e, ns, outcomes, batches) == e
  {
    SomeConsistent(ms, ns);
    BatchesUpgrade(e, ns, outcomes, batches);
    SameRecords(ms, ns, d, e);
    MovedStays(ns, d, ns, e, ns[..Edge(|ns|, batches)], RunBatches(e, ns, outcomes, batches));
  }

  // ---- The code ----------------------------------------------------------------------------------

  lemma CollectedSoFar(d: DB, ms: seq<Rec>, i: nat)
    requires i < |ms|
    ensures BatchPuts(d, ms[..i + 1]) == BatchPuts(d, ms[..i]) + RecordPuts(d, ms[i])
    ensures BatchDeletes(d, ms[..i + 1]) == BatchDeletes(d, ms[..i]) + RecordDeletes(d, ms[i])
  {
    assert ms[..i + 1][..i] == ms[..i];
  }

  class MetaStore {
    var db: DB

    constructor ()
      ensures db == map[]
    {
      db := map[];
    }

    /** MetaDataManager::GetEntries; the order is the store's. */
    method GetEntries(prefix: string) returns (ks: seq<string>)
      ensures Enumerates(ks, FoundBy(db, prefix))
    {
      ks := [];
      var todo := FoundBy(db, prefix);
      while todo != {}
        invariant todo <= FoundBy(db, prefix) && |ks| + |todo| == |FoundBy(db, prefix)|
        invariant forall k :: k in ks <==> k in FoundBy(db, prefix) && k !in todo
        decreases |todo|
      {
        var k :| k in todo;
        ks := ks + [k];
        todo := todo - {k};
      }
    }

    /** MetaDataManager::LoadMeta for a prefix. */
    method LoadRecords(uuid: string) returns (ms: seq<Rec>)
      ensures Lists(db, uuid, ms)
    {
      var ks := GetEntries(Prefix(uuid));
      ms := [];
      while |ms| < |ks|
        invariant |ms| <= |ks| && DecodesTo(db, ks[..|ms|], ms)
      {
        assert ks[|ms|] in ks;
        DecodedOneMore(db, ks, ms);
        ms := ms + [Decode(db[ks[|ms|]])];
      }
      assert ks[..|ms|] == ks;
      DecodedIsListed(db, uuid, ks, ms);
    }

    /** What one turn of the loop over a batch adds to `entries` and `deleteKeys`. */
    method CollectRecord(meta: Rec) returns (entries: Puts, deleteKeys: seq<string>)
      ensures entries == RecordPuts(db, meta) && deleteKeys == RecordDeletes(db, meta)
    {
      entries, deleteKeys := [], [];
      if meta.oldLocal in db {
        deleteKeys := deleteKeys + [meta.oldLocal];
        entries := entries + [(meta.local, db[meta.oldLocal])];
      }
      if meta.oldSecret in db {
        deleteKeys := deleteKeys + [meta.oldSecret];
        entries := entries + [(meta.secret, db[meta.oldSecret])];
      }
      deleteKeys := deleteKeys + [meta.oldStore, meta.debug, meta.dfx];
      entries := entries + [(meta.mapping, Mapping(meta.meta)), (meta.store, Store(meta.meta))];
    }

    method CollectBatch(ms: seq<Rec>) returns (entries: Puts, deleteKeys: seq<string>)
      requires ms != []
      ensures entries == BatchPuts(db, ms) && deleteKeys == BatchDeletes(db, ms)
    {
      entries, deleteKeys := [], [];
      var i := 0;
      while true
        invariant 0 <= i < |ms|
        invariant entries == BatchPuts(db, ms[..i]) && deleteKeys == BatchDeletes(db, ms[..i])
        decreases |ms| - i
      {
        var puts, deletes := CollectRecord(ms[i]);
        CollectedSoFar(db, ms, i);
        entries, deleteKeys := entries + puts, deleteKeys + deletes;
        if i + 1 == |ms| {
          assert ms[..i + 1] == ms;
          return;
        }
        i := i + 1;
      }
    }

    /** The action on one batch, which is never empty. */
    method ProcessBatch(ms: seq<Rec>, outcome: Outcome) returns (ok: bool)
      requires ms != []
      modifies this
      ensures ok <==> outcome != SaveFails
      ensures db == RunBatch(old(db), ms, outcome)
    {
      var entries, deleteKeys := CollectBatch(ms);
      ok := outcome != SaveFails;
      if ok {
        PutLocalBatch(entries);
        if outcome == Fine {
          db := db - Elements(deleteKeys);
        }
      }
    }

    method PutLocalBatch(entries: Puts)
      modifies this
      ensures db == PutAll(old(db), entries)
    {
      var i := 0;
      while i < |entries|
        invariant 0 <= i <= |entries| && db == PutAll(old(db), entries[..i])
      {
        assert entries[..i + 1][..i] == entries[..i];
        db := db[entries[i].0 := entries[i].1];
        i := i + 1;
      }
      assert entries[..i] == entries;
    }

    /** Constant::BatchProcess: it stops at the first batch that fails. */
    method BatchProcess(ms: seq<Rec>, outcomes: seq<Outcome>) returns (ok: bool, batches: nat)
      modifies this
      ensures db == RunBatches(old(db), ms, outcomes, batches)
      ensures Stops(|ms|, outcomes, batches, ok)
    {
      var it := 0;
      batches := 0;
      while it != |ms|
        invariant it == Edge(|ms|, batches) && AllSaved(outcomes, batches)
        invariant db == RunBatches(old(db), ms, outcomes, batches)
        decreases |ms| - it
      {
        ok, it := ProcessNext(ms, it, batches, At(outcomes, batches));
        if !ok {
          return false, batches;
        }
        batches := batches + 1;
      }
      return true, batches;
    }

    method ProcessNext(ms: seq<Rec>, it: nat, ghost i: nat, outcome: Outcome) returns (ok: bool, next: nat)
      requires it == Edge(|ms|, i) < |ms|
      modifies this
      ensures ok <==> outcome != SaveFails
      ensures if ok then it < next == Edge(|ms|, i + 1) else next == it && db == old(db)
      ensures db == RunBatch(old(db), Batch(ms, i), outcome)
    {
      var end := it + (if BATCH_SIZE < |ms| - it then BATCH_SIZE else |ms| - it);
      ok := ProcessBatch(ms[it..end], outcome);
      next := if ok then end else it;
    }

    /** `loaded` is LoadMeta's answer; the loaded list and the number of batches are for the specification. */
    method UpgradeStoreMeta(uuid: string, loaded: bool, outcomes: seq<Outcome>)
      returns (ok: bool, ms: seq<Rec>, batches: nat)
      modifies this
      ensures !loaded ==> !ok && db == old(db)
      ensures loaded ==>
        Lists(old(db), uuid, ms) && db == RunBatches(old(db), ms, outcomes, batches) && Stops(|ms|, outcomes, batches, ok)
    {
      if !loaded {
        return false, [], 0;
      }
      ms := LoadRecords(uuid);
      ok, batches := BatchProcess(ms, outcomes);
    }
  }
}
