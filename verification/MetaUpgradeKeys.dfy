/**
  The keys of StoreMetaData that an upgrade reads, writes and deletes, and when those of two records differ.
 */
module MetaUpgradeKeys {
  import opened MetaKeys
  import opened MetaUpgrade

  function KeyWithoutPath(m: StoreMeta): string { KeyOf(StoreParts(STORE, m, false)) }
  function LocalKey(m: StoreMeta): string { KeyOf(StoreParts(LOCAL, m, true)) }
  function LocalKeyWithoutPath(m: StoreMeta): string { KeyOf(StoreParts(LOCAL, m, false)) }
  function SecretKey(m: StoreMeta): string { KeyOf(SecretParts(m, true)) }
  function SecretKeyWithoutPath(m: StoreMeta): string { KeyOf(SecretParts(m, false)) }
  function MappingKey(m: StoreMeta): string { KeyOf(StoreParts(MAPPING, m, false)) }
  function DebugKey(m: StoreMeta): string { KeyOf(DebugParts(m)) }
  function DfxKey(m: StoreMeta): string { KeyOf(DfxParts(m)) }

  function RecOf(m: StoreMeta): Rec {
    Rec(m, GetKey(m), LocalKey(m), SecretKey(m), MappingKey(m),
        KeyWithoutPath(m), LocalKeyWithoutPath(m), SecretKeyWithoutPath(m), DebugKey(m), DfxKey(m))
  }

  predicate WellFormed(m: StoreMeta) {
    Plain(m) && m.dataDir != "" && m.dataDir[0] == '/'
  }

  lemma PartsPlain(m: StoreMeta)
    requires Plain(m)
    ensures forall family, withPath | HashFree(family) :: AllHashFree(StoreParts(family, m, withPath))
    ensures forall withPath :: AllHashFree(SecretParts(m, withPath))
    ensures AllHashFree(DebugParts(m)) && AllHashFree(DfxParts(m))
  {
    NumbersInKeys(0, m.instanceId);
  }

  lemma KeysDiffer(p: Parts, q: Parts)
    requires p != [] && q != [] && AllHashFree(p) && AllHashFree(q) && p != q
    ensures KeyOf(p) != KeyOf(q)
  {
    KeysAreInjective(p, q);
  }

  lemma StoreFamilyNewIsNotOld(family: string, m: StoreMeta, n: StoreMeta)
    requires HashFree(family) && WellFormed(m) && WellFormed(n)
    ensures KeyOf(StoreParts(family, m, true)) != KeyOf(StoreParts(family, n, false))
  {
    var p, q := StoreParts(family, m, true), StoreParts(family, n, false);
    PartsPlain(m);
    PartsPlain(n);
    NumbersInKeys(m.instanceId, n.instanceId);
    assert p[|p| - 1] == m.dataDir;
    assert n.instanceId != 0 ==> q[|q| - 1] == ToString(n.instanceId);
    KeysDiffer(p, q);
  }

  lemma SecretFamilyNewIsNotOld(m: StoreMeta, n: StoreMeta)
    requires WellFormed(m) && WellFormed(n)
    ensures SecretKey(m) != SecretKeyWithoutPath(n)
  {
    var p, q := SecretParts(m, true), SecretParts(n, false);
    PartsPlain(m);
    PartsPlain(n);
    NumbersInKeys(m.instanceId, n.instanceId);
    assert p[|p| - 2] == m.dataDir;
    assert |q| == 7 ==> q[5] == ToString(n.instanceId);
    KeysDiffer(p, q);
  }

  // ---- The family in front of a key ----------------------------------------------------------------

  /** What is in front of the first '#'. */
  function Family(k: string): string {
    if k == "" || k[0] == '#' then "" else [k[0]] + Family(k[1..])
  }

  lemma {:induction false} FamilyOfJoined(family: string, rest: string)
    requires HashFree(family) && (rest == "" || rest[0] == '#')
    ensures Family(family + rest) == family
  {
    if family == "" {
      assert family + rest == rest;
    } else {
      assert (family + rest)[1..] == family[1..] + rest;
      FamilyOfJoined(family[1..], rest);
    }
  }

  lemma FamilyOfKey(p: Parts)
    requires p != [] && AllHashFree(p)
    ensures Family(KeyOf(p)) == p[0]
  {
    KeyFront(p);
    FamilyOfJoined(p[0], if |p| == 1 then "" else KEY_SEPARATOR + KeyOf(p[1..]));
  }

  predicate HasFamilies(r: Rec) {
    && Family(r.store) == Family(r.oldStore) == STORE
    && Family(r.local) == Family(r.oldLocal) == LOCAL
    && Family(r.secret) == Family(r.oldSecret) == SECRET
    && Family(r.mapping) == MAPPING && Family(r.debug) == DEBUG_INFO && Family(r.dfx) == DFX_INFO
  }

  lemma RecordFamilies(m: StoreMeta)
    requires Plain(m)
    ensures HasFamilies(RecOf(m))
  {
    PartsPlain(m);
    FamilyOfKey(StoreParts(STORE, m, true));
    FamilyOfKey(StoreParts(STORE, m, false));
    FamilyOfKey(StoreParts(LOCAL, m, true));
    FamilyOfKey(StoreParts(LOCAL, m, false));
    FamilyOfKey(StoreParts(MAPPING, m, false));
    FamilyOfKey(SecretParts(m, true));
    FamilyOfKey(SecretParts(m, false));
    FamilyOfKey(DebugParts(m));
    FamilyOfKey(DfxParts(m));
  }

  /** No new key of `r` is the old key of its own family of `t`. */
  predicate NewOldDiffer(r: Rec, t: Rec) {
    r.store != t.oldStore && r.local != t.oldLocal && r.secret != t.oldSecret
  }

  lemma NewIsNotOldKey(r: Rec, t: Rec, k: string)
    requires HasFamilies(r) && HasFamilies(t) && NewOldDiffer(r, t) && IsNewKey(r, k)
    ensures !IsOldKey(t, k)
  {
    assert |STORE| == 15 && |LOCAL| == 20 && |SECRET| == 9 && |MAPPING| == 16 && |DEBUG_INFO| == 14 && |DFX_INFO| == 12;
  }

  /** Of each family the keys differ, but for secrets: equal new ones come from equal old ones. */
  predicate SameKeysDiffer(r: Rec, t: Rec) {
    && r.store != t.store && r.local != t.local && r.mapping != t.mapping
    && r.oldStore != t.oldStore && r.oldLocal != t.oldLocal && r.debug != t.debug && r.dfx != t.dfx
    && (r.secret == t.secret ==> r.oldSecret == t.oldSecret)
  }

  lemma ApartByFamilies(r: Rec, t: Rec)
    requires HasFamilies(r) && HasFamilies(t)
    requires NewOldDiffer(r, t) && NewOldDiffer(t, r) && SameKeysDiffer(r, t)
    ensures Apart(r, t)
  {
    assert |STORE| == 15 && |LOCAL| == 20 && |SECRET| == 9 && |MAPPING| == 16 && |DEBUG_INFO| == 14 && |DFX_INFO| == 12;
    forall k | Touches(r, k) && Touches(t, k) ensures IsSharedSecret(r, t, k) {
      if IsNewKey(r, k) {
        NewIsNotOldKey(r, t, k);
      } else if IsNewKey(t, k) {
        NewIsNotOldKey(t, r, k);
      }
    }
  }

  // ---- Records whose keys are apart ----------------------------------------------------------------

  lemma NewOldKeys(m: StoreMeta, n: StoreMeta)
    requires WellFormed(m) && WellFormed(n)
    ensures NewOldDiffer(RecOf(m), RecOf(n))
  {
    StoreFamilyNewIsNotOld(STORE, m, n);
    StoreFamilyNewIsNotOld(LOCAL, m, n);
    SecretFamilyNewIsNotOld(m, n);
  }

  lemma StoreKeysDiffer(family: string, m: StoreMeta, n: StoreMeta, withPath: bool)
    requires HashFree(family) && Plain(m) && Plain(n) && !SameStore(m, n)
    ensures KeyOf(StoreParts(family, m, withPath)) != KeyOf(StoreParts(family, n, withPath))
  {
    PartsPlain(m);
    PartsPlain(n);
    StorePartsAgree(family, m, n, withPath);
    KeysDiffer(StoreParts(family, m, withPath), StoreParts(family, n, withPath));
  }

  lemma OtherKeysDiffer(m: StoreMeta, n: StoreMeta)
    requires Plain(m) && Plain(n) && !SameStore(m, n)
    ensures SecretKey(m) == SecretKey(n) ==> SecretKeyWithoutPath(m) == SecretKeyWithoutPath(n)
    ensures DebugKey(m) != DebugKey(n) && DfxKey(m) != DfxKey(n)
  {
    PartsPlain(m);
    PartsPlain(n);
    NumbersInKeys(m.instanceId, n.instanceId);
    SharedSecrets(m, n);
    KeysDiffer(DebugParts(m), DebugParts(n));
    KeysDiffer(DfxParts(m), DfxParts(n));
  }

  lemma SameKeys(m: StoreMeta, n: StoreMeta)
    requires Plain(m) && Plain(n) && !SameStore(m, n)
    ensures SameKeysDiffer(RecOf(m), RecOf(n))
  {
    StoreKeysDiffer(STORE, m, n, true);
    StoreKeysDiffer(STORE, m, n, false);
    StoreKeysDiffer(LOCAL, m, n, true);
    StoreKeysDiffer(LOCAL, m, n, false);
    StoreKeysDiffer(MAPPING, m, n, false);
    OtherKeysDiffer(m, n);
  }

  lemma StoresApart(m: StoreMeta, n: StoreMeta)
    requires WellFormed(m) && WellFormed(n) && !SameStore(m, n)
    ensures Apart(RecOf(m), RecOf(n))
  {
    RecordFamilies(m);
    RecordFamilies(n);
    NewOldKeys(m, n);
    NewOldKeys(n, m);
    SameKeys(m, n);
    ApartByFamilies(RecOf(m), RecOf(n));
  }

  lemma RecordIsSound(m: StoreMeta)
    requires WellFormed(m)
    ensures Sound(RecOf(m))
  {
    var r := RecOf(m);
    RecordFamilies(m);
    NewOldKeys(m, m);
    assert |STORE| == 15 && |LOCAL| == 20 && |SECRET| == 9 && |MAPPING| == 16;
    forall k | IsNewKey(r, k) ensures !IsOldKey(r, k) {
      NewIsNotOldKey(r, r, k);
    }
  }

  /** Well-formed records of different stores have no keys in common but old secrets. */
  lemma RecordsAreConsistent(ms: seq<Rec>)
    requires forall r | r in ms :: r == RecOf(r.meta) && WellFormed(r.meta)
    requires forall r, t | r in ms && t in ms && r != t :: !SameStore(r.meta, t.meta)
    ensures Consistent(ms)
  {
    forall r | r in ms ensures Sound(r) {
      RecordIsSound(r.meta);
    }
    forall r, t | r in ms && t in ms && r != t ensures Apart(r, t) {
      StoresApart(r.meta, t.meta);
    }
  }

  // ---- Shared secrets --------------------------------------------------------------------------------

  /** Old records of the instances of one store have one secret. */
  predicate SameSecret(m: StoreMeta, n: StoreMeta) {
    && m.user == n.user && m.bundleName == n.bundleName && m.storeId == n.storeId
    && (m.version < UUID_CHANGED_TAG <==> n.version < UUID_CHANGED_TAG)
    && (m.version < UUID_CHANGED_TAG || m.instanceId == n.instanceId)
  }

  lemma SecretPartsAgree(m: StoreMeta, n: StoreMeta, withPath: bool)
    ensures SecretParts(m, withPath) == SecretParts(n, withPath) <==>
      SameSecret(m, n) && (withPath ==> m.dataDir == n.dataDir)
  {
    var p, q := SecretParts(m, withPath), SecretParts(n, withPath);
    NumbersInKeys(m.instanceId, n.instanceId);
    if p == q {
      assert p[1] == q[1] && p[3] == q[3] && p[4] == q[4] && |p| == |q|;
      assert p[5] == q[5] && p[|p| - 2] == q[|q| - 2];
    }
  }

  /** Who shares an old secret key, and who then shares the new one too. */
  lemma SharedSecrets(m: StoreMeta, n: StoreMeta)
    requires Plain(m) && Plain(n)
    ensures SecretKeyWithoutPath(m) == SecretKeyWithoutPath(n) <==> SameSecret(m, n)
    ensures SecretKey(m) == SecretKey(n) <==> SameSecret(m, n) && m.dataDir == n.dataDir
  {
    PartsPlain(m);
    PartsPlain(n);
    KeysAreInjective(SecretParts(m, false), SecretParts(n, false));
    KeysAreInjective(SecretParts(m, true), SecretParts(n, true));
    SecretPartsAgree(m, n, false);
    SecretPartsAgree(m, n, true);
  }

  // ---- What the keys say -------------------------------------------------------------------------------

  lemma StoreKeysAgree(family: string, m: StoreMeta, n: StoreMeta, withPath: bool)
    requires HashFree(family) && Plain(m) && Plain(n)
    ensures KeyOf(StoreParts(family, m, withPath)) == KeyOf(StoreParts(family, n, withPath)) <==>
      SameStore(m, n) && (withPath ==> m.dataDir == n.dataDir)
  {
    PartsPlain(m);
    PartsPlain(n);
    KeysAreInjective(StoreParts(family, m, withPath), StoreParts(family, n, withPath));
    StorePartsAgree(family, m, n, withPath);
  }

  /** Keys without a path are the same for all records of a store; keys with one only for the same path. */
  lemma KeysAgree(m: StoreMeta, n: StoreMeta)
    requires Plain(m) && Plain(n)
    ensures MappingKey(m) == MappingKey(n) <==> SameStore(m, n)
    ensures KeyWithoutPath(m) == KeyWithoutPath(n) <==> SameStore(m, n)
    ensures LocalKeyWithoutPath(m) == LocalKeyWithoutPath(n) <==> SameStore(m, n)
    ensures GetKey(m) == GetKey(n) <==> SameStore(m, n) && m.dataDir == n.dataDir
    ensures LocalKey(m) == LocalKey(n) <==> SameStore(m, n) && m.dataDir == n.dataDir
  {
    StoreKeysAgree(MAPPING, m, n, false);
    StoreKeysAgree(STORE, m, n, false);
    StoreKeysAgree(LOCAL, m, n, false);
    StoreKeysAgree(STORE, m, n, true);
    StoreKeysAgree(LOCAL, m, n, true);
  }

  lemma InfoKeysAgree(m: StoreMeta, n: StoreMeta)
    requires Plain(m) && Plain(n)
    ensures DebugKey(m) == DebugKey(n) <==> SameStore(m, n)
    ensures DfxKey(m) == DfxKey(n) <==> SameStore(m, n)
  {
    PartsPlain(m);
    PartsPlain(n);
    NumbersInKeys(m.instanceId, n.instanceId);
    KeysAreInjective(DebugParts(m), DebugParts(n));
    KeysAreInjective(DfxParts(m), DfxParts(n));
  }

  /** Whoever knows device, user, bundle, store and instance finds the mapping, whatever they take the path for. */
  lemma MappingNeedsNoPath(m: StoreMeta, n: StoreMeta)
    requires SameStore(m, n)
    ensures MappingKey(m) == MappingKey(n)
  {
    StorePartsAgree(MAPPING, m, n, false);
  }

  lemma KeyThen(parts: Parts, last: string)
    requires parts != []
    ensures KeyOf(parts + [last]) == KeyOf(parts) + "###" + last
  {
    assert (parts + [last])[1..] == parts[1..] + [last];
    assert (parts[1..] + [last])[..|parts| - 1] == parts[1..];
  }

  /** Five fields behind a family, spelled out. */
  function Spelled(family: string, a: string, b: string, c: string, d: string, e: string): string {
    family + "###" + a + "###" + b + "###" + c + "###" + d + "###" + e
  }

  lemma SixParts(family: string, a: string, b: string, c: string, d: string, e: string)
    ensures KeyOf([family, a, b, c, d, e]) == Spelled(family, a, b, c, d, e)
  {
    KeyThen([family], a);
    KeyThen([family, a], b);
    KeyThen([family, a, b], c);
    KeyThen([family, a, b, c], d);
    KeyThen([family, a, b, c, d], e);
    assert [family] + [a] == [family, a] && [family, a] + [b] == [family, a, b];
    assert [family, a, b] + [c] == [family, a, b, c] && [family, a, b, c] + [d] == [family, a, b, c, d];
    assert [family, a, b, c, d] + [e] == [family, a, b, c, d, e];
  }

  lemma FiveParts(family: string, a: string, b: string, c: string, d: string)
    ensures KeyOf([family, a, b, c, d]) == family + "###" + a + "###" + b + "###" + c + "###" + d
  {
    KeyThen([family], a);
    KeyThen([family, a], b);
    KeyThen([family, a, b], c);
    KeyThen([family, a, b, c], d);
    assert [family] + [a] == [family, a] && [family, a] + [b] == [family, a, b];
    assert [family, a, b] + [c] == [family, a, b, c] && [family, a, b, c] + [d] == [family, a, b, c, d];
  }

  /** A store's key, character by character. */
  lemma StoreKeySpelled(family: string, m: StoreMeta, withPath: bool)
    ensures var base := Spelled(family, m.deviceId, m.user, "default", m.bundleName, m.storeId);
      var named := if m.instanceId == 0 then base else base + "###" + ToString(m.instanceId);
      KeyOf(StoreParts(family, m, withPath)) == if withPath then named + "###" + m.dataDir else named
  {
    var base := [family, m.deviceId, m.user, "default", m.bundleName, m.storeId];
    SixParts(family, m.deviceId, m.user, "default", m.bundleName, m.storeId);
    var named := if m.instanceId == 0 then base else base + [ToString(m.instanceId)];
    if m.instanceId != 0 {
      KeyThen(base, ToString(m.instanceId));
    }
    if withPath {
      KeyThen(named, m.dataDir);
    }
    assert StoreParts(family, m, withPath) == if withPath then named + [m.dataDir] else named;
  }

  lemma SecretKeySpelled(m: StoreMeta, withPath: bool)
    ensures var base := "SecretKey" + "###" + m.user + "###" + "default" + "###" + m.bundleName + "###" + m.storeId;
      var named := if m.version < 0x03000004 then base else base + "###" + ToString(m.instanceId);
      KeyOf(SecretParts(m, withPath)) == (if withPath then named + "###" + m.dataDir else named) + "###" + "SINGLE_KEY"
  {
    var base := [SECRET, m.user, "default", m.bundleName, m.storeId];
    FiveParts(SECRET, m.user, "default", m.bundleName, m.storeId);
    var named := if m.version < UUID_CHANGED_TAG then base else base + [ToString(m.instanceId)];
    if m.version >= UUID_CHANGED_TAG {
      KeyThen(base, ToString(m.instanceId));
    }
    var full := if withPath then named + [m.dataDir] else named;
    if withPath {
      KeyThen(named, m.dataDir);
    }
    KeyThen(full, "SINGLE_KEY");
    assert SecretParts(m, withPath) == full + ["SINGLE_KEY"];
  }

  /** The keys of a record, character by character. */
  lemma KeysSpelled(m: StoreMeta)
    ensures var base := (f: string) => Spelled(f, m.deviceId, m.user, "default", m.bundleName, m.storeId);
      var named := (f: string) => if m.instanceId == 0 then base(f) else base(f) + "###" + ToString(m.instanceId);
      && MappingKey(m) == named("StoreMetaMapping")
      && KeyWithoutPath(m) == named("KvStoreMetaData") && GetKey(m) == named("KvStoreMetaData") + "###" + m.dataDir
      && LocalKeyWithoutPath(m) == named("KvStoreMetaDataLocal")
      && LocalKey(m) == named("KvStoreMetaDataLocal") + "###" + m.dataDir
  {
    StoreKeySpelled(MAPPING, m, false);
    StoreKeySpelled(STORE, m, false);
    StoreKeySpelled(STORE, m, true);
    StoreKeySpelled(LOCAL, m, false);
    StoreKeySpelled(LOCAL, m, true);
  }

  lemma InfoKeysSpelled(m: StoreMeta)
    ensures DebugKey(m) == Spelled("StoreDebugInfo", m.deviceId, m.user, "default", m.bundleName, m.storeId)
                             + "###" + ToString(m.instanceId)
    ensures DfxKey(m) == Spelled("StoreDfxInfo", m.deviceId, m.user, "default", m.bundleName, m.storeId)
                           + "###" + ToString(m.instanceId) + "###"
  {
    SixParts(DEBUG_INFO, m.deviceId, m.user, "default", m.bundleName, m.storeId);
    SixParts(DFX_INFO, m.deviceId, m.user, "default", m.bundleName, m.storeId);
    var debug := [DEBUG_INFO, m.deviceId, m.user, "default", m.bundleName, m.storeId];
    var dfx := [DFX_INFO, m.deviceId, m.user, "default", m.bundleName, m.storeId];
    KeyThen(debug, ToString(m.instanceId));
    KeyThen(dfx, ToString(m.instanceId));
    KeyThen(dfx + [ToString(m.instanceId)], "");
    assert DebugParts(m) == debug + [ToString(m.instanceId)];
    assert DfxParts(m) == dfx + [ToString(m.instanceId)] + [""];
  }
}
