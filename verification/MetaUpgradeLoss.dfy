/**
  A database on which KvStoreMetaManager::UpgradeStoreMeta loses a secret: more than one batch of old
  records of the instances of one store, which share their old secret key.
 */
module MetaUpgradeLoss {
  import opened MetaKeys
  import opened MetaUpgrade
  import opened MetaUpgradeKeys
  import opened MetaUpgradeRuns
  import opened MetaUpgradeStore

  const DEVICE := "device"

  /** Old records of the instances of one store, each with a path of its own. */
  function Instance(i: nat): StoreMeta {
    StoreMeta(0x03000003, DEVICE, "100", "bundle", "store", i, "/data/" + ToString(i), 0)
  }

  function Instances(n: nat): seq<Rec> {
    seq(n, i requires 0 <= i < n => RecOf(Instance(i)))
  }

  function Metas(n: nat): seq<StoreMeta> {
    seq(n, i requires 0 <= i < n => Instance(i))
  }

  function OldKeys(n: nat): seq<string> {
    seq(n, i requires 0 <= i < n => KeyWithoutPath(Instance(i)))
  }

  /** A database from before the upgrade: the records of `n` instances, and the secret they share. */
  function OldLayout(n: nat, secret: Value): DB {
    Database(OldKeys(n), Metas(n), SecretKeyWithoutPath(Instance(0)), secret)
  }

  /** Records at their keys, and a secret at `s`. */
  function Database(keys: seq<string>, metas: seq<StoreMeta>, s: string, secret: Value): DB
    requires |keys| == |metas|
  {
    if keys == [] then map[s := secret]
    else
      var n := |keys| - 1;
      Database(keys[..n], metas[..n], s, secret)[keys[n] := Store(metas[n])]
  }

  /** The database has the records at their keys, and besides them only `s`. */
  ghost predicate HasJust(d: DB, keys: seq<string>, metas: seq<StoreMeta>, s: string) {
    && |keys| == |metas|
    && (forall i | 0 <= i < |keys| :: keys[i] in d && d[keys[i]] == Store(metas[i]))
    && (forall k | k in d :: k == s || k in keys)
  }

  lemma {:induction false} DatabaseHas(keys: seq<string>, metas: seq<StoreMeta>, s: string, secret: Value)
    requires |keys| == |metas| && s !in keys && forall i, j | 0 <= i < j < |keys| :: keys[i] != keys[j]
    ensures var d := Database(keys, metas, s, secret); HasJust(d, keys, metas, s) && s in d && d[s] == secret
  {
    if keys == [] {
    } else {
      var n := |keys| - 1;
      DatabaseHas(keys[..n], metas[..n], s, secret);
      var d, e := Database(keys[..n], metas[..n], s, secret), Database(keys, metas, s, secret);
      forall i | 0 <= i < |keys| ensures keys[i] in e && e[keys[i]] == Store(metas[i]) {
        if i < n {
          assert keys[..n][i] == keys[i] && metas[..n][i] == metas[i];
        }
      }
      assert keys == keys[..n] + [keys[n]];
    }
  }

  lemma InstanceIsWellFormed(i: nat)
    ensures WellFormed(Instance(i))
  {
    NumbersInKeys(0, i);
    var dir := Instance(i).dataDir;
    assert HashFree(dir) by {
      forall j | 0 <= j < |dir| ensures dir[j] != '#' {
        assert j >= 6 ==> dir[j] == ToString(i)[j - 6];
      }
    }
  }

  lemma InstancesDiffer(i: nat, j: nat)
    requires i != j
    ensures !SameStore(Instance(i), Instance(j)) && SameSecret(Instance(i), Instance(j))
    ensures KeyWithoutPath(Instance(i)) != KeyWithoutPath(Instance(j)) && SecretKey(Instance(i)) != SecretKey(Instance(j))
  {
    InstanceIsWellFormed(i);
    InstanceIsWellFormed(j);
    NumbersInKeys(i, j);
    assert Instance(i).dataDir[6..] == ToString(i) && Instance(j).dataDir[6..] == ToString(j);
    StoreKeysDiffer(STORE, Instance(i), Instance(j), false);
    SharedSecrets(Instance(i), Instance(j));
  }

  lemma InstancesShare(i: nat)
    ensures SecretKeyWithoutPath(Instance(i)) == SecretKeyWithoutPath(Instance(0))
  {
    InstanceIsWellFormed(i);
    InstanceIsWellFormed(0);
    SharedSecrets(Instance(i), Instance(0));
  }

  /** Neither secret key of an instance is a store key. */
  lemma SecretsAreNoStores(i: nat, j: nat)
    ensures KeyWithoutPath(Instance(j)) != SecretKeyWithoutPath(Instance(i))
    ensures KeyWithoutPath(Instance(j)) != SecretKey(Instance(i))
    ensures SecretKey(Instance(i)) != SecretKeyWithoutPath(Instance(j))
    ensures !(Prefix(DEVICE) <= SecretKeyWithoutPath(Instance(i)))
  {
    var m, n := Instance(i), Instance(j);
    InstanceIsWellFormed(i);
    InstanceIsWellFormed(j);
    RecordFamilies(m);
    RecordFamilies(n);
    assert |STORE| != |SECRET|;
    SecretFamilyNewIsNotOld(m, n);
    if Prefix(DEVICE) <= SecretKeyWithoutPath(m) {
      PrefixShowsFamily(DEVICE, SecretKeyWithoutPath(m));
    }
  }

  lemma OldLayoutHas(n: nat, secret: Value)
    ensures var d, s := OldLayout(n, secret), SecretKeyWithoutPath(Instance(0));
      HasJust(d, OldKeys(n), Metas(n), s) && s in d && d[s] == secret
  {
    var keys := OldKeys(n);
    forall i | 0 <= i < n ensures keys[i] != SecretKeyWithoutPath(Instance(0)) {
      SecretsAreNoStores(0, i);
    }
    forall i, j | 0 <= i < j < n ensures keys[i] != keys[j] {
      InstancesDiffer(i, j);
    }
    DatabaseHas(keys, Metas(n), SecretKeyWithoutPath(Instance(0)), secret);
  }

  /** Every key of a record is one of its homes, and `s` is found by no prefix query. */
  ghost predicate AtHome(uuid: string, keys: seq<string>, metas: seq<StoreMeta>, s: string) {
    && |keys| == |metas| && !(Prefix(uuid) <= s)
    && forall i | 0 <= i < |keys| :: Prefix(uuid) <= keys[i] && IsHome(uuid, RecOf(metas[i]), keys[i])
  }

  lemma FoundIsRecord(d: DB, uuid: string, keys: seq<string>, metas: seq<StoreMeta>, s: string, k: string) returns (i: nat)
    requires HasJust(d, keys, metas, s) && AtHome(uuid, keys, metas, s) && k in Found(d, uuid)
    ensures i < |keys| && k == keys[i] && d[k] == Store(metas[i])
  {
    assert k in keys;
    i :| 0 <= i < |keys| && keys[i] == k;
  }

  /** It is a database that the upgrade is for, and the records can be loaded in the order of their keys. */
  lemma DatabaseLoads(d: DB, uuid: string, keys: seq<string>, metas: seq<StoreMeta>, s: string, ms: seq<Rec>)
    requires HasJust(d, keys, metas, s) && AtHome(uuid, keys, metas, s)
    requires |ms| == |metas| && forall i | 0 <= i < |ms| :: ms[i] == RecOf(metas[i])
    ensures Layout(d, uuid) && Lists(d, uuid, ms)
  {
    forall k | k in Found(d, uuid) ensures d[k].Store? && IsHome(uuid, Decode(d[k]), k) && Decode(d[k]) in ms {
      var i := FoundIsRecord(d, uuid, keys, metas, s, k);
      assert Decode(d[k]) == ms[i];
    }
    forall m | m in ms ensures exists k | k in Found(d, uuid) :: Decode(d[k]) == m {
      var i :| 0 <= i < |ms| && ms[i] == m;
      assert keys[i] in Found(d, uuid) && Decode(d[keys[i]]) == m;
    }
  }

  lemma DatabaseOnePerStore(d: DB, uuid: string, keys: seq<string>, metas: seq<StoreMeta>, s: string)
    requires HasJust(d, keys, metas, s) && AtHome(uuid, keys, metas, s)
    requires forall i, j | 0 <= i < |metas| && 0 <= j < |metas| && i != j :: !SameStore(metas[i], metas[j])
    ensures OnePerStore(d, uuid)
  {
    forall k, j | k in Found(d, uuid) && j in Found(d, uuid) && Decode(d[k]) != Decode(d[j])
      ensures !SameStore(Decode(d[k]).meta, Decode(d[j]).meta)
    {
      var x := FoundIsRecord(d, uuid, keys, metas, s, k);
      var y := FoundIsRecord(d, uuid, keys, metas, s, j);
    }
  }

  lemma InstancesAtHome(n: nat)
    ensures AtHome(DEVICE, OldKeys(n), Metas(n), SecretKeyWithoutPath(Instance(0)))
  {
    SecretsAreNoStores(0, 0);
    forall i | 0 <= i < n ensures Prefix(DEVICE) <= OldKeys(n)[i] && IsHome(DEVICE, RecOf(Metas(n)[i]), OldKeys(n)[i]) {
      InstanceIsWellFormed(i);
      HomesHavePrefix(DEVICE, Instance(i));
    }
  }

  lemma OldLayoutLoads(n: nat, secret: Value)
    ensures Layout(OldLayout(n, secret), DEVICE) && OnePerStore(OldLayout(n, secret), DEVICE)
    ensures Lists(OldLayout(n, secret), DEVICE, Instances(n))
  {
    var d, s := OldLayout(n, secret), SecretKeyWithoutPath(Instance(0));
    OldLayoutHas(n, secret);
    InstancesAtHome(n);
    DatabaseLoads(d, DEVICE, OldKeys(n), Metas(n), s, Instances(n));
    forall i, j | 0 <= i < n && 0 <= j < n && i != j ensures !SameStore(Metas(n)[i], Metas(n)[j]) {
      InstancesDiffer(i, j);
    }
    DatabaseOnePerStore(d, DEVICE, OldKeys(n), Metas(n), s);
  }

  lemma NoNewSecret(n: nat, secret: Value, i: nat)
    ensures SecretKey(Instance(i)) !in OldLayout(n, secret)
  {
    OldLayoutHas(n, secret);
    SecretsAreNoStores(i, 0);
    forall j | 0 <= j < n ensures OldKeys(n)[j] != SecretKey(Instance(i)) {
      SecretsAreNoStores(i, j);
    }
  }

  /** 101 records are two batches, the second of which is the last record alone. */
  lemma TwoBatches(ms: seq<Rec>)
    requires |ms| == 101
    ensures Stops(101, [], 2, true) && AllFine([], 2)
    ensures Batch(ms, 0) == ms[..100] && Batch(ms, 1) == [ms[100]]
  {
    assert AllFine([], 1) && AllSaved([], 1);
    assert Edge(101, 0) == 0 && Edge(101, 1) == 100 && Edge(101, 2) == 101;
  }

  lemma LastIsLate(ms: seq<Rec>)
    requires |ms| == 101 && ms[0].oldSecret == ms[100].oldSecret
    requires forall i | 0 <= i < 100 :: ms[i].secret != ms[100].secret
    ensures !InFirstBatch(ms, 2, ms[100].oldSecret, ms[100].secret)
  {
    TwoBatches(ms);
    var first, s := Batch(ms, 0), ms[100].oldSecret;
    assert first[0] == ms[0] && IsOldKey(first[0], s);
    assert Deletes(first, s) && !IsFirst(ms, 1, s);
    assert !Writes(first, s, ms[100].secret);
  }

  lemma LastInstanceIsLate()
    ensures !InFirstBatch(Instances(101), 2, SecretKeyWithoutPath(Instance(100)), SecretKey(Instance(100)))
  {
    var ms := Instances(101);
    InstancesShare(100);
    forall i | 0 <= i < 100 ensures ms[i].secret != ms[100].secret {
      InstancesDiffer(i, 100);
    }
    LastIsLate(ms);
  }

  /**
    UpgradeStoreMeta on 101 old records of one store, with everything saved and deleted, answers true,
    and the secret of the last record is gone.
   */
  lemma SecretIsLost(secret: Value)
    ensures var d, ms, m := OldLayout(101, secret), Instances(101), Instance(100);
      && Layout(d, DEVICE) && OnePerStore(d, DEVICE) && Lists(d, DEVICE, ms)
      && Stops(|ms|, [], 2, true) && AllFine([], 2)
      && SecretKeyWithoutPath(m) in d && d[SecretKeyWithoutPath(m)] == secret
      && var e := RunBatches(d, ms, [], 2);
      SecretKeyWithoutPath(m) !in e && SecretKey(m) !in e
  {
    var d, ms, m := OldLayout(101, secret), Instances(101), Instance(100);
    OldLayoutLoads(101, secret);
    LoadedAreConsistent(d, DEVICE, ms);
    TwoBatches(ms);
    LastInstanceIsLate();
    InstancesShare(100);
    OldLayoutHas(101, secret);
    NoNewSecret(101, secret, 100);
    SecretIsLostIff(d, ms, [], 2, 1, RecOf(m));
  }
}
