/**
  KvStoreMetaManager::UpgradeStoreMeta: the metadata of a store moves from keys without its path to
  keys with it, in batches that are first saved and then deleted.
 */
module MetaUpgrade {
  import opened MetaKeys

  /** What Serializable::Marshall makes of a record; reading it back gives the record. */
  datatype Value = Store(meta: StoreMeta) | Mapping(meta: StoreMeta) | Other(data: nat)

  type DB = map<string, Value>
  type Puts = seq<(string, Value)>

  /** A record with the keys its getters build: with its path, and without it. */
  datatype Rec = Rec(
    meta: StoreMeta,
    store: string, local: string, secret: string, mapping: string,
    oldStore: string, oldLocal: string, oldSecret: string, debug: string, dfx: string)

  /** What one record contributes to its batch. */
  function RecordPuts(db: DB, m: Rec): Puts {
    (if m.oldLocal in db then [(m.local, db[m.oldLocal])] else [])
      + (if m.oldSecret in db then [(m.secret, db[m.oldSecret])] else [])
      + [(m.mapping, Mapping(m.meta)), (m.store, Store(m.meta))]
  }

  function RecordDeletes(db: DB, m: Rec): seq<string> {
    (if m.oldLocal in db then [m.oldLocal] else [])
      + (if m.oldSecret in db then [m.oldSecret] else [])
      + [m.oldStore, m.debug, m.dfx]
  }

  function BatchPuts(db: DB, ms: seq<Rec>): Puts {
    if ms == [] then [] else BatchPuts(db, ms[..|ms| - 1]) + RecordPuts(db, ms[|ms| - 1])
  }

  function BatchDeletes(db: DB, ms: seq<Rec>): seq<string> {
    if ms == [] then [] else BatchDeletes(db, ms[..|ms| - 1]) + RecordDeletes(db, ms[|ms| - 1])
  }

  function PutAll(db: DB, puts: Puts): DB {
    if puts == [] then db else PutAll(db, puts[..|puts| - 1])[puts[|puts| - 1].0 := puts[|puts| - 1].1]
  }

  function SaveBatch(db: DB, ms: seq<Rec>): DB {
    PutAll(db, BatchPuts(db, ms))
  }

  // ---- Records that do not disturb each other -----------------------------------------------------

  /** The keys an upgrade of `m` deletes, and those it writes. */
  predicate IsOldKey(m: Rec, k: string) {
    k == m.oldStore || k == m.oldLocal || k == m.oldSecret || k == m.debug || k == m.dfx
  }

  predicate IsNewKey(m: Rec, k: string) {
    k == m.store || k == m.local || k == m.secret || k == m.mapping
  }

  predicate Touches(m: Rec, k: string) {
    IsOldKey(m, k) || IsNewKey(m, k)
  }

  /** The new keys of a record are four, none of them is an old key, and the old secret key is only that. */
  ghost predicate Sound(m: Rec) {
    && m.oldSecret !in {m.oldStore, m.oldLocal, m.debug, m.dfx}
    && m.store != m.local && m.store != m.secret && m.store != m.mapping
    && m.local != m.secret && m.local != m.mapping && m.secret != m.mapping
    && forall k | IsNewKey(m, k) :: !IsOldKey(m, k)
  }

  /** Old records of two instances of a store may share their old secret key, and then the new one too. */
  predicate IsSharedSecret(m: Rec, n: Rec, k: string) {
    m.oldSecret == n.oldSecret && (k == m.oldSecret || (k == m.secret && k == n.secret))
  }

  ghost predicate Apart(m: Rec, n: Rec) {
    forall k | Touches(m, k) && Touches(n, k) :: IsSharedSecret(m, n, k)
  }

  ghost predicate Consistent(ms: seq<Rec>) {
    && (forall m | m in ms :: Sound(m))
    && (forall m, n | m in ms && n in ms && m != n :: Apart(m, n))
  }

  ghost predicate Touched(ms: seq<Rec>, k: string) {
    exists m | m in ms :: Touches(m, k)
  }

  lemma OneToucher(ms: seq<Rec>, m: Rec, n: Rec, k: string)
    requires Consistent(ms) && m in ms && n in ms && Touches(m, k) && Touches(n, k)
    ensures m == n || IsSharedSecret(m, n, k)
  {
    assert m != n ==> Apart(m, n);
  }

  /** No key that one record's upgrade writes is deleted by its own or another's. */
  lemma NewIsNotOld(ms: seq<Rec>, m: Rec, n: Rec, k: string)
    requires Consistent(ms) && m in ms && n in ms && IsNewKey(m, k)
    ensures !IsOldKey(n, k)
  {
    assert Sound(m) && Sound(n);
    if Touches(n, k) {
      OneToucher(ms, m, n, k);
    }
  }

  // ---- What an upgrade does ----------------------------------------------------------------------

  predicate SameAt(d: DB, e: DB, k: string) {
    (k in d <==> k in e) && (k in d ==> d[k] == e[k])
  }

  /** The value at `from` in `d`, if there is one, is at `to` in `f`; if not, `to` is as in `e`. */
  predicate Carried(d: DB, from: string, e: DB, f: DB, to: string) {
    if from in d then to in f && f[to] == d[from] else SameAt(e, f, to)
  }

  /** `f` is `e` with what `d` has for `m` at the keys with a path. */
  predicate WrittenOver(d: DB, m: Rec, e: DB, f: DB) {
    && m.store in f && f[m.store] == Store(m.meta)
    && m.mapping in f && f[m.mapping] == Mapping(m.meta)
    && Carried(d, m.oldLocal, e, f, m.local)
    && Carried(d, m.oldSecret, e, f, m.secret)
  }

  predicate Written(d: DB, m: Rec, e: DB) {
    WrittenOver(d, m, d, e)
  }

  /** All of that but the secret. */
  predicate MainWritten(d: DB, m: Rec, e: DB) {
    && m.store in e && e[m.store] == Store(m.meta)
    && m.mapping in e && e[m.mapping] == Mapping(m.meta)
    && Carried(d, m.oldLocal, d, e, m.local)
  }

  predicate SecretCarried(d: DB, m: Rec, e: DB) {
    Carried(d, m.oldSecret, d, e, m.secret)
  }

  /** Another record has the same old secret key and a different new one. */
  ghost predicate Shares(all: seq<Rec>, m: Rec) {
    exists n | n in all :: n.oldSecret == m.oldSecret && n.secret != m.secret
  }

  /** The new secret key holds the old one's value, or is as it was if the old key is shared. */
  ghost predicate SecretKept(all: seq<Rec>, d: DB, m: Rec, e: DB) {
    SecretCarried(d, m, e) || (Shares(all, m) && SameAt(d, e, m.secret))
  }

  ghost predicate Leftover(d: DB, m: Rec, e: DB) {
    forall k | IsOldKey(m, k) && k in e :: SameAt(d, e, k)
  }

  ghost predicate Cleared(m: Rec, e: DB) {
    forall k | IsOldKey(m, k) :: k !in e
  }

  ghost predicate OthersKept(d: DB, ms: seq<Rec>, e: DB) {
    forall k | !Touched(ms, k) :: SameAt(d, e, k)
  }

  /** Between `d` and `e` the record was saved at its new keys and some of its old keys were deleted. */
  ghost predicate Saved(all: seq<Rec>, d: DB, m: Rec, e: DB) {
    MainWritten(d, m, e) && SecretKept(all, d, m, e) && Leftover(d, m, e)
  }

  /** Of the records `all` those in `ms`, and only they, were saved at their new keys between `d` and `e`. */
  ghost predicate Settled(all: seq<Rec>, d: DB, ms: seq<Rec>, e: DB) {
    (forall m | m in ms :: Saved(all, d, m, e)) && OthersKept(d, ms, e)
  }

  /** And their old keys are gone. */
  ghost predicate IsMoved(all: seq<Rec>, d: DB, ms: seq<Rec>, e: DB) {
    Settled(all, d, ms, e) && forall m | m in ms :: Cleared(m, e)
  }

  /** `e` is `d` with the records `ms` moved to their new keys, every value kept, and nothing else changed. */
  ghost predicate IsUpgrade(d: DB, ms: seq<Rec>, e: DB) {
    IsMoved(ms, d, ms, e) && forall m | m in ms :: SecretCarried(d, m, e)
  }

  lemma ResultAtKey(d: DB, m: Rec, e: DB, f: DB, k: string)
    requires MainWritten(d, m, e) && MainWritten(d, m, f) && SecretCarried(d, m, e) && SecretCarried(d, m, f)
    requires Cleared(m, e) && Cleared(m, f) && Touches(m, k)
    ensures SameAt(e, f, k)
  {
    if IsOldKey(m, k) {
      assert k !in e && k !in f;
    }
  }

  lemma SameEverywhere(e: DB, f: DB)
    requires forall k :: SameAt(e, f, k)
    ensures e == f
  {
    forall k ensures k in e <==> k in f {
      assert SameAt(e, f, k);
    }
    assert e.Keys == f.Keys;
    forall k | k in e ensures e[k] == f[k] {
      assert SameAt(e, f, k);
    }
  }

  /** An upgrade has one result, whatever the order of the records and the size of the batches. */
  lemma UpgradeIsUnique(d: DB, ms: seq<Rec>, ns: seq<Rec>, e: DB, f: DB)
    requires (forall m :: m in ms <==> m in ns) && IsUpgrade(d, ms, e) && IsUpgrade(d, ns, f)
    ensures e == f
  {
    forall k ensures SameAt(e, f, k) {
      if Touched(ms, k) {
        var m :| m in ms && Touches(m, k);
        assert Saved(ms, d, m, e) && Saved(ns, d, m, f);
        ResultAtKey(d, m, e, f, k);
      } else {
        assert !Touched(ns, k);
        assert SameAt(d, e, k) && SameAt(d, f, k);
      }
    }
    SameEverywhere(e, f);
  }

  // ---- One batch ---------------------------------------------------------------------------------

  lemma {:induction false} PutAllSplits(d: DB, a: Puts, b: Puts)
    ensures PutAll(d, a + b) == PutAll(PutAll(d, a), b)
    decreases |b|
  {
    if b == [] {
      assert a + b == a;
    } else {
      var c := a + b;
      assert c[..|c| - 1] == a + b[..|b| - 1];
      PutAllSplits(d, a, b[..|b| - 1]);
    }
  }

  lemma PutOne(d: DB, k: string, v: Value)
    ensures PutAll(d, [(k, v)]) == d[k := v]
  {
    assert [(k, v)][..0] == [];
  }

  function PutIf(e: DB, from: string, d: DB, to: string): DB {
    if from in d then e[to := d[from]] else e
  }

  lemma RecordPut(d: DB, m: Rec, e: DB)
    ensures PutAll(e, RecordPuts(d, m)) ==
            PutIf(PutIf(e, m.oldLocal, d, m.local), m.oldSecret, d, m.secret)
              [m.mapping := Mapping(m.meta)][m.store := Store(m.meta)]
  {
    var a := if m.oldLocal in d then [(m.local, d[m.oldLocal])] else [];
    var b := if m.oldSecret in d then [(m.secret, d[m.oldSecret])] else [];
    var x, y := (m.mapping, Mapping(m.meta)), (m.store, Store(m.meta));
    assert RecordPuts(d, m) == a + b + [x, y];
    assert [x, y] == [x] + [y];
    PutAllSplits(e, a + b, [x, y]);
    PutAllSplits(e, a, b);
    var f := PutAll(PutAll(e, a), b);
    PutAllSplits(f, [x], [y]);
    PutOne(f, x.0, x.1);
    PutOne(f[x.0 := x.1], y.0, y.1);
    if a != [] {
      PutOne(e, a[0].0, a[0].1);
    }
    if b != [] {
      PutOne(PutAll(e, a), b[0].0, b[0].1);
    }
  }

  lemma RecordSaved(d: DB, m: Rec, e: DB)
    requires Sound(m)
    ensures WrittenOver(d, m, e, PutAll(e, RecordPuts(d, m)))
    ensures forall k | !IsNewKey(m, k) :: SameAt(e, PutAll(e, RecordPuts(d, m)), k)
  {
    RecordPut(d, m, e);
  }

  /** A saved batch: every record written, and no key but their new ones changed. */
  ghost predicate IsSaved(d: DB, ms: seq<Rec>, e: DB) {
    && (forall m | m in ms :: Written(d, m, e))
    && (forall k | (forall m | m in ms :: !IsNewKey(m, k)) :: SameAt(d, e, k))
  }

  /** Writing `n` keeps what was written for `m`, or writes the same secret there. */
  lemma StaysWritten(d: DB, m: Rec, n: Rec, e: DB, f: DB)
    requires Sound(m) && Sound(n) && Apart(m, n) && Written(d, m, e) && WrittenOver(d, n, e, f)
    requires forall k | !IsNewKey(n, k) :: SameAt(e, f, k)
    ensures Written(d, m, f)
  {
    assert Touches(m, m.store) && Touches(m, m.mapping) && Touches(m, m.local) && Touches(m, m.secret);
    assert m.secret != m.oldSecret by { assert IsNewKey(m, m.secret) && IsOldKey(m, m.oldSecret); }
    assert SameAt(e, f, m.store) && SameAt(e, f, m.mapping) && SameAt(e, f, m.local);
    assert SameAt(e, f, m.secret) || (m.secret == n.secret && m.oldSecret == n.oldSecret);
  }

  /** What was not yet written for `n`, or was for a record with the same secret. */
  lemma NotYetWritten(d: DB, ms: seq<Rec>, n: Rec, e: DB)
    requires Consistent(ms + [n]) && n !in ms && IsSaved(d, ms, e)
    ensures SameAt(d, e, n.local) && (n.oldSecret in d || SameAt(d, e, n.secret))
  {
    forall m | m in ms ensures !IsNewKey(m, n.local) && (IsNewKey(m, n.secret) ==> m.secret == n.secret && m.oldSecret == n.oldSecret) {
      assert m in ms + [n] && n in ms + [n] && Sound(n);
      assert Apart(n, m) && Touches(n, n.local) && Touches(n, n.secret);
      assert IsNewKey(n, n.secret) && IsNewKey(n, n.local) && IsOldKey(n, n.oldSecret);
    }
    assert SameAt(d, e, n.local);
    if m :| m in ms && IsNewKey(m, n.secret) {
      assert Written(d, m, e);
    } else {
      assert SameAt(d, e, n.secret);
    }
  }

  lemma {:induction false} BatchSaved(d: DB, ms: seq<Rec>)
    requires Consistent(ms)
    ensures IsSaved(d, ms, SaveBatch(d, ms))
    decreases |ms|
  {
    if ms == [] {
    } else {
      var front, n := ms[..|ms| - 1], ms[|ms| - 1];
      var e, f := SaveBatch(d, front), SaveBatch(d, ms);
      BatchSaved(d, front);
      PutAllSplits(d, BatchPuts(d, front), RecordPuts(d, n));
      RecordSaved(d, n, e);
      assert front + [n] == ms;
      if n !in front {
        NotYetWritten(d, front, n, e);
      }
      forall m | m in ms ensures Written(d, m, f) {
        if m != n {
          assert m in front;
          StaysWritten(d, m, n, e, f);
        }
      }
      forall k | forall m | m in ms :: !IsNewKey(m, k) ensures SameAt(d, f, k) {
        assert SameAt(d, e, k) && SameAt(e, f, k);
      }
    }
  }

  lemma {:induction false} BatchDeleted(d: DB, ms: seq<Rec>, k: string)
    ensures k in BatchDeletes(d, ms) <==> exists m | m in ms :: k in RecordDeletes(d, m)
    decreases |ms|
  {
    if ms == [] {
    } else {
      var front, n := ms[..|ms| - 1], ms[|ms| - 1];
      assert ms == front + [n];
      BatchDeleted(d, front, k);
    }
  }

  lemma DeletesAreOld(d: DB, m: Rec, k: string)
    ensures k in RecordDeletes(d, m) ==> IsOldKey(m, k)
    ensures IsOldKey(m, k) && k in d ==> k in RecordDeletes(d, m)
  {
  }

  /** A batch that was saved, with any of the keys it deletes deleted. */
  lemma BatchSettles(all: seq<Rec>, d: DB, ms: seq<Rec>, gone: set<string>)
    requires Consistent(ms) && forall k | k in gone :: k in BatchDeletes(d, ms)
    ensures Settled(all, d, ms, SaveBatch(d, ms) - gone)
    ensures forall m | m in ms :: SecretCarried(d, m, SaveBatch(d, ms) - gone)
  {
    var e := SaveBatch(d, ms);
    var f := e - gone;
    BatchSaved(d, ms);
    forall k | k in gone ensures exists n | n in ms :: IsOldKey(n, k) {
      BatchDeleted(d, ms, k);
      var n :| n in ms && k in RecordDeletes(d, n);
      DeletesAreOld(d, n, k);
    }
    forall m, k | m in ms && IsNewKey(m, k) ensures k !in gone && forall n | n in ms :: !IsOldKey(n, k) {
      forall n | n in ms ensures !IsOldKey(n, k) {
        NewIsNotOld(ms, m, n, k);
      }
    }
    forall m | m in ms ensures Saved(all, d, m, f) && SecretCarried(d, m, f) {
      WrittenKept(d, m, e, f, gone);
      forall k | IsOldKey(m, k) && k in f ensures SameAt(d, f, k) {
        assert SameAt(d, e, k);
      }
    }
    forall k | !Touched(ms, k) ensures SameAt(d, f, k) {
      assert SameAt(d, e, k);
    }
  }

  lemma WrittenKept(d: DB, m: Rec, e: DB, f: DB, gone: set<string>)
    requires Written(d, m, e) && f == e - gone && forall k | IsNewKey(m, k) :: k !in gone
    ensures Written(d, m, f)
  {
    assert IsNewKey(m, m.store) && IsNewKey(m, m.mapping) && IsNewKey(m, m.local) && IsNewKey(m, m.secret);
  }

  /** A batch whose keys are all deleted clears its records. */
  lemma BatchClears(d: DB, ms: seq<Rec>, m: Rec)
    requires Consistent(ms) && m in ms
    ensures Cleared(m, SaveBatch(d, ms) - (set k | k in BatchDeletes(d, ms)))
  {
    var gone := set k | k in BatchDeletes(d, ms);
    BatchSettles(ms, d, ms, gone);
    var f := SaveBatch(d, ms) - gone;
    forall k | IsOldKey(m, k) ensures k !in f {
      if k in f {
        assert Saved(ms, d, m, f);
        assert SameAt(d, f, k);
        DeletesAreOld(d, m, k);
        BatchDeleted(d, ms, k);
        assert false;
      }
    }
  }

  // ---- Batches one after the other ---------------------------------------------------------------

  /** The secret of a record is as it was, at both its keys. */
  predicate SecretUnmoved(d: DB, m: Rec, e: DB) {
    SameAt(d, e, m.oldSecret) && SameAt(d, e, m.secret)
  }

  predicate MainUnmoved(d: DB, m: Rec, e: DB) {
    && SameAt(d, e, m.store) && SameAt(d, e, m.mapping) && SameAt(d, e, m.local)
    && SameAt(d, e, m.oldStore) && SameAt(d, e, m.oldLocal) && SameAt(d, e, m.debug) && SameAt(d, e, m.dfx)
  }

  /** A record whose turn has not come; one that shares its old secret key may have had its turn. */
  ghost predicate Waiting(all: seq<Rec>, d: DB, m: Rec, e: DB) {
    && MainUnmoved(d, m, e) && Leftover(d, m, e)
    && (SecretKept(all, d, m, e) || SecretUnmoved(d, m, e))
  }

  lemma UnlistedMain(d: DB, all: seq<Rec>, xs: seq<Rec>, m: Rec, e: DB, k: string)
    requires Consistent(all) && (forall x | x in xs :: x in all) && OthersKept(d, xs, e) && m in all && m !in xs
    requires Touches(m, k) && k != m.oldSecret && k != m.secret
    ensures SameAt(d, e, k)
  {
    if Touched(xs, k) {
      var x :| x in xs && Touches(x, k);
      OneToucher(all, m, x, k);
      assert false;
    }
  }

  lemma UnlistedSecret(d: DB, all: seq<Rec>, xs: seq<Rec>, m: Rec, e: DB)
    requires Consistent(all) && (forall x | x in xs :: x in all) && Settled(all, d, xs, e) && m in all && m !in xs
    ensures SecretKept(all, d, m, e) || SecretUnmoved(d, m, e)
    ensures m.oldSecret in e ==> SameAt(d, e, m.oldSecret)
  {
    var s, t := m.oldSecret, m.secret;
    assert Sound(m) && IsOldKey(m, s) && IsNewKey(m, t) && Touches(m, s) && Touches(m, t);
    if x :| x in xs && Touches(x, t) {
      OneToucher(all, m, x, t);
      assert x.oldSecret == s && x.secret == t && Saved(all, d, x, e) && IsOldKey(x, s);
    } else if x :| x in xs && Touches(x, s) {
      OneToucher(all, m, x, s);
      assert x.oldSecret == s && x.secret != t && IsOldKey(x, s) && Saved(all, d, x, e);
      assert !Touched(xs, t);
    } else {
      assert !Touched(xs, s) && !Touched(xs, t);
    }
  }

  lemma UnlistedWaits(d: DB, all: seq<Rec>, xs: seq<Rec>, m: Rec, e: DB)
    requires Consistent(all) && (forall x | x in xs :: x in all) && Settled(all, d, xs, e) && m in all && m !in xs
    ensures Waiting(all, d, m, e)
  {
    assert Sound(m);
    forall k | Touches(m, k) && k != m.oldSecret && k != m.secret ensures SameAt(d, e, k) {
      UnlistedMain(d, all, xs, m, e, k);
    }
    UnlistedSecret(d, all, xs, m, e);
    assert IsOldKey(m, m.oldSecret) && IsNewKey(m, m.secret);
    forall k | IsOldKey(m, k) && k in e ensures SameAt(d, e, k) {
      assert Touches(m, k) && k != m.secret;
    }
    SharedOldKeys(all, d, m, e);
  }

  /** Old keys of one record other than its secret, and its new ones, are not its secret keys. */
  lemma SharedOldKeys(all: seq<Rec>, d: DB, m: Rec, e: DB)
    requires Sound(m) && forall k | Touches(m, k) && k != m.oldSecret && k != m.secret :: SameAt(d, e, k)
    requires m.oldStore != m.oldSecret && m.oldLocal != m.oldSecret && m.debug != m.oldSecret && m.dfx != m.oldSecret
    ensures MainUnmoved(d, m, e)
  {
    assert Touches(m, m.store) && Touches(m, m.mapping) && Touches(m, m.local);
    assert Touches(m, m.oldStore) && Touches(m, m.oldLocal) && Touches(m, m.debug) && Touches(m, m.dfx);
    assert IsOldKey(m, m.oldSecret) && IsNewKey(m, m.secret);
    assert IsOldKey(m, m.oldStore) && IsOldKey(m, m.oldLocal) && IsOldKey(m, m.debug) && IsOldKey(m, m.dfx);
    assert IsNewKey(m, m.store) && IsNewKey(m, m.mapping) && IsNewKey(m, m.local);
  }

  lemma CarriedOn(d: DB, e: DB, f: DB, from: string, to: string)
    requires from in e ==> SameAt(d, e, from)
    requires Carried(d, from, d, e, to) || (SameAt(d, e, to) && SameAt(d, e, from))
    requires Carried(e, from, e, f, to)
    ensures Carried(d, from, d, f, to)
  {
  }

  lemma SecretGoesOn(all: seq<Rec>, d: DB, m: Rec, e: DB, f: DB)
    requires SecretKept(all, d, m, e) || SecretUnmoved(d, m, e)
    requires SecretKept(all, e, m, f) || SecretUnmoved(e, m, f)
    requires SecretKept(all, d, m, e) || SecretKept(all, e, m, f)
    requires m.oldSecret in e ==> SameAt(d, e, m.oldSecret)
    ensures SecretKept(all, d, m, f)
  {
  }

  lemma LeftoverOn(d: DB, m: Rec, e: DB, f: DB)
    requires Leftover(d, m, e) && Leftover(e, m, f)
    ensures Leftover(d, m, f)
  {
    forall k | IsOldKey(m, k) && k in f ensures SameAt(d, f, k) {
      assert SameAt(e, f, k);
    }
  }

  /** A record that was saved, or not yet, and is then saved again. */
  lemma SavedAfter(all: seq<Rec>, d: DB, m: Rec, e: DB, f: DB)
    requires (Saved(all, d, m, e) || Waiting(all, d, m, e)) && Saved(all, e, m, f)
    ensures Saved(all, d, m, f)
  {
    assert IsOldKey(m, m.oldLocal) && IsOldKey(m, m.oldSecret);
    CarriedOn(d, e, f, m.oldLocal, m.local);
    SecretGoesOn(all, d, m, e, f);
    LeftoverOn(d, m, e, f);
  }

  lemma SavedThenWaits(all: seq<Rec>, d: DB, m: Rec, e: DB, f: DB)
    requires Saved(all, d, m, e) && Waiting(all, e, m, f)
    ensures Saved(all, d, m, f)
  {
    assert IsOldKey(m, m.oldSecret);
    SecretGoesOn(all, d, m, e, f);
    LeftoverOn(d, m, e, f);
  }

  lemma Compose(d: DB, all: seq<Rec>, xs: seq<Rec>, e: DB, ys: seq<Rec>, f: DB)
    requires Consistent(all) && (forall x | x in xs + ys :: x in all) && Settled(all, d, xs, e) && Settled(all, e, ys, f)
    ensures Settled(all, d, xs + ys, f)
  {
    forall m | m in xs + ys ensures Saved(all, d, m, f) {
      if m !in xs {
        UnlistedWaits(d, all, xs, m, e);
      }
      if m in ys {
        SavedAfter(all, d, m, e, f);
      } else {
        UnlistedWaits(e, all, ys, m, f);
        SavedThenWaits(all, d, m, e, f);
      }
    }
    forall k | !Touched(xs + ys, k) ensures SameAt(d, f, k) {
      assert !Touched(xs, k) && !Touched(ys, k);
      assert SameAt(d, e, k) && SameAt(e, f, k);
    }
  }
}
