/**
  The batches of KvStoreMetaManager::UpgradeStoreMeta, with failing saves and deletes, and what becomes of each key.
 */
module MetaUpgradeRuns {
  import opened MetaKeys
  import opened MetaUpgrade
  import opened MetaUpgradeKeys

  const BATCH_SIZE := 100

  /** What the store does to one batch: SaveMeta's answer, and whether DelMeta, whose answer is ignored, works. */
  datatype Outcome = Fine | DeleteFails | SaveFails

  function At(outcomes: seq<Outcome>, i: nat): Outcome {
    if i < |outcomes| then outcomes[i] else Fine
  }

  function Elements(keys: seq<string>): set<string> {
    set k | k in keys
  }

  /** None of the first `n` batches fails to be saved, or none of them fails at all. */
  predicate AllSaved(outcomes: seq<Outcome>, n: nat) {
    n == 0 || (AllSaved(outcomes, n - 1) && At(outcomes, n - 1) != SaveFails)
  }

  predicate AllFine(outcomes: seq<Outcome>, n: nat) {
    n == 0 || (AllFine(outcomes, n - 1) && At(outcomes, n - 1) == Fine)
  }

  function RunBatch(db: DB, ms: seq<Rec>, outcome: Outcome): DB {
    match outcome
    case SaveFails => db
    case DeleteFails => SaveBatch(db, ms)
    case Fine => SaveBatch(db, ms) - Elements(BatchDeletes(db, ms))
  }

  /** How many of `n` records the first `i` batches hold. */
  function Edge(n: nat, i: nat): (e: nat)
    ensures e <= n
  {
    if i == 0 then 0 else Next(n, Edge(n, i - 1))
  }

  function Next(n: nat, it: nat): nat
    requires it <= n
  {
    if BATCH_SIZE < n - it then it + BATCH_SIZE else n
  }

  function Batch(ms: seq<Rec>, i: nat): seq<Rec> {
    ms[Edge(|ms|, i)..Edge(|ms|, i + 1)]
  }

  /** The database after `n` batches. */
  function RunBatches(db: DB, ms: seq<Rec>, outcomes: seq<Outcome>, n: nat): DB {
    if n == 0 then db
    else RunBatch(RunBatches(db, ms, outcomes, n - 1), Batch(ms, n - 1), At(outcomes, n - 1))
  }

  lemma SomeConsistent(ms: seq<Rec>, xs: seq<Rec>)
    requires Consistent(ms) && forall x | x in xs :: x in ms
    ensures Consistent(xs)
  {
  }

  /**
    Batches whose saves succeed settle the records they hold, and move them if the deletes succeed too:
    every value but a shared secret is at its new key.
   */
  lemma {:induction false} BatchesUpgrade(db: DB, ms: seq<Rec>, outcomes: seq<Outcome>, n: nat)
    requires Consistent(ms) && AllSaved(outcomes, n)
    ensures Settled(ms, db, ms[..Edge(|ms|, n)], RunBatches(db, ms, outcomes, n))
    ensures AllFine(outcomes, n) ==> IsMoved(ms, db, ms[..Edge(|ms|, n)], RunBatches(db, ms, outcomes, n))
  {
    if n == 0 {
    } else {
      var xs, ys := ms[..Edge(|ms|, n - 1)], Batch(ms, n - 1);
      var e := RunBatches(db, ms, outcomes, n - 1);
      BatchesUpgrade(db, ms, outcomes, n - 1);
      assert xs + ys == ms[..Edge(|ms|, n)];
      NextBatch(db, ms, xs, e, ys, At(outcomes, n - 1));
    }
  }

  lemma NextBatch(d: DB, ms: seq<Rec>, xs: seq<Rec>, e: DB, ys: seq<Rec>, outcome: Outcome)
    requires Consistent(ms) && (forall x | x in xs + ys :: x in ms) && Settled(ms, d, xs, e) && outcome != SaveFails
    ensures Settled(ms, d, xs + ys, RunBatch(e, ys, outcome))
    ensures IsMoved(ms, d, xs, e) && outcome == Fine ==> IsMoved(ms, d, xs + ys, RunBatch(e, ys, outcome))
  {
    var f := RunBatch(e, ys, outcome);
    var gone := if outcome == Fine then Elements(BatchDeletes(e, ys)) else {};
    assert f == SaveBatch(e, ys) - gone;
    NextBatchCutShort(d, ms, xs, e, ys, gone);
    if IsMoved(ms, d, xs, e) && outcome == Fine {
      SomeConsistent(ms, ys);
      BatchSettles(ms, e, ys, gone);
      forall m | m in xs + ys ensures Cleared(m, f) {
        if m in ys {
          BatchClears(e, ys, m);
        } else {
          UnlistedWaits(e, ms, ys, m, f);
          StaysCleared(m, e, f);
        }
      }
    }
  }

  /** Also a batch that stops after its save, with any part of its deletes done, settles its records. */
  lemma NextBatchCutShort(d: DB, ms: seq<Rec>, xs: seq<Rec>, e: DB, ys: seq<Rec>, gone: set<string>)
    requires Consistent(ms) && (forall x | x in xs + ys :: x in ms) && Settled(ms, d, xs, e)
    requires forall k | k in gone :: k in BatchDeletes(e, ys)
    ensures Settled(ms, d, xs + ys, SaveBatch(e, ys) - gone)
  {
    SomeConsistent(ms, ys);
    BatchSettles(ms, e, ys, gone);
    Compose(d, ms, xs, e, ys, SaveBatch(e, ys) - gone);
  }

  lemma StaysCleared(m: Rec, e: DB, f: DB)
    requires Cleared(m, e) && Leftover(e, m, f)
    ensures Cleared(m, f)
  {
    forall k | IsOldKey(m, k) ensures k !in f {
      assert k in f ==> SameAt(e, f, k);
    }
  }

  // ---- What becomes of one key -------------------------------------------------------------------

  ghost predicate Deletes(ys: seq<Rec>, k: string) {
    exists m | m in ys :: IsOldKey(m, k)
  }

  /** None of the first `n` batches deleted the key. */
  ghost predicate Alive(ms: seq<Rec>, outcomes: seq<Outcome>, n: nat, k: string) {
    n == 0 || (Alive(ms, outcomes, n - 1, k) && !DeletesAt(ms, outcomes, n - 1, k))
  }

  ghost predicate DeletesAt(ms: seq<Rec>, outcomes: seq<Outcome>, i: nat, k: string) {
    At(outcomes, i) == Fine && Deletes(Batch(ms, i), k)
  }

  lemma {:induction false} AliveMeans(ms: seq<Rec>, outcomes: seq<Outcome>, n: nat, k: string)
    ensures Alive(ms, outcomes, n, k) <==> forall i: nat | i < n :: !DeletesAt(ms, outcomes, i, k)
  {
    if n == 0 {
    } else {
      AliveMeans(ms, outcomes, n - 1, k);
    }
  }

  /** What was at a key is still there if it is alive, and gone otherwise. */
  predicate KeyIs(d: DB, k: string, e: DB, alive: bool) {
    (k in e <==> k in d && alive) && (k in e ==> SameAt(d, e, k))
  }

  lemma OldKeyAfterBatch(e: DB, ys: seq<Rec>, outcome: Outcome, k: string)
    requires Consistent(ys) && outcome != SaveFails && forall m | m in ys :: !IsNewKey(m, k)
    ensures KeyIs(e, k, RunBatch(e, ys, outcome), !(outcome == Fine && Deletes(ys, k)))
  {
    BatchSaved(e, ys);
    assert SameAt(e, SaveBatch(e, ys), k);
    BatchDeleted(e, ys, k);
    forall m | m in ys ensures k in e ==> (k in RecordDeletes(e, m) <==> IsOldKey(m, k)) {
      DeletesAreOld(e, m, k);
    }
  }

  /** An old key is there after some batches exactly when it was there and none of them deleted it. */
  lemma {:induction false} OldKeyAfter(d: DB, ms: seq<Rec>, outcomes: seq<Outcome>, n: nat, k: string)
    requires Consistent(ms) && AllSaved(outcomes, n) && forall m | m in ms :: !IsNewKey(m, k)
    ensures KeyIs(d, k, RunBatches(d, ms, outcomes, n), Alive(ms, outcomes, n, k))
  {
    if n == 0 {
    } else {
      OldKeyAfter(d, ms, outcomes, n - 1, k);
      OldKeyNext(d, ms, outcomes, n - 1, k, RunBatches(d, ms, outcomes, n - 1));
    }
  }

  lemma OldKeyNext(d: DB, ms: seq<Rec>, outcomes: seq<Outcome>, n: nat, k: string, e: DB)
    requires Consistent(ms) && At(outcomes, n) != SaveFails && forall m | m in ms :: !IsNewKey(m, k)
    requires KeyIs(d, k, e, Alive(ms, outcomes, n, k))
    ensures KeyIs(d, k, RunBatch(e, Batch(ms, n), At(outcomes, n)), Alive(ms, outcomes, n + 1, k))
  {
    SomeConsistent(ms, Batch(ms, n));
    OldKeyAfterBatch(e, Batch(ms, n), At(outcomes, n), k);
  }

  ghost predicate Writes(ys: seq<Rec>, s: string, t: string) {
    exists m | m in ys :: m.oldSecret == s && m.secret == t
  }

  /** One of the first `n` batches copied the secret at `s` to `t`, before `s` was deleted. */
  ghost predicate Copied(ms: seq<Rec>, outcomes: seq<Outcome>, n: nat, s: string, t: string) {
    n > 0 && (Copied(ms, outcomes, n - 1, s, t) || CopiesAt(ms, outcomes, n - 1, s, t))
  }

  ghost predicate CopiesAt(ms: seq<Rec>, outcomes: seq<Outcome>, i: nat, s: string, t: string) {
    Alive(ms, outcomes, i, s) && Writes(Batch(ms, i), s, t)
  }

  lemma {:induction false} CopiedMeans(ms: seq<Rec>, outcomes: seq<Outcome>, n: nat, s: string, t: string)
    ensures Copied(ms, outcomes, n, s, t) <==> exists i: nat | i < n :: CopiesAt(ms, outcomes, i, s, t)
  {
    if n == 0 {
    } else {
      CopiedMeans(ms, outcomes, n - 1, s, t);
    }
  }

  lemma SecretAfterBatch(e: DB, ys: seq<Rec>, outcome: Outcome, s: string, t: string)
    requires Consistent(ys) && outcome != SaveFails
    requires forall m | m in ys && Touches(m, t) :: IsNewKey(m, t) && m.secret == t && m.oldSecret == s
    ensures CopiedIf(Writes(ys, s, t), e, s, RunBatch(e, ys, outcome), t)
  {
    var f := RunBatch(e, ys, outcome);
    BatchSaved(e, ys);
    if m :| m in ys && m.oldSecret == s && m.secret == t {
      BatchSettles(ys, e, ys, if outcome == Fine then Elements(BatchDeletes(e, ys)) else {});
      assert f == SaveBatch(e, ys) - (if outcome == Fine then Elements(BatchDeletes(e, ys)) else {});
      assert SecretCarried(e, m, f);
    } else {
      BatchDeleted(e, ys, t);
      forall m | m in ys ensures !IsNewKey(m, t) && t !in RecordDeletes(e, m) {
        DeletesAreOld(e, m, t);
      }
      assert SameAt(e, SaveBatch(e, ys), t);
      assert !Writes(ys, s, t);
    }
  }

  /** Who touches the new secret key of a record. */
  lemma SecretToucher(ms: seq<Rec>, m: Rec, n: Rec)
    requires Consistent(ms) && m in ms && n in ms && Touches(n, m.secret)
    ensures IsNewKey(n, m.secret) && n.secret == m.secret && n.oldSecret == m.oldSecret
  {
    assert Sound(m) && IsNewKey(m, m.secret) && IsOldKey(m, m.oldSecret);
    OneToucher(ms, m, n, m.secret);
  }

  lemma OldIsNotNew(ms: seq<Rec>, m: Rec, k: string)
    requires Consistent(ms) && m in ms && IsOldKey(m, k)
    ensures forall x | x in ms :: !IsNewKey(x, k)
  {
    forall x | x in ms ensures !IsNewKey(x, k) {
      if IsNewKey(x, k) {
        NewIsNotOld(ms, x, m, k);
      }
    }
  }

  /** The value of `s` in `d`, if it was copied, is at `t` in `e`; otherwise `t` is as in `d`. */
  predicate CopiedIf(copied: bool, d: DB, s: string, e: DB, t: string) {
    if s in d && copied then t in e && e[t] == d[s] else SameAt(d, e, t)
  }

  lemma CopiedNext(d: DB, e: DB, f: DB, s: string, t: string, copied: bool, alive: bool, writes: bool)
    requires KeyIs(d, s, e, alive)
    requires CopiedIf(copied, d, s, e, t) && CopiedIf(writes, e, s, f, t)
    ensures CopiedIf(copied || (alive && writes), d, s, f, t)
  {
  }

  /** A new secret key holds the old one's value if some batch copied it, and is as it was if none did. */
  lemma {:induction false} SecretAfter(d: DB, ms: seq<Rec>, outcomes: seq<Outcome>, n: nat, m: Rec, f: DB)
    requires Consistent(ms) && AllSaved(outcomes, n) && m in ms && f == RunBatches(d, ms, outcomes, n)
    ensures CopiedIf(Copied(ms, outcomes, n, m.oldSecret, m.secret), d, m.oldSecret, f, m.secret)
  {
    if n == 0 {
    } else {
      var e := RunBatches(d, ms, outcomes, n - 1);
      SecretAfter(d, ms, outcomes, n - 1, m, e);
      OldSecretAfter(d, ms, outcomes, n - 1, m);
      SecretNext(d, ms, outcomes, n, m, e, f);
    }
  }

  lemma OldSecretAfter(d: DB, ms: seq<Rec>, outcomes: seq<Outcome>, n: nat, m: Rec)
    requires Consistent(ms) && AllSaved(outcomes, n) && m in ms
    ensures KeyIs(d, m.oldSecret, RunBatches(d, ms, outcomes, n), Alive(ms, outcomes, n, m.oldSecret))
  {
    OldIsNotNew(ms, m, m.oldSecret);
    OldKeyAfter(d, ms, outcomes, n, m.oldSecret);
  }

  lemma SecretNext(d: DB, ms: seq<Rec>, outcomes: seq<Outcome>, n: nat, m: Rec, e: DB, f: DB)
    requires n > 0 && Consistent(ms) && At(outcomes, n - 1) != SaveFails && m in ms
    requires f == RunBatch(e, Batch(ms, n - 1), At(outcomes, n - 1))
    requires KeyIs(d, m.oldSecret, e, Alive(ms, outcomes, n - 1, m.oldSecret))
    requires CopiedIf(Copied(ms, outcomes, n - 1, m.oldSecret, m.secret), d, m.oldSecret, e, m.secret)
    ensures CopiedIf(Copied(ms, outcomes, n, m.oldSecret, m.secret), d, m.oldSecret, f, m.secret)
  {
    var s, t, ys := m.oldSecret, m.secret, Batch(ms, n - 1);
    SecretBatch(e, ms, ys, At(outcomes, n - 1), m);
    CopiedNext(d, e, f, s, t, Copied(ms, outcomes, n - 1, s, t), Alive(ms, outcomes, n - 1, s), Writes(ys, s, t));
  }

  lemma SecretBatch(e: DB, ms: seq<Rec>, ys: seq<Rec>, outcome: Outcome, m: Rec)
    requires Consistent(ms) && (forall y | y in ys :: y in ms) && m in ms && outcome != SaveFails
    ensures CopiedIf(Writes(ys, m.oldSecret, m.secret), e, m.oldSecret, RunBatch(e, ys, outcome), m.secret)
  {
    SomeConsistent(ms, ys);
    forall x | x in ys && Touches(x, m.secret)
      ensures IsNewKey(x, m.secret) && x.secret == m.secret && x.oldSecret == m.oldSecret
    {
      SecretToucher(ms, m, x);
    }
    SecretAfterBatch(e, ys, outcome, m.oldSecret, m.secret);
  }

  /** The old secret is copied in time, or the new key holds its value already. */
  ghost predicate SecretSurvives(d: DB, ms: seq<Rec>, outcomes: seq<Outcome>, n: nat, m: Rec) {
    m.oldSecret in d ==>
      || Copied(ms, outcomes, n, m.oldSecret, m.secret)
      || (m.secret in d && d[m.secret] == d[m.oldSecret])
  }

  lemma SecretSurvivesIff(d: DB, ms: seq<Rec>, outcomes: seq<Outcome>, n: nat, m: Rec)
    requires Consistent(ms) && AllSaved(outcomes, n) && m in ms
    ensures SecretCarried(d, m, RunBatches(d, ms, outcomes, n)) <==> SecretSurvives(d, ms, outcomes, n, m)
  {
    SecretAfter(d, ms, outcomes, n, m, RunBatches(d, ms, outcomes, n));
  }

  /** All old keys that were there were deleted by some batch. */
  ghost predicate AllDeleted(d: DB, ms: seq<Rec>, outcomes: seq<Outcome>, n: nat) {
    forall m, k | m in ms && IsOldKey(m, k) && k in d :: exists i: nat | i < n :: DeletesAt(ms, outcomes, i, k)
  }

  lemma ClearedIff(d: DB, ms: seq<Rec>, outcomes: seq<Outcome>, n: nat)
    requires Consistent(ms) && AllSaved(outcomes, n)
    ensures (forall m | m in ms :: Cleared(m, RunBatches(d, ms, outcomes, n))) <==> AllDeleted(d, ms, outcomes, n)
  {
    var e := RunBatches(d, ms, outcomes, n);
    forall m, k | m in ms && IsOldKey(m, k) ensures k in e <==> k in d && Alive(ms, outcomes, n, k) {
      OldIsNotNew(ms, m, k);
      OldKeyAfter(d, ms, outcomes, n, k);
    }
    forall k ensures Alive(ms, outcomes, n, k) <==> forall i: nat | i < n :: !DeletesAt(ms, outcomes, i, k) {
      AliveMeans(ms, outcomes, n, k);
    }
  }

  /**
    What a run that answers true has done. Every record is saved, whether or not old keys could be
    deleted; the upgrade is complete exactly when each old key was deleted by some batch, and each old
    secret was copied to the new key of every record that has it before a batch deleted it.
   */
  lemma WhenUpgraded(d: DB, ms: seq<Rec>, outcomes: seq<Outcome>, batches: nat)
    requires Consistent(ms) && Stops(|ms|, outcomes, batches, true)
    ensures var e := RunBatches(d, ms, outcomes, batches);
      && Settled(ms, d, ms, e)
      && (AllFine(outcomes, batches) ==> IsMoved(ms, d, ms, e))
      && (IsUpgrade(d, ms, e) <==>
            AllDeleted(d, ms, outcomes, batches) && forall m | m in ms :: SecretSurvives(d, ms, outcomes, batches, m))
  {
    BatchesUpgrade(d, ms, outcomes, batches);
    assert ms[..Edge(|ms|, batches)] == ms;
    ClearedIff(d, ms, outcomes, batches);
    forall m | m in ms
      ensures SecretCarried(d, m, RunBatches(d, ms, outcomes, batches)) <==> SecretSurvives(d, ms, outcomes, batches, m)
    {
      SecretSurvivesIff(d, ms, outcomes, batches, m);
    }
  }

  /** `batches` batches of `n` records were saved, and either that was all of them or the next one failed. */
  predicate Stops(n: nat, outcomes: seq<Outcome>, batches: nat, ok: bool) {
    && AllSaved(outcomes, batches)
    && (if ok then Edge(n, batches) == n else Edge(n, batches) < n && At(outcomes, batches) == SaveFails)
  }

  // ---- Secrets that are lost ---------------------------------------------------------------------

  /** The first batch that holds the old secret key `s` also holds a record with the new key `t`. */
  ghost predicate InFirstBatch(ms: seq<Rec>, batches: nat, s: string, t: string) {
    exists i: nat | i < batches :: Writes(Batch(ms, i), s, t) && IsFirst(ms, i, s)
  }

  ghost predicate IsFirst(ms: seq<Rec>, i: nat, s: string) {
    forall h: nat | h < i :: !Deletes(Batch(ms, h), s)
  }

  lemma {:induction false} FineAt(outcomes: seq<Outcome>, n: nat, i: nat)
    requires AllFine(outcomes, n) && i < n
    ensures At(outcomes, i) == Fine
  {
    if i == n - 1 {
    } else {
      FineAt(outcomes, n - 1, i);
    }
  }

  lemma {:induction false} FineIsSaved(outcomes: seq<Outcome>, n: nat)
    requires AllFine(outcomes, n)
    ensures AllSaved(outcomes, n)
  {
    if n == 0 {
    } else {
      FineIsSaved(outcomes, n - 1);
    }
  }

  /** When every batch deletes its old keys, a key is alive until the first batch that holds it. */
  lemma AliveIsFirst(ms: seq<Rec>, outcomes: seq<Outcome>, n: nat, i: nat, k: string)
    requires AllFine(outcomes, n) && i <= n
    ensures Alive(ms, outcomes, i, k) <==> IsFirst(ms, i, k)
  {
    AliveMeans(ms, outcomes, i, k);
    forall h: nat | h < i ensures DeletesAt(ms, outcomes, h, k) <==> Deletes(Batch(ms, h), k) {
      FineAt(outcomes, n, h);
    }
  }

  lemma CopiedIsFirst(ms: seq<Rec>, outcomes: seq<Outcome>, n: nat, s: string, t: string)
    requires AllFine(outcomes, n)
    ensures Copied(ms, outcomes, n, s, t) <==> InFirstBatch(ms, n, s, t)
  {
    CopiedMeans(ms, outcomes, n, s, t);
    forall i: nat | i < n ensures CopiesAt(ms, outcomes, i, s, t) <==> Writes(Batch(ms, i), s, t) && IsFirst(ms, i, s) {
      AliveIsFirst(ms, outcomes, n, i, s);
    }
  }

  /** Each old secret is in the first batch with every new key it has, or at that new key already. */
  ghost predicate SharersTogether(d: DB, ms: seq<Rec>, batches: nat) {
    forall m | m in ms && m.oldSecret in d ::
      InFirstBatch(ms, batches, m.oldSecret, m.secret) || (m.secret in d && d[m.secret] == d[m.oldSecret])
  }

  /**
    After batches that are all saved and deleted, the upgrade is complete exactly when, for every record,
    the first batch that holds its old secret key also holds a record with its new one, or the new key
    has the value already.
   */
  lemma SecretsSurviveIff(d: DB, ms: seq<Rec>, outcomes: seq<Outcome>, batches: nat)
    requires Consistent(ms) && AllFine(outcomes, batches) && Stops(|ms|, outcomes, batches, true)
    ensures IsUpgrade(d, ms, RunBatches(d, ms, outcomes, batches)) <==> SharersTogether(d, ms, batches)
  {
    WhenUpgraded(d, ms, outcomes, batches);
    forall m | m in ms
      ensures SecretCarried(d, m, RunBatches(d, ms, outcomes, batches)) <==> SecretSurvives(d, ms, outcomes, batches, m)
      ensures Copied(ms, outcomes, batches, m.oldSecret, m.secret) <==> InFirstBatch(ms, batches, m.oldSecret, m.secret)
    {
      SecretSurvivesIff(d, ms, outcomes, batches, m);
      CopiedIsFirst(ms, outcomes, batches, m.oldSecret, m.secret);
    }
  }

  /** Otherwise a secret is lost: after the batch of its record neither key has it. */
  lemma SecretIsLostIff(d: DB, ms: seq<Rec>, outcomes: seq<Outcome>, batches: nat, j: nat, m: Rec)
    requires Consistent(ms) && AllFine(outcomes, batches) && j < batches && m in Batch(ms, j)
    requires m.oldSecret in d && m.secret !in d
    ensures var e := RunBatches(d, ms, outcomes, batches);
      m.oldSecret !in e && (m.secret !in e <==> !InFirstBatch(ms, batches, m.oldSecret, m.secret))
  {
    FineIsSaved(outcomes, batches);
    OldSecretAfter(d, ms, outcomes, batches, m);
    AliveIsFirst(ms, outcomes, batches, batches, m.oldSecret);
    assert IsOldKey(m, m.oldSecret) && Deletes(Batch(ms, j), m.oldSecret);
    SecretAfter(d, ms, outcomes, batches, m, RunBatches(d, ms, outcomes, batches));
    CopiedIsFirst(ms, outcomes, batches, m.oldSecret, m.secret);
  }

  // ---- Old keys that stay ------------------------------------------------------------------------

  /** One record whose delete fails: the run answers true, and every old key is still there. */
  lemma FailedDeleteStays(d: DB, m: Rec, k: string)
    requires Sound(m) && IsOldKey(m, k) && k in d
    ensures var e := RunBatches(d, [m], [DeleteFails], 1);
      Stops(1, [DeleteFails], 1, true) && k in e && Settled([m], d, [m], e) && !IsUpgrade(d, [m], e)
  {
    assert AllSaved([DeleteFails], 0) && At([DeleteFails], 0) == DeleteFails && AllSaved([DeleteFails], 1);
    assert Edge(1, 0) == 0 && Edge(1, 1) == 1;
    OldIsNotNew([m], m, k);
    OldKeyAfter(d, [m], [DeleteFails], 1, k);
    WhenUpgraded(d, [m], [DeleteFails], 1);
    assert m in [m] && forall i: nat | i < 1 :: !DeletesAt([m], [DeleteFails], i, k);
    AliveMeans([m], [DeleteFails], 1, k);
  }
}
