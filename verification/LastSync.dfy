/**
  The "last sync" records of service/cloud/sync_manager: a sync in progress has a record in memory,
  a finished one in the persistent metadata. Both together are a digest of the log of starts and
  finishes, which is the reference they are proved against.
 */
module LastSync {
  import opened Wrappers

  const EXPIRATION_TIME := 6 * 60 * 60 * 1000
  const INVALID_SYNC_CODE := -1
  const E_OK := 0
  const E_ERROR := 1
  const E_BUSY := 9
  const RUNNING := 0
  const FINISHED := 1

  datatype QueryKey = QueryKey(user: int, accountId: string, bundleName: string, storeId: string)

  /** The persistent record's key leaves the account out. */
  datatype MetaKey = MetaKey(user: int, bundleName: string, storeId: string)

  datatype Info = Info(id: string, storeId: string, startTime: int, finishTime: int, code: int, syncStatus: int)

  type SyncId = nat

  datatype Records = Records(live: map<QueryKey, map<SyncId, Info>>, meta: map<MetaKey, Info>)

  function MetaOf(key: QueryKey): MetaKey {
    MetaKey(key.user, key.bundleName, key.storeId)
  }

  predicate NeedSave(kvApps: set<string>, key: QueryKey) {
    key.accountId != "" && key.bundleName !in kvApps
  }

  function ConvertValidGeneralCode(code: int): (r: int)
    ensures E_OK <= r < E_BUSY
    ensures r == code || (r == E_ERROR && !(E_OK <= code < E_BUSY))
  {
    if E_OK <= code < E_BUSY then code else E_ERROR
  }

  predicate IsLive(st: Records, key: QueryKey, id: SyncId) {
    key in st.live && id in st.live[key]
  }

  function StartInfo(key: QueryKey, now: int): Info {
    Info(key.accountId, key.storeId, now, 0, 0, RUNNING)
  }

  function FinishInfo(info: Info, code: int, now: int): Info {
    info.(finishTime := now, code := ConvertValidGeneralCode(code), syncStatus := FINISHED)
  }

  function StartSync(kvApps: set<string>, st: Records, key: QueryKey, id: SyncId, now: int): Records {
    if !NeedSave(kvApps, key) then st
    else
      var val := if key in st.live then st.live[key] else map[];
      st.(live := st.live[key := val[id := StartInfo(key, now)]])
  }

  predicate Survives(id: SyncId, info: Info, syncId: SyncId, now: int) {
    id != syncId && now - info.startTime < EXPIRATION_TIME
  }

  function Survivors(val: map<SyncId, Info>, syncId: SyncId, now: int): map<SyncId, Info> {
    map id: SyncId | id in val && Survives(id, val[id], syncId, now) :: val[id]
  }

  /** `saved` says whether the metadata took the record; memory forgets it either way. */
  function FinishSync(kvApps: set<string>, st: Records, key: QueryKey, syncId: SyncId, code: int, now: int, saved: bool)
    : Records
  {
    if !NeedSave(kvApps, key) || key !in st.live then st
    else
      var val := st.live[key];
      Records(st.live[key := Survivors(val, syncId, now)],
              if syncId in val && saved then st.meta[MetaOf(key) := FinishInfo(val[syncId], code, now)] else st.meta)
  }

  function FromMeta(st: Records, key: QueryKey): Option<Info> {
    if MetaOf(key) !in st.meta then None
    else
      var info := st.meta[MetaOf(key)];
      if key.accountId != info.id || (key.storeId != "" && key.storeId != info.storeId) then None else Some(info)
  }

  // ---- The log ----------------------------------------------------------------------------------

  datatype Event =
    | Started(key: QueryKey, id: SyncId, at: int)
    | Finished(key: QueryKey, id: SyncId, code: int, at: int, saved: bool)

  function Replay(kvApps: set<string>, log: seq<Event>): Records {
    if log == [] then Records(map[], map[])
    else
      var st := Replay(kvApps, log[..|log| - 1]);
      match log[|log| - 1]
      case Started(key, id, at) => StartSync(kvApps, st, key, id, at)
      case Finished(key, id, code, at, saved) => FinishSync(kvApps, st, key, id, code, at, saved)
  }

  /** What ends the record of a sync of `key` that started at `at`: a restart, a finish, or expiry at another's finish. */
  predicate Ends(e: Event, key: QueryKey, id: SyncId, at: int) {
    && e.key == key
    && (e.id == id || (e.Finished? && e.at - at >= EXPIRATION_TIME))
  }

  /** The start at log[i] of sync `id` is unfinished and unexpired after the first n events. */
  predicate LiveSince(kvApps: set<string>, log: seq<Event>, n: nat, key: QueryKey, id: SyncId, i: nat) {
    && i < n <= |log|
    && NeedSave(kvApps, key)
    && log[i].Started? && log[i].key == key && log[i].id == id
    && forall j | i < j < n :: !Ends(log[j], key, id, log[i].at)
  }

  /** The finish at log[j] is saved as the record of `mk`: it finishes a live record, begun at log[i]. */
  predicate Saves(kvApps: set<string>, log: seq<Event>, j: nat, mk: MetaKey, i: nat) {
    && j < |log|
    && log[j].Finished? && log[j].saved && MetaOf(log[j].key) == mk
    && LiveSince(kvApps, log, j, log[j].key, log[j].id, i)
  }

  ghost predicate IsLastSave(kvApps: set<string>, log: seq<Event>, mk: MetaKey, j: nat, i: nat) {
    && Saves(kvApps, log, j, mk, i)
    && forall j': nat, i': nat | j < j' < |log| :: !Saves(kvApps, log, j', mk, i')
  }

  function SavedInfo(log: seq<Event>, j: nat, i: nat): Info
    requires i < |log| && j < |log| && log[j].Finished?
  {
    FinishInfo(StartInfo(log[j].key, log[i].at), log[j].code, log[j].at)
  }

  /** The records are the log's unfinished, unexpired starts. */
  ghost predicate LiveIsLog(kvApps: set<string>, log: seq<Event>, st: Records) {
    && (forall key, id, i: nat | LiveSince(kvApps, log, |log|, key, id, i) ::
          IsLive(st, key, id) && st.live[key][id] == StartInfo(key, log[i].at))
    && (forall key, id | IsLive(st, key, id) :: exists i: nat :: LiveSince(kvApps, log, |log|, key, id, i))
  }

  ghost predicate MetaIsLog(kvApps: set<string>, log: seq<Event>, st: Records) {
    && (forall mk, j: nat, i: nat | IsLastSave(kvApps, log, mk, j, i) ::
          mk in st.meta && st.meta[mk] == SavedInfo(log, j, i))
    && (forall mk | mk in st.meta :: exists j: nat, i: nat :: IsLastSave(kvApps, log, mk, j, i))
  }

  lemma LiveSinceGrows(kvApps: set<string>, log: seq<Event>, e: Event, key: QueryKey, id: SyncId, i: nat)
    ensures var log' := log + [e];
      LiveSince(kvApps, log', |log'|, key, id, i) <==>
        if i == |log| then NeedSave(kvApps, key) && e.Started? && e.key == key && e.id == id
        else LiveSince(kvApps, log, |log|, key, id, i) && !Ends(e, key, id, log[i].at)
  {
    var log' := log + [e];
    assert log'[|log|] == e;
    if i < |log| && LiveSince(kvApps, log', |log'|, key, id, i) {
      assert forall j | i < j < |log| :: log'[j] == log[j];
      assert !Ends(log'[|log|], key, id, log'[i].at);
    }
  }

  lemma LiveStep(kvApps: set<string>, log: seq<Event>, e: Event, st: Records, st': Records)
    requires LiveIsLog(kvApps, log, st)
    requires st' == match e
      case Started(key, id, at) => StartSync(kvApps, st, key, id, at)
      case Finished(key, id, code, at, saved) => FinishSync(kvApps, st, key, id, code, at, saved)
    ensures LiveIsLog(kvApps, log + [e], st')
  {
    var log' := log + [e];
    forall key, id, i: nat | LiveSince(kvApps, log', |log'|, key, id, i)
      ensures IsLive(st', key, id) && st'.live[key][id] == StartInfo(key, log'[i].at)
    {
      LiveSinceGrows(kvApps, log, e, key, id, i);
    }
    forall key, id | IsLive(st', key, id) ensures exists i: nat :: LiveSince(kvApps, log', |log'|, key, id, i) {
      if e.Started? && NeedSave(kvApps, e.key) && e.key == key && e.id == id {
        LiveSinceGrows(kvApps, log, e, key, id, |log|);
      } else {
        assert IsLive(st, key, id);
        var i: nat :| LiveSince(kvApps, log, |log|, key, id, i);
        LiveSinceGrows(kvApps, log, e, key, id, i);
        assert LiveSince(kvApps, log', |log'|, key, id, i);
      }
    }
  }

  lemma SavesGrows(kvApps: set<string>, log: seq<Event>, e: Event, j: nat, mk: MetaKey, i: nat)
    ensures j < |log| ==> (Saves(kvApps, log + [e], j, mk, i) <==> Saves(kvApps, log, j, mk, i))
    ensures Saves(kvApps, log + [e], |log|, mk, i) <==>
      e.Finished? && e.saved && MetaOf(e.key) == mk && LiveSince(kvApps, log, |log|, e.key, e.id, i)
  {
    var log' := log + [e];
    assert forall k | 0 <= k < |log| :: log'[k] == log[k];
  }

  lemma MetaStep(kvApps: set<string>, log: seq<Event>, e: Event, st: Records, st': Records)
    requires LiveIsLog(kvApps, log, st) && MetaIsLog(kvApps, log, st)
    requires st' == match e
      case Started(key, id, at) => StartSync(kvApps, st, key, id, at)
      case Finished(key, id, code, at, saved) => FinishSync(kvApps, st, key, id, code, at, saved)
    ensures MetaIsLog(kvApps, log + [e], st')
  {
    var log' := log + [e];
    forall j: nat, mk, i: nat ensures
      && (j < |log| ==> (Saves(kvApps, log', j, mk, i) <==> Saves(kvApps, log, j, mk, i)))
      && (Saves(kvApps, log', |log|, mk, i) <==>
            e.Finished? && e.saved && MetaOf(e.key) == mk && LiveSince(kvApps, log, |log|, e.key, e.id, i))
    {
      SavesGrows(kvApps, log, e, j, mk, i);
    }
    if e.Finished? && e.saved && IsLive(st, e.key, e.id) {
      var i: nat :| LiveSince(kvApps, log, |log|, e.key, e.id, i);
      MetaStepSaved(kvApps, log, e, st, st', i);
    } else {
      assert st'.meta == st.meta;
      MetaStepSame(kvApps, log, e, st, st');
    }
  }

  /** The finish of a live record becomes the last save of its key and of no other. */
  lemma MetaStepSaved(kvApps: set<string>, log: seq<Event>, e: Event, st: Records, st': Records, i: nat)
    requires LiveIsLog(kvApps, log, st) && MetaIsLog(kvApps, log, st)
    requires e.Finished? && e.saved && LiveSince(kvApps, log, |log|, e.key, e.id, i)
    requires st' == FinishSync(kvApps, st, e.key, e.id, e.code, e.at, e.saved)
    ensures MetaIsLog(kvApps, log + [e], st')
  {
    var log', mk0 := log + [e], MetaOf(e.key);
    SavesGrows(kvApps, log, e, |log|, mk0, i);
    assert IsLastSave(kvApps, log', mk0, |log|, i);
    assert st'.meta == st.meta[mk0 := SavedInfo(log', |log|, i)];
    forall mk, j: nat, k: nat | IsLastSave(kvApps, log', mk, j, k)
      ensures mk in st'.meta && st'.meta[mk] == SavedInfo(log', j, k)
    {
      SavesGrows(kvApps, log, e, j, mk, k);
      if mk == mk0 {
        assert j == |log|;
      } else {
        LastSaveShrinks(kvApps, log, e, mk, j, k);
      }
    }
    forall mk | mk in st'.meta && mk != mk0 ensures exists j: nat, k: nat :: IsLastSave(kvApps, log', mk, j, k) {
      var j: nat, k: nat :| IsLastSave(kvApps, log, mk, j, k);
      LastSaveStays(kvApps, log, e, mk, j, k);
    }
  }

  lemma MetaStepSame(kvApps: set<string>, log: seq<Event>, e: Event, st: Records, st': Records)
    requires MetaIsLog(kvApps, log, st) && st'.meta == st.meta
    requires forall mk, i: nat :: !Saves(kvApps, log + [e], |log|, mk, i)
    ensures MetaIsLog(kvApps, log + [e], st')
  {
    forall mk, j: nat, i: nat | IsLastSave(kvApps, log + [e], mk, j, i)
      ensures mk in st'.meta && st'.meta[mk] == SavedInfo(log + [e], j, i)
    {
      LastSaveShrinks(kvApps, log, e, mk, j, i);
    }
    forall mk | mk in st'.meta ensures exists j: nat, i: nat :: IsLastSave(kvApps, log + [e], mk, j, i) {
      var j: nat, i: nat :| IsLastSave(kvApps, log, mk, j, i);
      LastSaveStays(kvApps, log, e, mk, j, i);
    }
  }

  lemma LastSaveShrinks(kvApps: set<string>, log: seq<Event>, e: Event, mk: MetaKey, j: nat, i: nat)
    requires IsLastSave(kvApps, log + [e], mk, j, i) && j < |log|
    ensures IsLastSave(kvApps, log, mk, j, i) && SavedInfo(log + [e], j, i) == SavedInfo(log, j, i)
  {
    SavesGrows(kvApps, log, e, j, mk, i);
    forall j': nat, i': nat | j < j' < |log| ensures !Saves(kvApps, log, j', mk, i') {
      SavesGrows(kvApps, log, e, j', mk, i');
    }
  }

  lemma LastSaveStays(kvApps: set<string>, log: seq<Event>, e: Event, mk: MetaKey, j: nat, i: nat)
    requires IsLastSave(kvApps, log, mk, j, i)
    requires forall i': nat :: !Saves(kvApps, log + [e], |log|, mk, i')
    ensures IsLastSave(kvApps, log + [e], mk, j, i)
  {
    SavesGrows(kvApps, log, e, j, mk, i);
    forall j': nat, i': nat | j < j' < |log| + 1 ensures !Saves(kvApps, log + [e], j', mk, i') {
      SavesGrows(kvApps, log, e, j', mk, i');
    }
  }

  /** After any log, memory and metadata together say just what the log says. */
  lemma {:induction false} RecordsAreLog(kvApps: set<string>, log: seq<Event>)
    ensures LiveIsLog(kvApps, log, Replay(kvApps, log)) && MetaIsLog(kvApps, log, Replay(kvApps, log))
  {
    if log == [] {
    } else {
      var before, e := log[..|log| - 1], log[|log| - 1];
      assert log == before + [e];
      RecordsAreLog(kvApps, before);
      LiveStep(kvApps, before, e, Replay(kvApps, before), Replay(kvApps, log));
      MetaStep(kvApps, before, e, Replay(kvApps, before), Replay(kvApps, log));
    }
  }

  /** Finishing a sync again without starting it again saves nothing. */
  lemma SecondFinishSavesNothing(kvApps: set<string>, log: seq<Event>, j: nat, j': nat, mk: MetaKey, i: nat)
    requires j < j' < |log| && log[j].Finished? && log[j'].Finished?
    requires log[j].key == log[j'].key && log[j].id == log[j'].id
    requires forall k | j < k < j' :: !(log[k].Started? && log[k].key == log[j].key && log[k].id == log[j].id)
    ensures !Saves(kvApps, log, j', mk, i)
  {
    if Saves(kvApps, log, j', mk, i) && i < j {
      assert Ends(log[j], log[j].key, log[j].id, log[i].at);
    }
  }

  // ---- Queries ----------------------------------------------------------------------------------

  lemma GreatestExists(ids: set<SyncId>)
    requires ids != {}
    ensures exists m :: m in ids && forall id | id in ids :: id <= m
  {
    var m :| m in ids;
    if id :| id in ids && m < id {
      assert id in ids - {m};
      GreatestExists(ids - {m});
      var g :| g in ids - {m} && forall x | x in ids - {m} :: x <= g;
      forall x | x in ids ensures x <= g {
        assert x == m || x in ids - {m};
      }
    }
  }

  ghost function Greatest(ids: set<SyncId>): (m: SyncId)
    requires ids != {}
    ensures m in ids && forall id | id in ids :: id <= m
  {
    GreatestExists(ids);
    var m: SyncId :| m in ids && forall id | id in ids :: id <= m;
    m
  }

  /** The live record with the greatest id, else what the metadata has for the account. */
  ghost function Answer(st: Records, key: QueryKey): Option<Info> {
    if key in st.live && st.live[key] != map[] && st.live[key][Greatest(st.live[key].Keys)].code != INVALID_SYNC_CODE
    then Some(st.live[key][Greatest(st.live[key].Keys)])
    else FromMeta(st, key)
  }

  ghost predicate HasLive(kvApps: set<string>, log: seq<Event>, key: QueryKey) {
    exists id, i: nat :: LiveSince(kvApps, log, |log|, key, id, i)
  }

  ghost predicate GreatestLive(kvApps: set<string>, log: seq<Event>, key: QueryKey, id: SyncId, i: nat) {
    && LiveSince(kvApps, log, |log|, key, id, i)
    && forall id': SyncId, i': nat | LiveSince(kvApps, log, |log|, key, id', i') :: id' <= id
  }

  /** What a query answers, in terms of the log alone. */
  lemma AnswerIsLog(kvApps: set<string>, log: seq<Event>, key: QueryKey)
    ensures var r := Answer(Replay(kvApps, log), key);
      if HasLive(kvApps, log, key) then
        exists id, i: nat :: GreatestLive(kvApps, log, key, id, i) && r == Some(StartInfo(key, log[i].at))
      else if r.Some? then
        exists j: nat, i: nat :: IsLastSave(kvApps, log, MetaOf(key), j, i)
          && log[j].key.accountId == key.accountId && r == Some(SavedInfo(log, j, i))
      else
        forall j: nat, i: nat | IsLastSave(kvApps, log, MetaOf(key), j, i) :: log[j].key.accountId != key.accountId
  {
    var st := Replay(kvApps, log);
    RecordsAreLog(kvApps, log);
    if HasLive(kvApps, log, key) {
      var id, i: nat :| LiveSince(kvApps, log, |log|, key, id, i);
      assert IsLive(st, key, id);
      var m := Greatest(st.live[key].Keys);
      assert IsLive(st, key, m);
      var k: nat :| LiveSince(kvApps, log, |log|, key, m, k);
      forall id': SyncId, i': nat | LiveSince(kvApps, log, |log|, key, id', i') ensures id' <= m {
        assert IsLive(st, key, id');
      }
      assert GreatestLive(kvApps, log, key, m, k);
    } else {
      assert key in st.live ==> st.live[key] == map[] by {
        if key in st.live && st.live[key] != map[] {
          assert IsLive(st, key, Greatest(st.live[key].Keys));
        }
      }
    }
  }

  /** A sync has a record in memory just when its last start was not finished, and not overtaken by six hours. */
  lemma RecordedIff(kvApps: set<string>, log: seq<Event>, key: QueryKey, id: SyncId)
    ensures IsLive(Replay(kvApps, log), key, id) <==>
      && key.accountId != "" && key.bundleName !in kvApps
      && exists i: nat :: i < |log| && log[i].Started? && log[i].key == key && log[i].id == id
          && forall j | i < j < |log| && log[j].key == key ::
               log[j].id != id && (log[j].Finished? ==> log[j].at - log[i].at < 21600000)
  {
    RecordsAreLog(kvApps, log);
    if IsLive(Replay(kvApps, log), key, id) {
      var i: nat :| LiveSince(kvApps, log, |log|, key, id, i);
      forall j | i < j < |log| && log[j].key == key
        ensures log[j].id != id && (log[j].Finished? ==> log[j].at - log[i].at < 21600000)
      {
        assert !Ends(log[j], key, id, log[i].at);
      }
    }
    if i: nat :| i < |log| && log[i].Started? && log[i].key == key && log[i].id == id
                 && forall j | i < j < |log| && log[j].key == key ::
                      log[j].id != id && (log[j].Finished? ==> log[j].at - log[i].at < 21600000) {
      assert NeedSave(kvApps, key) ==> LiveSince(kvApps, log, |log|, key, id, i);
    }
  }

  /** `info` reports a sync of `key` that the log has as running since log[i]. */
  ghost predicate ReportsRunning(log: seq<Event>, key: QueryKey, info: Info, i: nat) {
    && i < |log| && log[i].Started? && log[i].key == key
    && info == Info(key.accountId, key.storeId, log[i].at, 0, 0, 0)
  }

  /** `info` reports the sync of `key` that the log has as begun at log[i] and finished at log[j]. */
  ghost predicate ReportsFinished(log: seq<Event>, key: QueryKey, info: Info, j: nat, i: nat) {
    && i < j < |log| && log[i].Started? && log[j].Finished? && log[j].saved
    && log[i].key == key && log[j].key == key && log[i].id == log[j].id
    && info == Info(key.accountId, key.storeId, log[i].at, log[j].at,
                    if 0 <= log[j].code <= 8 then log[j].code else 1, 1)
  }

  /** After log[j], no live sync of the store was saved as finished, for any account. */
  ghost predicate NoSaveSince(kvApps: set<string>, log: seq<Event>, key: QueryKey, j: nat) {
    forall k: nat, i: nat | j < k < |log| && log[k].Finished? && log[k].saved
      && log[k].key.user == key.user && log[k].key.bundleName == key.bundleName && log[k].key.storeId == key.storeId ::
      !LiveSince(kvApps, log, k, log[k].key, log[k].id, i)
  }

  lemma LastSaveIsLast(kvApps: set<string>, log: seq<Event>, key: QueryKey, j: nat, i: nat)
    requires IsLastSave(kvApps, log, MetaOf(key), j, i)
    ensures NoSaveSince(kvApps, log, key, j)
  {
    forall k: nat, i': nat | j < k < |log| && log[k].Finished? && log[k].saved
      && log[k].key.user == key.user && log[k].key.bundleName == key.bundleName && log[k].key.storeId == key.storeId
      ensures !LiveSince(kvApps, log, k, log[k].key, log[k].id, i')
    {
      assert !Saves(kvApps, log, k, MetaOf(key), i');
    }
  }

  /**
    Every answer is about a sync of just the user, account, application and store asked for, and its
    fields are those of its events. An answer from the metadata is the last save there, whoever's it is.
   */
  lemma AnswerSays(kvApps: set<string>, log: seq<Event>, key: QueryKey)
    requires Answer(Replay(kvApps, log), key).Some?
    ensures key.accountId != "" && key.bundleName !in kvApps
    ensures var info := Answer(Replay(kvApps, log), key).value;
      if HasLive(kvApps, log, key) then exists i: nat :: ReportsRunning(log, key, info, i)
      else exists j: nat, i: nat :: ReportsFinished(log, key, info, j, i) && NoSaveSince(kvApps, log, key, j)
  {
    AnswerIsLog(kvApps, log, key);
    var info := Answer(Replay(kvApps, log), key).value;
    if HasLive(kvApps, log, key) {
      var id, i: nat :| GreatestLive(kvApps, log, key, id, i) && info == StartInfo(key, log[i].at);
      assert ReportsRunning(log, key, info, i);
    } else {
      var j: nat, i: nat :| IsLastSave(kvApps, log, MetaOf(key), j, i)
        && log[j].key.accountId == key.accountId && info == SavedInfo(log, j, i);
      assert log[j].key == key;
      LastSaveIsLast(kvApps, log, key, j, i);
      assert ReportsFinished(log, key, info, j, i) && NoSaveSince(kvApps, log, key, j);
    }
  }

  /** A live sync that finishes and is saved is what a query then answers, unless another one still runs. */
  lemma FinishIsFound(kvApps: set<string>, log: seq<Event>, key: QueryKey, id: SyncId, i: nat, code: int, at: int)
    requires LiveSince(kvApps, log, |log|, key, id, i)
    ensures var log' := log + [Finished(key, id, code, at, true)];
      && Answer(Replay(kvApps, log'), key).Some?
      && (!HasLive(kvApps, log', key) ==> ReportsFinished(log', key, Answer(Replay(kvApps, log'), key).value, |log|, i))
  {
    var e := Finished(key, id, code, at, true);
    var log' := log + [e];
    AnswerIsLog(kvApps, log', key);
    SavesGrows(kvApps, log, e, |log|, MetaOf(key), i);
    assert IsLastSave(kvApps, log', MetaOf(key), |log|, i);
    RecordsAreLog(kvApps, log');
    assert log'[|log|] == e && log'[i] == log[i];
    assert SavedInfo(log', |log|, i) == FinishInfo(StartInfo(key, log[i].at), code, at);
  }

  // ---- The code ---------------------------------------------------------------------------------

  function StartAll(kvApps: set<string>, st: Records, syncs: seq<(QueryKey, SyncId)>, now: int): Records {
    if syncs == [] then st
    else
      var last := syncs[|syncs| - 1];
      StartSync(kvApps, StartAll(kvApps, st, syncs[..|syncs| - 1], now), last.0, last.1, now)
  }

  function StartEvents(syncs: seq<(QueryKey, SyncId)>, now: int): seq<Event> {
    seq(|syncs|, i requires 0 <= i < |syncs| => Started(syncs[i].0, syncs[i].1, now))
  }

  /** One call to UpdateStartSyncInfo is so many starts in the log. */
  lemma {:induction false} StartsAreLogged(
      kvApps: set<string>, log: seq<Event>, syncs: seq<(QueryKey, SyncId)>, now: int)
    ensures StartAll(kvApps, Replay(kvApps, log), syncs, now) == Replay(kvApps, log + StartEvents(syncs, now))
  {
    var all := log + StartEvents(syncs, now);
    if syncs == [] {
      assert all == log;
    } else {
      StartsAreLogged(kvApps, log, syncs[..|syncs| - 1], now);
      assert all[..|all| - 1] == log + StartEvents(syncs[..|syncs| - 1], now);
    }
  }

  /** The entry of a store is the answer for the first key with that store that has one. */
  ghost predicate Answers(st: Records, keys: seq<QueryKey>, result: map<string, Info>) {
    && (forall k | 0 <= k < |keys| && Answer(st, keys[k]).Some? :: keys[k].storeId in result)
    && (forall s | s in result :: exists k: nat :: IsFirstAnswer(st, keys, s, k, result[s]))
  }

  ghost predicate IsFirstAnswer(st: Records, keys: seq<QueryKey>, s: string, k: nat, info: Info) {
    && k < |keys| && keys[k].storeId == s && Answer(st, keys[k]) == Some(info)
    && forall j | 0 <= j < k && keys[j].storeId == s :: Answer(st, keys[j]).None?
  }

  class SyncRecords {
    const kvApps: set<string>
    var live: map<QueryKey, map<SyncId, Info>>
    var meta: map<MetaKey, Info>

    ghost function View(): Records
      reads this
    {
      Records(live, meta)
    }

    /** Every record, live or saved, is filed under its own store. */
    ghost predicate Valid()
      reads this
    {
      && (forall key, id | IsLive(View(), key, id) :: live[key][id].storeId == key.storeId)
      && (forall mk | mk in meta :: meta[mk].storeId == mk.storeId)
    }

    constructor (kvApps: set<string>)
      ensures this.kvApps == kvApps && View() == Replay(kvApps, []) && Valid()
    {
      this.kvApps := kvApps;
      live, meta := map[], map[];
    }

    method UpdateStartSyncInfo(syncs: seq<(QueryKey, SyncId)>, now: int)
      requires Valid()
      modifies this`live
      ensures View() == StartAll(kvApps, old(View()), syncs, now) && Valid()
    {
      var i := 0;
      while i < |syncs|
        invariant 0 <= i <= |syncs| && meta == old(meta) && Valid()
        invariant View() == StartAll(kvApps, old(View()), syncs[..i], now)
      {
        var (key, id) := syncs[i];
        assert syncs[..i + 1][..i] == syncs[..i];
        if NeedSave(kvApps, key) {
          var val := if key in live then live[key] else map[];
          live := live[key := val[id := Info(key.accountId, key.storeId, now, 0, 0, RUNNING)]];
        }
        i := i + 1;
      }
      assert syncs[..i] == syncs;
    }

    method UpdateFinishSyncInfo(key: QueryKey, syncId: SyncId, code: int, now: int, saved: bool)
      requires Valid()
      modifies this`live, this`meta
      ensures View() == FinishSync(kvApps, old(View()), key, syncId, code, now, saved) && Valid()
    {
      assert forall id | IsLive(View(), key, id) :: live[key][id].storeId == key.storeId;
      if !NeedSave(kvApps, key) || key !in live {
        return;
      }
      var val := live[key];
      ghost var val0 := val;
      var ids := val.Keys;
      while ids != {}
        invariant live == old(live) && ids <= val.Keys <= val0.Keys && forall id | id in val :: val[id] == val0[id]
        invariant forall id | id in val0 :: id in val <==> id in ids || Survives(id, val0[id], syncId, now)
        invariant meta == if syncId in val0 && syncId !in ids && saved
                          then old(meta)[MetaOf(key) := FinishInfo(val0[syncId], code, now)] else old(meta)
        decreases ids
      {
        var id :| id in ids;
        ids := ids - {id};
        var isExpired := now - val[id].startTime >= EXPIRATION_TIME;
        if id != syncId && isExpired {
          val := val - {id};
        } else if id == syncId {
          var info := val[id].(finishTime := now, code := ConvertValidGeneralCode(code), syncStatus := FINISHED);
          if saved {
            meta := meta[MetaOf(key) := info];
          }
          val := val - {id};
        }
      }
      assert val == Survivors(val0, syncId, now);
      live := live[key := val];
    }

    method GetLastResults(val: map<SyncId, Info>) returns (info: Option<Info>)
      ensures info == if val != map[] && val[Greatest(val.Keys)].code != INVALID_SYNC_CODE
                      then Some(val[Greatest(val.Keys)]) else None
    {
      if val == map[] {
        return None;
      }
      GreatestExists(val.Keys);
      var last: SyncId :| last in val && forall id | id in val :: id <= last;
      return if val[last].code != INVALID_SYNC_CODE then Some(val[last]) else None;
    }

    method QueryLastSyncInfo(keys: seq<QueryKey>) returns (result: map<string, Info>)
      requires Valid()
      ensures Answers(View(), keys, result)
    {
      result := map[];
      var i := 0;
      while i < |keys|
        invariant 0 <= i <= |keys|
        invariant Answers(View(), keys[..i], result)
      {
        var key := keys[i];
        ghost var before := result;
        if key in live {
          var info := GetLastResults(live[key]);
          if info.Some? && key.storeId !in result {
            result := result[key.storeId := info.value];
          }
        }
        if key.storeId !in result {
          var info := FromMeta(Records(live, meta), key);
          if info.Some? {
            result := result[info.value.storeId := info.value];
          }
        }
        AnswersGrow(View(), keys[..i], key, before, result, Answer(View(), key));
        assert keys[..i + 1] == keys[..i] + [key];
        i := i + 1;
      }
      assert keys[..i] == keys;
    }
  }

  lemma AnswersGrow(st: Records, keys: seq<QueryKey>, key: QueryKey, before: map<string, Info>,
                    after: map<string, Info>, answer: Option<Info>)
    requires Answers(st, keys, before) && answer == Answer(st, key)
    requires after == if answer.Some? && key.storeId !in before then before[key.storeId := answer.value] else before
    ensures Answers(st, keys + [key], after)
  {
    var keys' := keys + [key];
    forall s | s in after ensures exists k: nat :: IsFirstAnswer(st, keys', s, k, after[s]) {
      if s in before {
        var k: nat :| IsFirstAnswer(st, keys, s, k, before[s]);
        assert IsFirstAnswer(st, keys', s, k, after[s]);
      } else {
        assert forall j | 0 <= j < |keys| && keys[j].storeId == s :: Answer(st, keys[j]).None?;
        assert IsFirstAnswer(st, keys', s, |keys|, after[s]);
      }
    }
  }
}
