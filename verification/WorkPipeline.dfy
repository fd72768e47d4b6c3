/**
  The pipeline of CloudServiceImpl::GenTask: works run one after the other, each for every user, and a
  work that did not finish is tried again later, up to a number of failures shared by the pipeline.
 */
module WorkPipeline {
  import opened Wrappers

  const RETRY_TIMES := 3

  type Work = nat

  datatype Task = Task(retry: nat, user: int, works: seq<Work>)

  /** What one round meets: QueryUsers' answer, who is verified, and whether a work succeeds for a user. */
  datatype Round = Round(
    hasExecutor: bool,
    isNetworkAvailable: bool,
    queried: Option<seq<int>>,
    isVerified: int -> bool,
    handle: (Work, int) -> bool)

  datatype Entry = Entry(work: Work, finished: bool)

  /** What a round did, and the task it handed to the executor. */
  datatype Outcome = Outcome(ran: Option<Entry>, next: Option<Task>)

  function Users(task: Task, round: Round): seq<int> {
    if task.user != 0 then [task.user] else if round.queried.Some? then round.queried.value else []
  }

  /** A work has finished when the users are known, there are some, and it succeeded for every verified one. */
  predicate Finishes(task: Task, round: Round)
    requires task.works != []
  {
    && (task.user != 0 || round.queried.Some?)
    && Users(task, round) != []
    && forall u | u in Users(task, round) && u != 0 && round.isVerified(u) :: round.handle(task.works[0], u)
  }

  function RoundOutcome(task: Task, round: Round): Outcome {
    if task.retry >= RETRY_TIMES || !round.hasExecutor || task.works == [] || !round.isNetworkAvailable then
      Outcome(None, None)
    else if !Finishes(task, round) then
      Outcome(Some(Entry(task.works[0], false)), Some(task.(retry := task.retry + 1)))
    else
      Outcome(Some(Entry(task.works[0], true)),
              if task.works[1..] == [] then None else Some(task.(works := task.works[1..])))
  }

  method RunRound(task: Task, round: Round) returns (outcome: Outcome)
    ensures outcome == RoundOutcome(task, round)
  {
    if task.retry >= RETRY_TIMES || !round.hasExecutor || task.works == [] {
      return Outcome(None, None);
    }
    if !round.isNetworkAvailable {
      return Outcome(None, None);
    }
    var finished := true;
    var users := [];
    if task.user == 0 {
      finished := round.queried.Some?;
      if round.queried.Some? {
        users := round.queried.value;
      }
    } else {
      users := users + [task.user];
    }
    var works := task.works;
    ghost var known := finished;
    assert users == Users(task, round);
    var i := 0;
    while i < |users|
      invariant 0 <= i <= |users|
      invariant finished <==> known && forall j | 0 <= j < i && users[j] != 0 && round.isVerified(users[j]) ::
        round.handle(works[0], users[j])
    {
      if users[i] != 0 && round.isVerified(users[i]) {
        var succeeded := round.handle(works[0], users[i]);
        finished := succeeded && finished;
      }
      i := i + 1;
    }
    if !finished || users == [] {
      return Outcome(Some(Entry(works[0], false)), Some(Task(task.retry + 1, task.user, works)));
    }
    var work := works[0];
    works := works[1..];
    return Outcome(Some(Entry(work, true)), if works == [] then None else Some(Task(task.retry, task.user, works)));
  }

  /** The rounds in which a pipeline ran a work, when it meets the given rounds one by one. */
  function Execute(task: Task, rounds: seq<Round>): seq<Entry>
    decreases rounds
  {
    if rounds == [] then []
    else
      var outcome := RoundOutcome(task, rounds[0]);
      (if outcome.ran.Some? then [outcome.ran.value] else [])
        + (if outcome.next.Some? then Execute(outcome.next.value, rounds[1..]) else [])
  }

  function Count(trace: seq<Entry>, finished: bool): nat {
    if trace == [] then 0 else (if trace[0].finished == finished then 1 else 0) + Count(trace[1..], finished)
  }

  lemma {:induction false} CountSplits(trace: seq<Entry>)
    ensures Count(trace, true) + Count(trace, false) == |trace|
  {
    if trace == [] {
    } else {
      CountSplits(trace[1..]);
    }
  }

  /** Only so many failures, no more works than there are, and the third failure is the last thing that happens. */
  lemma {:induction false} ExecuteCounts(task: Task, rounds: seq<Round>)
    requires task.retry <= RETRY_TIMES
    ensures var trace := Execute(task, rounds);
      && task.retry + Count(trace, false) <= RETRY_TIMES
      && Count(trace, true) <= |task.works|
      && (trace != [] && task.retry + Count(trace, false) == RETRY_TIMES ==> Count(trace, true) < |task.works|)
    decreases rounds
  {
    if rounds == [] {
    } else {
      var outcome, trace := RoundOutcome(task, rounds[0]), Execute(task, rounds);
      if outcome.ran.Some? {
        assert trace[0] == outcome.ran.value;
        if outcome.next.Some? {
          ExecuteCounts(outcome.next.value, rounds[1..]);
          assert trace[1..] == Execute(outcome.next.value, rounds[1..]);
        } else {
          assert trace[1..] == [];
        }
      }
    }
  }

  /** Whatever it meets, a pipeline of n works, started afresh, runs at most n + 2 rounds. */
  lemma RoundsAreBounded(user: int, works: seq<Work>, rounds: seq<Round>)
    ensures |Execute(Task(0, user, works), rounds)| <= |works| + 2
  {
    var trace := Execute(Task(0, user, works), rounds);
    ExecuteCounts(Task(0, user, works), rounds);
    CountSplits(trace);
  }

  /** A round in which the works succeed, or fail, for the one user there is. */
  function Uniform(succeeds: bool): Round {
    Round(true, true, Some([1]), _ => true, (_, _) => succeeds)
  }

  lemma {:induction false} EachWorkTakesARound(task: Task)
    requires task.retry < RETRY_TIMES
    ensures |Execute(task, seq(|task.works|, _ => Uniform(true)))| == |task.works|
    decreases |task.works|
  {
    var rounds := seq(|task.works|, _ => Uniform(true));
    if task.works == [] {
    } else {
      var rest := task.(works := task.works[1..]);
      EachWorkTakesARound(rest);
      assert rounds[1..] == seq(|rest.works|, _ => Uniform(true));
    }
  }

  /** The bound is met, by a first work that fails twice, unless there are no works. */
  lemma RoundsReachBound(user: int, works: seq<Work>)
    ensures (exists rounds :: |Execute(Task(0, user, works), rounds)| == |works| + 2) <==> works != []
  {
    if works == [] {
      forall rounds ensures |Execute(Task(0, user, works), rounds)| == 0 {
      }
    } else {
      var good, bad := seq(|works|, _ => Uniform(true)), Uniform(false);
      var rounds := [bad, bad] + good;
      EachWorkTakesARound(Task(2, user, works));
      assert rounds[1..][1..] == good;
      var u := if user == 0 then 1 else user;
      assert !Finishes(Task(0, user, works), bad) && !Finishes(Task(1, user, works), bad) by {
        assert u in Users(Task(0, user, works), bad) && u in Users(Task(1, user, works), bad);
      }
      assert |Execute(Task(0, user, works), rounds)| == 1 + |Execute(Task(1, user, works), rounds[1..])|;
    }
  }

  /**
    A round runs the first work that no earlier round finished: works start in order, each only after
    all earlier ones finished, and repeat until they finish.
   */
  lemma {:induction false} WorksRunInOrder(task: Task, rounds: seq<Round>, k: nat)
    requires k < |Execute(task, rounds)|
    ensures var trace := Execute(task, rounds);
      Count(trace[..k], true) < |task.works| && trace[k].work == task.works[Count(trace[..k], true)]
    decreases rounds
  {
    var outcome, trace := RoundOutcome(task, rounds[0]), Execute(task, rounds);
    if k == 0 {
    } else {
      var rest := Execute(outcome.next.value, rounds[1..]);
      WorksRunInOrder(outcome.next.value, rounds[1..], k - 1);
      assert trace[k] == rest[k - 1] && trace[..k][0] == trace[0] && trace[..k][1..] == rest[..k - 1];
    }
  }

  /** The users of a pipeline for `user`, in a round: that one, or all that the query found. */
  function Served(user: int, round: Round): Option<seq<int>> {
    if user != 0 then Some([user]) else round.queried
  }

  /**
    The k-th entry is the k-th round's doing, which had an executor and a network: the work finished if
    and only if users were found, and it succeeded for all of them that are verified.
   */
  lemma {:induction false} EntriesAreRounds(task: Task, rounds: seq<Round>, k: nat)
    requires k < |Execute(task, rounds)|
    ensures k < |rounds| && rounds[k].hasExecutor && rounds[k].isNetworkAvailable
    ensures var entry := Execute(task, rounds)[k];
      entry.finished <==>
        match Served(task.user, rounds[k])
        case None => false
        case Some(users) =>
          users != [] && forall u | u in users :: u == 0 || !rounds[k].isVerified(u) || rounds[k].handle(entry.work, u)
    decreases rounds
  {
    var outcome := RoundOutcome(task, rounds[0]);
    if k == 0 {
    } else {
      EntriesAreRounds(outcome.next.value, rounds[1..], k - 1);
      assert Execute(task, rounds)[k] == Execute(outcome.next.value, rounds[1..])[k - 1];
    }
  }

  /** A pipeline stops only for want of an executor or a network, after a third failure, or when it is done. */
  lemma {:induction false} WhyItStops(task: Task, rounds: seq<Round>)
    ensures var trace := Execute(task, rounds);
      |trace| < |rounds| ==>
        || !rounds[|trace|].hasExecutor || !rounds[|trace|].isNetworkAvailable
        || task.retry + Count(trace, false) >= 3
        || Count(trace, true) >= |task.works|
    decreases rounds
  {
    if rounds == [] {
    } else {
      var outcome, trace := RoundOutcome(task, rounds[0]), Execute(task, rounds);
      if outcome.ran.Some? {
        assert trace[0] == outcome.ran.value;
        if outcome.next.Some? {
          WhyItStops(outcome.next.value, rounds[1..]);
          assert trace[1..] == Execute(outcome.next.value, rounds[1..]);
        } else {
          assert trace[1..] == [];
        }
      }
    }
  }
}
