/** The batch worker pool of internal/parallel/pool.go over every interleaving of its workers. */
module Pool {
  import opened Bytes

  /** An error value a task may return. */
  type Failure = int

  datatype Worker =
    | Idle                              // at the head of its range loop
    | Holding(task: nat)                // received a task, before the context check
    | Running(task: nat)
    | Failing(task: nat, err: Failure)  // the task returned an error that is not yet sent
    | Cancelling                        // the error is sent, cancel is not yet called
    | Finished

  /** `started`, `dropped` and `results` record the history; `overflow` that the default branch was taken. */
  datatype State = State(taken: nat, workers: seq<Worker>, errs: seq<Failure>, cancelled: bool,
                         started: seq<nat>, dropped: set<nat>, results: map<nat, Option<Failure>>, overflow: bool)

  datatype Action = Take(w: nat) | Check(w: nat) | Return(w: nat, result: Option<Failure>) | Report(w: nat) | Cancel(w: nat)

  ghost function Init(nTasks: nat, nWorkers: nat): State {
    State(0, seq(Min(nWorkers, nTasks), _ => Idle), [], false, [], {}, map[], false)
  }

  ghost predicate Enabled(s: State, a: Action) {
    && a.w < |s.workers|
    && match a
       case Take(w) => s.workers[w].Idle?
       case Check(w) => s.workers[w].Holding?
       case Return(w, result) => s.workers[w].Running?
       case Report(w) => s.workers[w].Failing?
       case Cancel(w) => s.workers[w].Cancelling?
  }

  ghost function Become(s: State, w: nat, worker: Worker): State
    requires w < |s.workers|
  {
    s.(workers := s.workers[w := worker])
  }

  ghost function Apply(nTasks: nat, nWorkers: nat, s: State, a: Action): State
    requires Enabled(s, a)
  {
    match a
    case Take(w) =>
      if s.taken < nTasks then Become(s, w, Holding(s.taken)).(taken := s.taken + 1) else Become(s, w, Finished)
    case Check(w) =>
      var i := s.workers[w].task;
      if s.cancelled then Become(s, w, Finished).(dropped := s.dropped + {i})
      else Become(s, w, Running(i)).(started := s.started + [i])
    case Return(w, result) =>
      var i := s.workers[w].task;
      var next := if result.None? then Idle else Failing(i, result.value);
      Become(s, w, next).(results := s.results[i := result])
    case Report(w) =>
      if |s.errs| < nWorkers then Become(s, w, Cancelling).(errs := s.errs + [s.workers[w].err])
      else Become(s, w, Finished).(overflow := true)
    case Cancel(w) => Become(s, w, Finished).(cancelled := true)
  }

  ghost predicate Over(s: State) {
    forall w | 0 <= w < |s.workers| :: s.workers[w].Finished?
  }

  /** What Run returns once every worker is done: the first error sent, or nil. */
  ghost function Returned(s: State): Option<Failure> {
    if s.errs == [] then None else Some(s.errs[0])
  }

  ghost predicate Run(nTasks: nat, nWorkers: nat, states: seq<State>, actions: seq<Action>) {
    && |states| == |actions| + 1
    && states[0] == Init(nTasks, nWorkers)
    && forall k | 0 <= k < |actions| ::
         Enabled(states[k], actions[k]) && states[k + 1] == Apply(nTasks, nWorkers, states[k], actions[k])
  }

  // ----- the invariant -----

  ghost predicate HasTask(worker: Worker) {
    worker.Holding? || worker.Running? || worker.Failing?
  }

  /** Workers that will send no more errors. */
  ghost function Retired(ws: seq<Worker>): nat {
    if ws == [] then 0 else (if ws[0].Cancelling? || ws[0].Finished? then 1 else 0) + Retired(ws[1..])
  }

  lemma {:induction false} RetiredUpdate(ws: seq<Worker>, w: nat, worker: Worker)
    requires w < |ws|
    ensures Retired(ws[w := worker]) == Retired(ws)
              - (if ws[w].Cancelling? || ws[w].Finished? then 1 else 0)
              + (if worker.Cancelling? || worker.Finished? then 1 else 0)
  {
    if w == 0 {
    } else {
      RetiredUpdate(ws[1..], w - 1, worker);
      assert ws[w := worker][1..] == ws[1..][w - 1 := worker];
    }
  }

  lemma {:induction false} RetiredBound(ws: seq<Worker>, w: nat)
    requires w < |ws| && !ws[w].Cancelling? && !ws[w].Finished?
    ensures Retired(ws) < |ws|
  {
    if w > 0 {
      RetiredBound(ws[1..], w - 1);
    } else {
      RetiredAtMost(ws[1..]);
    }
  }

  lemma {:induction false} RetiredAtMost(ws: seq<Worker>)
    ensures Retired(ws) <= |ws|
  {
    if ws == [] {
    } else {
      RetiredAtMost(ws[1..]);
    }
  }

  /** No task is in two places, and none taken is lost unless the pool was cancelled. */
  ghost predicate TasksKept(nTasks: nat, s: State) {
    && s.taken <= nTasks
    && (forall w | 0 <= w < |s.workers| && HasTask(s.workers[w]) :: s.workers[w].task < s.taken)
    && (forall w, v | 0 <= w < v < |s.workers| && HasTask(s.workers[w]) && HasTask(s.workers[v]) ::
          s.workers[w].task != s.workers[v].task)
    && (forall w | 0 <= w < |s.workers| && s.workers[w].Holding? :: s.workers[w].task !in s.started)
    && (forall k | 0 <= k < |s.started| :: s.started[k] < s.taken)
    && (forall j, k | 0 <= j < k < |s.started| :: s.started[j] != s.started[k])
    && (forall i: nat | i < s.taken :: i in s.results || i in s.dropped || HeldBySome(s.workers, i))
    && (s.dropped != {} ==> s.cancelled)
  }

  ghost predicate HeldBySome(ws: seq<Worker>, i: nat) {
    exists w :: 0 <= w < |ws| && HasTask(ws[w]) && ws[w].task == i
  }

  ghost predicate Produced(results: map<nat, Option<Failure>>, e: Failure) {
    exists i: nat :: i in results && results[i] == Some(e)
  }

  ghost predicate SomeFailing(ws: seq<Worker>) {
    exists w :: 0 <= w < |ws| && ws[w].Failing?
  }

  /** What is known of a worker from the state it is in. */
  ghost predicate WorkerKept(nTasks: nat, s: State, worker: Worker) {
    match worker
    case Idle => true
    case Holding(task) => task !in s.results
    case Running(task) => task !in s.results && task in s.started
    case Failing(task, err) => task in s.results && s.results[task] == Some(err)
    case Cancelling => s.errs != []
    case Finished => s.taken == nTasks || s.errs != []
  }

  ghost predicate WorkersKept(nTasks: nat, s: State) {
    forall w | 0 <= w < |s.workers| :: WorkerKept(nTasks, s, s.workers[w])
  }

  /** Errors sent come from tasks, and an error is never forgotten. */
  ghost predicate ErrorsShown(s: State) {
    && (forall k | 0 <= k < |s.errs| :: Produced(s.results, s.errs[k]))
    && (forall i | i in s.results && s.results[i].Some? :: s.errs != [] || SomeFailing(s.workers))
    && (forall i | i in s.results :: i in s.started)
  }

  ghost predicate ErrorsKept(nTasks: nat, nWorkers: nat, s: State) {
    && !s.overflow
    && |s.workers| <= nWorkers
    && |s.errs| <= Retired(s.workers)
    && (s.cancelled ==> s.errs != [])
    && WorkersKept(nTasks, s)
    && ErrorsShown(s)
  }

  ghost predicate Inv(nTasks: nat, nWorkers: nat, s: State) {
    TasksKept(nTasks, s) && ErrorsKept(nTasks, nWorkers, s) && |s.workers| == Min(nWorkers, nTasks)
  }

  /** A task held by another worker than the one that moves stays held. */
  lemma StillHeld(s: State, t: State, w: nat, i: nat)
    requires w < |s.workers| == |t.workers| && t.workers == s.workers[w := t.workers[w]]
    requires HeldBySome(s.workers, i)
    ensures HeldBySome(t.workers, i) || (HasTask(s.workers[w]) && s.workers[w].task == i)
  {
    var v :| 0 <= v < |s.workers| && HasTask(s.workers[v]) && s.workers[v].task == i;
    assert v == w || t.workers[v] == s.workers[v];
  }

  lemma TasksAfterTake(nTasks: nat, nWorkers: nat, s: State, a: Action)
    requires TasksKept(nTasks, s) && Enabled(s, a) && a.Take?
    ensures TasksKept(nTasks, Apply(nTasks, nWorkers, s, a))
  {
    hide HeldBySome;
    var t := Apply(nTasks, nWorkers, s, a);
    forall i: nat | i < t.taken
      ensures i in t.results || i in t.dropped || HeldBySome(t.workers, i)
    {
      if i == s.taken {
        HolderHolds(t.workers, a.w);
      } else if HeldBySome(s.workers, i) {
        StillHeld(s, t, a.w, i);
      }
    }
  }

  lemma HolderHolds(ws: seq<Worker>, w: nat)
    requires w < |ws| && HasTask(ws[w])
    ensures HeldBySome(ws, ws[w].task)
  {
  }

  lemma TasksAfterCheck(nTasks: nat, nWorkers: nat, s: State, a: Action)
    requires TasksKept(nTasks, s) && Enabled(s, a) && a.Check?
    ensures TasksKept(nTasks, Apply(nTasks, nWorkers, s, a))
  {
    hide HeldBySome;
    var t := Apply(nTasks, nWorkers, s, a);
    var task := s.workers[a.w].task;
    forall i: nat | i < t.taken
      ensures i in t.results || i in t.dropped || HeldBySome(t.workers, i)
    {
      if HeldBySome(s.workers, i) {
        StillHeld(s, t, a.w, i);
        if !s.cancelled {
          HolderHolds(t.workers, a.w);
        }
      }
    }
  }

  lemma TasksAfterRest(nTasks: nat, nWorkers: nat, s: State, a: Action)
    requires TasksKept(nTasks, s) && Enabled(s, a) && (a.Return? || a.Report? || a.Cancel?)
    requires a.Report? ==> s.workers[a.w].task in s.results
    ensures TasksKept(nTasks, Apply(nTasks, nWorkers, s, a))
  {
    hide HeldBySome;
    var t := Apply(nTasks, nWorkers, s, a);
    forall i: nat | i < t.taken
      ensures i in t.results || i in t.dropped || HeldBySome(t.workers, i)
    {
      if HeldBySome(s.workers, i) {
        StillHeld(s, t, a.w, i);
      }
    }
  }

  lemma TasksStay(nTasks: nat, nWorkers: nat, s: State, a: Action)
    requires Inv(nTasks, nWorkers, s) && Enabled(s, a)
    ensures TasksKept(nTasks, Apply(nTasks, nWorkers, s, a))
  {
    hide TasksKept, Apply, Retired, Produced, SomeFailing;
    match a
    case Take(_) => TasksAfterTake(nTasks, nWorkers, s, a);
    case Check(_) => TasksAfterCheck(nTasks, nWorkers, s, a);
    case Return(_, _) => TasksAfterRest(nTasks, nWorkers, s, a);
    case Report(_) => TasksAfterRest(nTasks, nWorkers, s, a);
    case Cancel(_) => TasksAfterRest(nTasks, nWorkers, s, a);
  }

  lemma FailingShows(ws: seq<Worker>, w: nat)
    requires w < |ws| && ws[w].Failing?
    ensures SomeFailing(ws)
  {
  }

  lemma StillFailing(s: State, t: State, w: nat)
    requires w < |s.workers| == |t.workers| && t.workers == s.workers[w := t.workers[w]]
    requires SomeFailing(s.workers) && !s.workers[w].Failing?
    ensures SomeFailing(t.workers)
  {
    var v :| 0 <= v < |s.workers| && s.workers[v].Failing?;
    assert t.workers[v].Failing?;
  }

  /** Nothing another worker relies on is taken back. */
  ghost predicate Onwards(nTasks: nat, s: State, t: State) {
    && (s.taken == nTasks ==> t.taken == nTasks)
    && (s.errs != [] ==> t.errs != [])
    && (forall i | i in s.started :: i in t.started)
  }

  lemma OthersKept(nTasks: nat, s: State, t: State, w: nat)
    requires w < |s.workers| == |t.workers| && t.workers == s.workers[w := t.workers[w]]
    requires WorkersKept(nTasks, s) && Onwards(nTasks, s, t) && WorkerKept(nTasks, t, t.workers[w])
    requires t.results == s.results
             || (s.workers[w].Running? && t.results.Keys == s.results.Keys + {s.workers[w].task}
                 && (forall i | i in s.results :: t.results[i] == s.results[i]) && TasksKept(nTasks, s)
                 && s.workers[w].task !in s.results)
    ensures WorkersKept(nTasks, t)
  {
    forall v | 0 <= v < |t.workers|
      ensures WorkerKept(nTasks, t, t.workers[v])
    {
      if v != w {
        assert t.workers[v] == s.workers[v] && WorkerKept(nTasks, s, s.workers[v]);
        if HasTask(s.workers[v]) && s.workers[w].Running? {
          TasksDiffer(nTasks, s, v, w);
        }
      }
    }
  }

  lemma TasksDiffer(nTasks: nat, s: State, v: nat, w: nat)
    requires v < |s.workers| && w < |s.workers| && v != w
    requires HasTask(s.workers[v]) && HasTask(s.workers[w])
    ensures TasksKept(nTasks, s) ==> s.workers[v].task != s.workers[w].task
  {
    hide HeldBySome;
  }

  lemma OneKept(nTasks: nat, s: State, w: nat)
    requires WorkersKept(nTasks, s) && w < |s.workers|
    ensures WorkerKept(nTasks, s, s.workers[w])
  {
  }

  lemma ErrorsAfterMove(nTasks: nat, nWorkers: nat, s: State, a: Action)
    requires Inv(nTasks, nWorkers, s) && Enabled(s, a) && (a.Take? || a.Check? || a.Cancel?)
    ensures ErrorsKept(nTasks, nWorkers, Apply(nTasks, nWorkers, s, a))
  {
    hide Retired, Produced, SomeFailing, WorkersKept;
    var t := Apply(nTasks, nWorkers, s, a);
    RetiredUpdate(s.workers, a.w, t.workers[a.w]);
    OneKept(nTasks, s, a.w);
    MovedIsKept(nTasks, nWorkers, s, a);
    OthersKept(nTasks, s, t, a.w);
    if SomeFailing(s.workers) {
      StillFailing(s, t, a.w);
    }
  }

  lemma MovedIsKept(nTasks: nat, nWorkers: nat, s: State, a: Action)
    requires Inv(nTasks, nWorkers, s) && Enabled(s, a) && (a.Take? || a.Check? || a.Cancel?)
    ensures var t := Apply(nTasks, nWorkers, s, a);
            WorkerKept(nTasks, t, t.workers[a.w]) && Onwards(nTasks, s, t)
  {
    hide Retired, Produced, SomeFailing, HeldBySome;
    assert WorkerKept(nTasks, s, s.workers[a.w]);
  }

  lemma ErrorsAfterReport(nTasks: nat, nWorkers: nat, s: State, a: Action)
    requires Inv(nTasks, nWorkers, s) && Enabled(s, a) && a.Report?
    ensures ErrorsKept(nTasks, nWorkers, Apply(nTasks, nWorkers, s, a))
  {
    hide Retired, TasksKept, SomeFailing, WorkersKept;
    var t := Apply(nTasks, nWorkers, s, a);
    RetiredUpdate(s.workers, a.w, t.workers[a.w]);
    RetiredBound(s.workers, a.w);
    OneKept(nTasks, s, a.w);
    OthersKept(nTasks, s, t, a.w);
    assert Produced(s.results, s.workers[a.w].err);
    assert forall k | 0 <= k < |s.errs| :: t.errs[k] == s.errs[k];
  }

  lemma StillProduced(results: map<nat, Option<Failure>>, i: nat, result: Option<Failure>, e: Failure)
    requires Produced(results, e) && i !in results
    ensures Produced(results[i := result], e)
  {
    var j: nat :| j in results && results[j] == Some(e);
    assert results[i := result][j] == Some(e);
  }

  lemma ErrorsAfterReturn(nTasks: nat, nWorkers: nat, s: State, a: Action)
    requires Inv(nTasks, nWorkers, s) && Enabled(s, a) && a.Return?
    ensures ErrorsKept(nTasks, nWorkers, Apply(nTasks, nWorkers, s, a))
  {
    hide Retired, TasksKept, Produced, SomeFailing, WorkersKept;
    var t := Apply(nTasks, nWorkers, s, a);
    RetiredUpdate(s.workers, a.w, t.workers[a.w]);
    OneKept(nTasks, s, a.w);
    OthersKept(nTasks, s, t, a.w);
    forall k | 0 <= k < |t.errs|
      ensures Produced(t.results, t.errs[k])
    {
      StillProduced(s.results, s.workers[a.w].task, a.result, s.errs[k]);
    }
    if SomeFailing(s.workers) {
      StillFailing(s, t, a.w);
    }
    if a.result.Some? {
      FailingShows(t.workers, a.w);
    }
  }

  lemma ErrorsStay(nTasks: nat, nWorkers: nat, s: State, a: Action)
    requires Inv(nTasks, nWorkers, s) && Enabled(s, a)
    ensures ErrorsKept(nTasks, nWorkers, Apply(nTasks, nWorkers, s, a))
  {
    hide Inv, Apply, ErrorsKept;
    match a
    case Take(_) => ErrorsAfterMove(nTasks, nWorkers, s, a);
    case Check(_) => ErrorsAfterMove(nTasks, nWorkers, s, a);
    case Return(_, _) => ErrorsAfterReturn(nTasks, nWorkers, s, a);
    case Report(_) => ErrorsAfterReport(nTasks, nWorkers, s, a);
    case Cancel(_) => ErrorsAfterMove(nTasks, nWorkers, s, a);
  }

  /** Every reachable state keeps the invariant; in particular the default branch is never taken. */
  lemma {:induction false} InvOfRun(nTasks: nat, nWorkers: nat, states: seq<State>, actions: seq<Action>, k: nat)
    requires Run(nTasks, nWorkers, states, actions) && k < |states|
    ensures Inv(nTasks, nWorkers, states[k])
    ensures !states[k].overflow
  {
    hide Inv, Enabled, Apply;
    if k == 0 {
      InvInit(nTasks, nWorkers);
    } else {
      InvOfRun(nTasks, nWorkers, states, actions, k - 1);
      InvStays(nTasks, nWorkers, states[k - 1], actions[k - 1]);
    }
    NoOverflow(nTasks, nWorkers, states[k]);
  }

  lemma InvInit(nTasks: nat, nWorkers: nat)
    ensures Inv(nTasks, nWorkers, Init(nTasks, nWorkers))
  {
  }

  lemma NoOverflow(nTasks: nat, nWorkers: nat, s: State)
    requires Inv(nTasks, nWorkers, s)
    ensures !s.overflow
  {
  }

  lemma InvStays(nTasks: nat, nWorkers: nat, s: State, a: Action)
    requires Inv(nTasks, nWorkers, s) && Enabled(s, a)
    ensures Inv(nTasks, nWorkers, Apply(nTasks, nWorkers, s, a))
  {
    hide TasksKept, ErrorsKept;
    TasksStay(nTasks, nWorkers, s, a);
    ErrorsStay(nTasks, nWorkers, s, a);
  }

  /** Each task runs at most once, in every run. */
  lemma AtMostOnce(nTasks: nat, nWorkers: nat, states: seq<State>, actions: seq<Action>, k: nat)
    requires Run(nTasks, nWorkers, states, actions) && k < |states|
    ensures forall i, j | 0 <= i < j < |states[k].started| :: states[k].started[i] != states[k].started[j]
    ensures forall i | 0 <= i < |states[k].started| :: states[k].started[i] < nTasks
  {
    InvOfRun(nTasks, nWorkers, states, actions, k);
  }

  /** Run returns nil exactly when every task ran and returned nil; otherwise an error some task produced. */
  lemma RunReturns(nTasks: nat, nWorkers: nat, states: seq<State>, actions: seq<Action>)
    requires nTasks > 0 && nWorkers > 0
    requires Run(nTasks, nWorkers, states, actions) && Over(states[|actions|])
    ensures var s := states[|actions|];
            && (Returned(s) == None <==> forall i: nat | i < nTasks :: i in s.results && s.results[i] == None)
            && (Returned(s).Some? ==> exists i :: i < nTasks && i in s.results && s.results[i] == Returned(s))
  {
    hide Retired, Enabled, Apply;
    var s := states[|actions|];
    InvOfRun(nTasks, nWorkers, states, actions, |actions|);
    assert s.workers[0].Finished?;
    if s.errs == [] {
      forall i: nat | i < nTasks
        ensures i in s.results && s.results[i] == None
      {
        assert !HeldBySome(s.workers, i);
      }
    } else {
      var i: nat :| i in s.results && s.results[i] == Some(s.errs[0]);
      assert i in s.started;
    }
  }

  /** The error Run returns is the one that was sent first, whatever is sent later. */
  lemma {:induction false} FirstErrorIsReturned(nTasks: nat, nWorkers: nat, states: seq<State>, actions: seq<Action>, j: nat, k: nat)
    requires Run(nTasks, nWorkers, states, actions) && j < k < |states|
    requires actions[j].Report? && forall m | 0 <= m < j :: !actions[m].Report?
    ensures Enabled(states[j], actions[j])
    ensures Returned(states[k]) == Some(states[j].workers[actions[j].w].err)
  {
    hide Inv;
    if k == j + 1 {
      NothingSentYet(nTasks, nWorkers, states, actions, j);
      InvOfRun(nTasks, nWorkers, states, actions, k);
    } else {
      FirstErrorIsReturned(nTasks, nWorkers, states, actions, j, k - 1);
      assert Enabled(states[k - 1], actions[k - 1]);
    }
  }

  lemma {:induction false} NothingSentYet(nTasks: nat, nWorkers: nat, states: seq<State>, actions: seq<Action>, k: nat)
    requires Run(nTasks, nWorkers, states, actions) && k < |states|
    requires forall m | 0 <= m < k :: !actions[m].Report?
    ensures states[k].errs == []
  {
    if k == 0 {
    } else {
      NothingSentYet(nTasks, nWorkers, states, actions, k - 1);
      assert Enabled(states[k - 1], actions[k - 1]);
    }
  }

  /** Once a worker has called cancel no further task is started: those still queued are dropped. */
  lemma {:induction false} NothingStartsAfterCancel(nTasks: nat, nWorkers: nat, states: seq<State>, actions: seq<Action>,
                                                    j: nat, k: nat)
    requires Run(nTasks, nWorkers, states, actions) && j < k < |states| && actions[j].Cancel?
    ensures states[k].cancelled && states[k].started == states[j].started
  {
    assert Enabled(states[k - 1], actions[k - 1]);
    if k == j + 1 {
    } else {
      NothingStartsAfterCancel(nTasks, nWorkers, states, actions, j, k - 1);
    }
  }

  /** Until all workers are done, one of them can move. */
  lemma Progress(s: State)
    ensures Over(s) || exists a :: Enabled(s, a)
  {
    if !Over(s) {
      assert exists w :: 0 <= w < |s.workers| && !s.workers[w].Finished?;
      var w :| 0 <= w < |s.workers| && !s.workers[w].Finished?;
      var a := match s.workers[w]
        case Idle => Take(w)
        case Holding(_) => Check(w)
        case Running(_) => Return(w, None)
        case Failing(_, _) => Report(w)
        case Cancelling => Cancel(w);
      assert Enabled(s, a);
    }
  }

  // ----- termination -----

  ghost function Weight(worker: Worker): nat {
    match worker
    case Idle => 1
    case Holding(_) => 4
    case Running(_) => 3
    case Failing(_, _) => 2
    case Cancelling => 1
    case Finished => 0
  }

  ghost function Weights(ws: seq<Worker>): nat {
    if ws == [] then 0 else Weight(ws[0]) + Weights(ws[1..])
  }

  lemma {:induction false} WeightsUpdate(ws: seq<Worker>, w: nat, worker: Worker)
    requires w < |ws|
    ensures Weights(ws[w := worker]) == Weights(ws) - Weight(ws[w]) + Weight(worker)
  {
    if w == 0 {
    } else {
      WeightsUpdate(ws[1..], w - 1, worker);
      assert ws[w := worker][1..] == ws[1..][w - 1 := worker];
    }
  }

  lemma {:induction false} IdleWeights(n: nat)
    ensures Weights(seq(n, _ => Idle)) == n
  {
    if n == 0 {
    } else {
      IdleWeights(n - 1);
      assert seq(n, _ => Idle)[1..] == seq(n - 1, _ => Idle);
    }
  }

  /** No run is longer than four steps a task and one a worker. */
  lemma {:induction false} RunsAreBounded(nTasks: nat, nWorkers: nat, states: seq<State>, actions: seq<Action>, k: nat)
    requires Run(nTasks, nWorkers, states, actions) && k < |states|
    ensures k + 4 * (nTasks - states[k].taken) + Weights(states[k].workers) <= 4 * nTasks + Min(nWorkers, nTasks)
    ensures states[k].taken <= nTasks
  {
    hide Weights;
    if k == 0 {
      IdleWeights(Min(nWorkers, nTasks));
    } else {
      RunsAreBounded(nTasks, nWorkers, states, actions, k - 1);
      var s, a := states[k - 1], actions[k - 1];
      WeightsUpdate(s.workers, a.w, states[k].workers[a.w]);
    }
  }
}
