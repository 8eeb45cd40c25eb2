/**
 The Lua callback scheduler (crates/signal-auras-core/src/controller.rs:389-535) and the protocol
 between it and the holders of popped tasks.
*/
module CallbackScheduler {
  import opened Wrappers

  datatype OverloadPolicy = SkipWhilePending | DropNewest

  datatype Disposition =
    | Accepted | Skipped | Denied | Dropped | Completed | Slow | Preempted | Cancelled

  /** `permitted` stands for the capability report: no required capability is blocked. */
  datatype Registration = Registration(name: string, callback: string, policy: OverloadPolicy, permitted: bool)

  datatype Task = Task(registration: string, callback: string, acceptedAt: nat, budget: nat)

  datatype Scheduler = Scheduler(maxPending: nat, budget: nat, pending: seq<Task>, active: set<string>)

  function Schedule(s: Scheduler, r: Registration, acceptedAt: nat): (Scheduler, Disposition) {
    if !r.permitted then (s, Denied)
    else if r.name in s.active then
      (s, match r.policy case SkipWhilePending => Skipped case DropNewest => Dropped)
    else if |s.pending| >= s.maxPending then (s, Dropped)
    else
      (s.(active := s.active + {r.name}, pending := s.pending + [Task(r.name, r.callback, acceptedAt, s.budget)]),
       Accepted)
  }

  function PopNext(s: Scheduler): (Scheduler, Option<Task>) {
    if s.pending == [] then (s, None) else (s.(pending := s.pending[1..]), Some(s.pending[0]))
  }

  /** What finishing, cancelling and preempting a task have in common: its label is free again. */
  function HandBack(s: Scheduler, task: Task): Scheduler {
    s.(active := s.active - {task.registration})
  }

  function CancelAll(s: Scheduler): Scheduler {
    s.(pending := [], active := {})
  }

  class LuaCallbackScheduler {
    const maxPending: nat
    const defaultBudget: nat
    var pending: seq<Task>
    var activeOrPending: set<string>

    function State(): Scheduler
      reads this
    {
      Scheduler(maxPending, defaultBudget, pending, activeOrPending)
    }

    constructor (maxPending: nat, defaultBudget: nat)
      requires maxPending > 0 && defaultBudget > 0
      ensures State() == Scheduler(maxPending, defaultBudget, [], {})
    {
      this.maxPending := maxPending;
      this.defaultBudget := defaultBudget;
      pending := [];
      activeOrPending := {};
    }

    method ScheduleTask(registration: Registration, acceptedAt: nat) returns (disposition: Disposition)
      modifies this
      ensures (State(), disposition) == Schedule(old(State()), registration, acceptedAt)
    {
      if !registration.permitted {
        return Denied;
      }
      if registration.name in activeOrPending {
        match registration.policy {
          case SkipWhilePending => return Skipped;
          case DropNewest => return Dropped;
        }
      }
      if |pending| >= maxPending {
        return Dropped;
      }
      activeOrPending := activeOrPending + {registration.name};
      pending := pending + [Task(registration.name, registration.callback, acceptedAt, defaultBudget)];
      disposition := Accepted;
    }

    method PopTask() returns (task: Option<Task>)
      modifies this`pending
      ensures (State(), task) == PopNext(old(State()))
    {
      if pending == [] {
        return None;
      }
      task := Some(pending[0]);
      pending := pending[1..];
    }

    method Finish(task: Task, elapsed: nat) returns (disposition: Disposition)
      modifies this`activeOrPending
      ensures State() == HandBack(old(State()), task)
      ensures disposition == if elapsed > task.budget then Slow else Completed
    {
      activeOrPending := activeOrPending - {task.registration};
      disposition := if elapsed > task.budget then Slow else Completed;
    }

    method CancelTask(task: Task) returns (disposition: Disposition)
      modifies this`activeOrPending
      ensures State() == HandBack(old(State()), task) && disposition == Cancelled
    {
      activeOrPending := activeOrPending - {task.registration};
      disposition := Cancelled;
    }

    method PreemptTask(task: Task) returns (disposition: Disposition)
      modifies this`activeOrPending
      ensures State() == HandBack(old(State()), task) && disposition == Preempted
    {
      activeOrPending := activeOrPending - {task.registration};
      disposition := Preempted;
    }

    method CancelEverything() returns (cancelled: nat)
      modifies this`pending, this`activeOrPending
      ensures State() == CancelAll(old(State())) && cancelled == |old(pending)|
    {
      cancelled := |pending|;
      pending := [];
      activeOrPending := {};
    }
  }

  // ---- the protocol ----

  /** One call on the scheduler; `Return` hands back a task by finish, cancel or preempt. */
  datatype Call =
    | Submit(registration: Registration, acceptedAt: nat)
    | Pop
    | Return(task: Task)
    | Clear

  /**
   The scheduler with the tasks its callers hold, every task accepted since the last `cancel_all`,
   and how many of those were popped.
  */
  datatype World = World(scheduler: Scheduler, outstanding: seq<Task>, accepted: seq<Task>, popped: nat)

  function Remove(tasks: seq<Task>, task: Task): seq<Task> {
    if tasks == [] then []
    else if tasks[0] == task then tasks[1..]
    else [tasks[0]] + Remove(tasks[1..], task)
  }

  /**
   What a call does to the world. After `cancel_all` the tasks already popped are no longer
   outstanding: their labels are free although someone may still hold them.
  */
  function Perform(w: World, call: Call): World {
    match call
    case Submit(registration, acceptedAt) =>
      var (s', disposition) := Schedule(w.scheduler, registration, acceptedAt);
      if disposition.Accepted? then w.(scheduler := s', accepted := w.accepted + [s'.pending[|s'.pending| - 1]])
      else w.(scheduler := s')
    case Pop =>
      var (s', task) := PopNext(w.scheduler);
      if task.Some? then w.(scheduler := s', outstanding := w.outstanding + [task.value], popped := w.popped + 1)
      else w.(scheduler := s')
    case Return(task) =>
      w.(scheduler := HandBack(w.scheduler, task), outstanding := Remove(w.outstanding, task))
    case Clear =>
      World(CancelAll(w.scheduler), [], [], 0)
  }

  function Names(tasks: seq<Task>): set<string> {
    set task | task in tasks :: task.registration
  }

  ghost predicate Distinct(tasks: seq<Task>) {
    forall i, j :: 0 <= i < j < |tasks| ==> tasks[i].registration != tasks[j].registration
  }

  /**
   At most one task per registration is pending or outstanding, and the labels the scheduler keeps
   are exactly those; at most `maxPending` are pending; and the pending tasks are the accepted ones
   not yet popped, in acceptance order.
  */
  ghost predicate Exclusive(w: World) {
    && Distinct(w.scheduler.pending) && Distinct(w.outstanding)
    && Names(w.scheduler.pending) !! Names(w.outstanding)
    && w.scheduler.active == Names(w.scheduler.pending) + Names(w.outstanding)
    && |w.scheduler.pending| <= w.scheduler.maxPending
    && w.popped <= |w.accepted|
    && w.scheduler.pending == w.accepted[w.popped..]
    && (forall task :: task in w.outstanding ==> task in w.accepted[..w.popped])
  }

  /** The caller holds the task it hands back, and no `cancel_all` has dropped it since. */
  predicate CallOk(w: World, call: Call) {
    call.Return? ==> call.task in w.outstanding
  }

  lemma NamesHead(tasks: seq<Task>)
    requires tasks != []
    ensures Names(tasks) == {tasks[0].registration} + Names(tasks[1..])
    ensures Distinct(tasks) ==> tasks[0].registration !in Names(tasks[1..]) && Distinct(tasks[1..])
  {
    var rest := tasks[1..];
    assert forall other :: other in tasks <==> other == tasks[0] || other in rest;
    if Distinct(tasks) {
      forall other | other in rest ensures other.registration != tasks[0].registration {
        var i :| 0 <= i < |rest| && rest[i] == other;
        assert tasks[i + 1] == other;
      }
      forall i, j | 0 <= i < j < |rest| ensures rest[i].registration != rest[j].registration {
        assert tasks[i + 1] == rest[i] && tasks[j + 1] == rest[j];
      }
    }
  }

  lemma NamesSnoc(tasks: seq<Task>, task: Task)
    ensures Names(tasks + [task]) == Names(tasks) + {task.registration}
    ensures Distinct(tasks) && task.registration !in Names(tasks) ==> Distinct(tasks + [task])
  {
    assert forall other :: other in tasks + [task] <==> other in tasks || other == task;
    forall i | 0 <= i < |tasks| ensures tasks[i].registration in Names(tasks) {
      assert tasks[i] in tasks;
    }
  }

  lemma DistinctFromHead(task: Task, rest: seq<Task>)
    requires Distinct(rest) && task.registration !in Names(rest)
    ensures Distinct([task] + rest)
  {
    forall i, j | 0 <= i < j < |[task] + rest|
      ensures ([task] + rest)[i].registration != ([task] + rest)[j].registration
    {
      assert rest[j - 1] in rest;
    }
  }

  lemma {:induction false} RemoveMeaning(tasks: seq<Task>, task: Task)
    requires Distinct(tasks) && task in tasks
    ensures Distinct(Remove(tasks, task))
    ensures Names(Remove(tasks, task)) == Names(tasks) - {task.registration}
    ensures forall other :: other in Remove(tasks, task) ==> other in tasks
  {
    NamesHead(tasks);
    if tasks[0] != task {
      assert task in tasks[1..];
      RemoveMeaning(tasks[1..], task);
      var left := Remove(tasks[1..], task);
      NamesHead([tasks[0]] + left);
      DistinctFromHead(tasks[0], left);
    }
  }

  lemma {:induction false} RemoveAbsent(tasks: seq<Task>, task: Task)
    requires task !in tasks
    ensures Remove(tasks, task) == tasks
  {
    if tasks != [] {
      RemoveAbsent(tasks[1..], task);
    }
  }

  lemma SubmitKeeps(w: World, registration: Registration, acceptedAt: nat)
    requires Exclusive(w)
    ensures Exclusive(Perform(w, Submit(registration, acceptedAt)))
  {
    var (s', disposition) := Schedule(w.scheduler, registration, acceptedAt);
    if disposition.Accepted? {
      var task := s'.pending[|s'.pending| - 1];
      NamesSnoc(w.scheduler.pending, task);
      assert (w.accepted + [task])[w.popped..] == w.accepted[w.popped..] + [task];
      assert (w.accepted + [task])[..w.popped] == w.accepted[..w.popped];
    }
  }

  lemma PopKeeps(w: World)
    requires Exclusive(w)
    ensures Exclusive(Perform(w, Pop))
  {
    if w.scheduler.pending != [] {
      var task := w.scheduler.pending[0];
      NamesHead(w.scheduler.pending);
      NamesSnoc(w.outstanding, task);
      assert w.accepted[w.popped..][1..] == w.accepted[w.popped + 1..];
      assert w.accepted[..w.popped + 1] == w.accepted[..w.popped] + [task];
    }
  }

  /** Every call of a caller that keeps to the protocol preserves mutual exclusion. */
  lemma CallKeepsExclusive(w: World, call: Call)
    requires Exclusive(w) && CallOk(w, call)
    ensures Exclusive(Perform(w, call))
  {
    match call
    case Submit(registration, acceptedAt) => SubmitKeeps(w, registration, acceptedAt);
    case Pop => PopKeeps(w);
    case Return(task) => RemoveMeaning(w.outstanding, task);
    case Clear => assert Names([]) == {};
  }

  function PerformAll(w: World, calls: seq<Call>): World {
    if calls == [] then w else Perform(PerformAll(w, calls[..|calls| - 1]), calls[|calls| - 1])
  }

  function Fresh(maxPending: nat, budget: nat): World {
    World(Scheduler(maxPending, budget, [], {}), [], [], 0)
  }

  /**
   Mutual exclusion over every run in which each popped task is handed back at most once and never
   after a `cancel_all` that dropped it.
  */
  lemma {:induction false} CallbacksAreExclusive(maxPending: nat, budget: nat, calls: seq<Call>)
    requires forall k :: 0 <= k < |calls| ==> CallOk(PerformAll(Fresh(maxPending, budget), calls[..k]), calls[k])
    ensures Exclusive(PerformAll(Fresh(maxPending, budget), calls))
  {
    var w := Fresh(maxPending, budget);
    if calls == [] {
      assert Names([]) == {};
    } else {
      var before := calls[..|calls| - 1];
      forall k | 0 <= k < |before| ensures CallOk(PerformAll(w, before[..k]), before[k]) {
        assert before[..k] == calls[..k];
        assert CallOk(PerformAll(w, calls[..k]), calls[k]);
      }
      CallbacksAreExclusive(maxPending, budget, before);
      assert CallOk(PerformAll(w, calls[..|before|]), calls[|before|]);
      CallKeepsExclusive(PerformAll(w, before), calls[|before|]);
    }
  }

  /** Every call of the run keeps to the protocol. */
  ghost predicate KeepsProtocol(maxPending: nat, budget: nat, calls: seq<Call>) {
    forall k :: 0 <= k < |calls| ==> CallOk(PerformAll(Fresh(maxPending, budget), calls[..k]), calls[k])
  }

  lemma {:induction false} BoundsStay(maxPending: nat, budget: nat, calls: seq<Call>)
    ensures var s := PerformAll(Fresh(maxPending, budget), calls).scheduler;
      s.maxPending == maxPending && s.budget == budget
  {
    if calls != [] {
      BoundsStay(maxPending, budget, calls[..|calls| - 1]);
    }
  }

  ghost predicate Taken(w: World, name: string) {
    exists task :: (task in w.scheduler.pending || task in w.outstanding) && task.registration == name
  }

  /**
   After any run that keeps to the protocol, a submission is accepted exactly when it is permitted, no task
   of its name is pending or outstanding, and there is room; it is denied exactly when it is not permitted;
   and only an accepted one changes anything.
  */
  lemma {:induction false} SubmissionOutcome(
    maxPending: nat, budget: nat, calls: seq<Call>, r: Registration, acceptedAt: nat)
    requires KeepsProtocol(maxPending, budget, calls)
    ensures var w := PerformAll(Fresh(maxPending, budget), calls);
      var w', answer := Perform(w, Submit(r, acceptedAt)), Schedule(w.scheduler, r, acceptedAt).1;
      && (answer == Accepted <==> r.permitted && !Taken(w, r.name) && |w.scheduler.pending| < maxPending)
      && (answer == Denied <==> !r.permitted)
      && (answer == Skipped <==> r.permitted && Taken(w, r.name) && r.policy == SkipWhilePending)
      && (answer == Dropped <==> answer !in {Accepted, Denied, Skipped})
      && (answer != Accepted ==> w' == w)
      && (answer == Accepted ==>
            var task := Task(r.name, r.callback, acceptedAt, budget);
            && w'.scheduler.pending == w.scheduler.pending + [task]
            && w'.accepted == w.accepted + [task]
            && w'.outstanding == w.outstanding && w'.popped == w.popped)
  {
    hide Exclusive;
    var w := PerformAll(Fresh(maxPending, budget), calls);
    CallbacksAreExclusive(maxPending, budget, calls);
    BoundsStay(maxPending, budget, calls);
    TakenIsActive(w, r.name);
  }

  lemma TakenIsActive(w: World, name: string)
    requires Exclusive(w)
    ensures Taken(w, name) <==> name in w.scheduler.active
  {
  }

  /** Call number `k` submits this task and is permitted to. */
  ghost predicate SubmittedBy(calls: seq<Call>, k: int, task: Task, budget: nat) {
    && 0 <= k < |calls| && calls[k].Submit? && calls[k].registration.permitted
    && task == Task(calls[k].registration.name, calls[k].registration.callback, calls[k].acceptedAt, budget)
  }

  lemma {:induction false} AcceptedWasSubmitted(maxPending: nat, budget: nat, calls: seq<Call>, task: Task)
    requires task in PerformAll(Fresh(maxPending, budget), calls).accepted
    ensures exists k :: SubmittedBy(calls, k, task, budget)
  {
    if calls != [] {
      var before, last := calls[..|calls| - 1], calls[|calls| - 1];
      var w := PerformAll(Fresh(maxPending, budget), before);
      BoundsStay(maxPending, budget, before);
      if task in w.accepted {
        AcceptedWasSubmitted(maxPending, budget, before, task);
        var k :| SubmittedBy(before, k, task, budget);
        assert SubmittedBy(calls, k, task, budget);
      } else {
        assert SubmittedBy(calls, |before|, task, budget);
      }
    }
  }

  /** Nothing is ever pending or handed out that some permitted registration did not submit. */
  lemma {:induction false} TasksWerePermitted(maxPending: nat, budget: nat, calls: seq<Call>, task: Task)
    requires KeepsProtocol(maxPending, budget, calls)
    requires var w := PerformAll(Fresh(maxPending, budget), calls); task in w.scheduler.pending || task in w.outstanding
    ensures exists k :: SubmittedBy(calls, k, task, budget)
  {
    var w := PerformAll(Fresh(maxPending, budget), calls);
    CallbacksAreExclusive(maxPending, budget, calls);
    assert forall other :: other in w.accepted[w.popped..] || other in w.accepted[..w.popped] ==> other in w.accepted;
    AcceptedWasSubmitted(maxPending, budget, calls, task);
  }

  /** Tasks leave in the order they were accepted, and a popped task is nobody else's. */
  lemma PopsInAcceptanceOrder(w: World)
    requires Exclusive(w)
    ensures PopNext(w.scheduler).1 ==
      if w.popped < |w.accepted| then Some(w.accepted[w.popped]) else None
    ensures w.popped < |w.accepted| ==>
      forall task :: task in w.outstanding ==> task.registration != w.accepted[w.popped].registration
  {
    if w.popped < |w.accepted| {
      NamesHead(w.scheduler.pending);
    }
  }

  /**
   Handing back a task that is not outstanding is harmless exactly when its label is free: otherwise
   it frees the label of a task that is still pending or running.
  */
  lemma StaleReturnHarmlessIffFree(w: World, task: Task)
    requires Exclusive(w) && task !in w.outstanding
    ensures Exclusive(Perform(w, Return(task))) <==> task.registration !in w.scheduler.active
  {
    RemoveAbsent(w.outstanding, task);
    if task.registration in w.scheduler.active {
      assert w.scheduler.active - {task.registration} != w.scheduler.active;
    } else {
      assert w.scheduler.active - {task.registration} == w.scheduler.active;
    }
  }

  /**
   `cancel_all` frees the labels of tasks already popped, so a later hand-back of such a task breaks
   mutual exclusion: here two tasks of one registration end up outstanding.
  */
  lemma StaleReturnBreaksExclusion()
    ensures
      var r := Registration("Hotkey:F5", "run", SkipWhilePending, true);
      var early, late, last := Task(r.name, r.callback, 1, 10), Task(r.name, r.callback, 2, 10), Task(r.name, r.callback, 3, 10);
      var w := Perform(Perform(Perform(Perform(Perform(Fresh(4, 10), Submit(r, 1)), Pop), Clear), Submit(r, 2)), Pop);
      w.outstanding == [late]
      && Perform(Perform(Perform(w, Return(early)), Submit(r, 3)), Pop).outstanding == [late, last]
  {
    var r := Registration("Hotkey:F5", "run", SkipWhilePending, true);
    var early, late := Task(r.name, r.callback, 1, 10), Task(r.name, r.callback, 2, 10);
    RemoveAbsent([late], early);
  }
}
