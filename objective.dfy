/** Mission objectives and tasks (Assets/Scripts/Missions/Objective.cs): an
    objective's status, which its updates move from in progress to completed
    or failed, and the progress estimates of the task kinds. The game time
    and the player's money, which the source reads from the game
    controller, are parameters; `float` and `decimal` are `real`. */
module Objectives {
  import opened Wrappers
  import DT = DateTimes
  import TransitTypes
  import Citizens

  datatype ObjectiveUpdateHook = EveryTick | EveryMinute | EveryDay | MonetaryChange | TransitChange

  datatype ObjectiveType = TotalMoney | MonthlyIncome | AvgHappiness | TotalPassengers | TripsSaved

  datatype Status = InProgress | Completed | Failed

  /** `Progress >= 1.0f`. Only a money objective has a progress, the money
      over the requirement; the `float` division by a zero requirement is
      infinite for positive money and not a number for none. */
  predicate Reached(t: ObjectiveType, requirement: real, money: real)
  {
    t == TotalMoney && (if requirement == 0.0 then money > 0.0 else money / requirement >= 1.0)
  }

  /** One `UpdateProgress` (lines 116-136) on the status: the new status and
      the value returned, which is `true` only when the objective fails. */
  function Update(status: Status, t: ObjectiveType, requirement: real, deadline: Option<DT.DateTime>,
                  gameTime: DT.DateTime, money: real): (Status, bool)
  {
    if status != InProgress then (status, false)
    else if deadline.Some? && gameTime >= deadline.value then (Failed, true)
    else if Reached(t, requirement, money) then (Completed, false)
    else (InProgress, false)
  }

  /** A finished objective stays as it is and reports nothing; an objective
      in progress fails exactly when its deadline has come, and is otherwise
      completed exactly when its progress reaches one. */
  lemma UpdateCases(status: Status, t: ObjectiveType, requirement: real,
                    deadline: Option<DT.DateTime>, gameTime: DT.DateTime, money: real)
    ensures var (next, changed) := Update(status, t, requirement, deadline, gameTime, money);
      var late := deadline.Some? && gameTime >= deadline.value;
      (status != InProgress ==> next == status && !changed)
      && (changed <==> status == InProgress && late)
      && (status == InProgress ==>
            (next == Failed <==> late)
            && (next == Completed <==> !late && Reached(t, requirement, money))
            && (next == InProgress <==> !late && !Reached(t, requirement, money)))
  {
  }

  /** A positive requirement of money is met exactly by that much money;
      only money objectives can be completed. */
  lemma ReachedMoney(t: ObjectiveType, requirement: real, money: real)
    requires requirement > 0.0
    ensures Reached(t, requirement, money) <==> t == TotalMoney && money >= requirement
  {
    if t == TotalMoney {
      assert money / requirement >= 1.0 <==> money >= requirement by {
        assert (money / requirement) * requirement == money;
      }
    }
  }

  /** The status after a series of updates, each at a game time and with an
      amount of money. */
  function UpdateAll(status: Status, t: ObjectiveType, requirement: real, deadline: Option<DT.DateTime>,
                     observations: seq<(DT.DateTime, real)>): Status
  {
    if observations == [] then status
    else
      var last := observations[|observations| - 1];
      Update(UpdateAll(status, t, requirement, deadline, observations[..|observations| - 1]),
             t, requirement, deadline, last.0, last.1).0
  }

  /** Whether the observation decides the objective: the deadline has come,
      or the progress is reached. */
  predicate Decisive(t: ObjectiveType, requirement: real, deadline: Option<DT.DateTime>,
                     observation: (DT.DateTime, real))
  {
    (deadline.Some? && observation.0 >= deadline.value) || Reached(t, requirement, observation.1)
  }

  /** Starting in progress, the objective is still in progress exactly when
      no update was decisive, and otherwise it is what the first decisive
      update made it: failed if its deadline had come, completed if not. */
  lemma {:induction false} UpdateAllFirstDecisive(t: ObjectiveType, requirement: real,
                                                  deadline: Option<DT.DateTime>,
                                                  observations: seq<(DT.DateTime, real)>)
    returns (first: nat)
    ensures first <= |observations|
    ensures forall j :: 0 <= j < first ==> !Decisive(t, requirement, deadline, observations[j])
    ensures first == |observations| ==> UpdateAll(InProgress, t, requirement, deadline, observations) == InProgress
    ensures first < |observations| ==>
      Decisive(t, requirement, deadline, observations[first])
      && UpdateAll(InProgress, t, requirement, deadline, observations)
         == Update(InProgress, t, requirement, deadline, observations[first].0, observations[first].1).0
  {
    if observations == [] {
      first := 0;
    } else {
      var n := |observations| - 1;
      var prefix := observations[..n];
      first := UpdateAllFirstDecisive(t, requirement, deadline, prefix);
      var before := UpdateAll(InProgress, t, requirement, deadline, prefix);
      if first == n {
        assert forall j :: 0 <= j < n ==> observations[j] == prefix[j];
        if !Decisive(t, requirement, deadline, observations[n]) {
          first := n + 1;
        }
      } else {
        assert forall j :: 0 <= j < first ==> observations[j] == prefix[j];
        assert observations[first] == prefix[first];
        assert before != InProgress;
      }
    }
  }

  /** The deadline has come at `gameTime`. */
  predicate Late(deadline: Option<DT.DateTime>, gameTime: DT.DateTime)
  {
    deadline.Some? && gameTime >= deadline.value
  }

  /** Observation `j` is the first decisive one. */
  predicate FirstDecisive(t: ObjectiveType, requirement: real, deadline: Option<DT.DateTime>,
                          observations: seq<(DT.DateTime, real)>, j: int)
  {
    0 <= j < |observations| && Decisive(t, requirement, deadline, observations[j])
    && forall i :: 0 <= i < j ==> !Decisive(t, requirement, deadline, observations[i])
  }

  class Objective {
    var objectiveType: ObjectiveType
    var status: Status
    var deadline: Option<DT.DateTime>
    var requirement: real

    /** Lines 53-75: a new objective is in progress. */
    constructor (t: ObjectiveType, requirement: real, deadline: Option<DT.DateTime>)
      ensures objectiveType == t && this.requirement == requirement && this.deadline == deadline
      ensures status == InProgress
    {
      objectiveType := t;
      this.requirement := requirement;
      status := InProgress;
      this.deadline := deadline;
    }

    function IsCompleted(): bool
      reads this
    {
      status == Completed
    }

    function IsFailed(): bool
      reads this
    {
      status == Failed
    }

    /** `UpdateProgress` (lines 116-136). */
    method UpdateProgress(gameTime: DT.DateTime, money: real) returns (changed: bool)
      modifies this
      ensures (status, changed) == Update(old(status), objectiveType, requirement, deadline, gameTime, money)
      ensures objectiveType == old(objectiveType) && requirement == old(requirement)
      ensures deadline == old(deadline)
    {
      if status != InProgress {
        return false;
      }
      if deadline.Some? && gameTime >= deadline.value {
        status := Failed;
        return true;
      }
      if Reached(objectiveType, requirement, money) {
        status := Completed;
        return false;
      }
      return false;
    }
  }

  /** An objective that has seen a series of updates since it was created is
      completed exactly when the first decisive update came before the
      deadline, failed exactly when it came at or after the deadline, and
      neither while no update was decisive. So it never fails before its
      deadline, and an objective without one never fails. */
  lemma ObjectiveOutcome(o: Objective, observations: seq<(DT.DateTime, real)>)
    requires o.status == UpdateAll(InProgress, o.objectiveType, o.requirement, o.deadline, observations)
    ensures o.IsCompleted() <==>
      exists j :: FirstDecisive(o.objectiveType, o.requirement, o.deadline, observations, j)
                  && !Late(o.deadline, observations[j].0)
    ensures o.IsFailed() <==>
      exists j :: FirstDecisive(o.objectiveType, o.requirement, o.deadline, observations, j)
                  && Late(o.deadline, observations[j].0)
    ensures (!o.IsCompleted() && !o.IsFailed()) <==>
      forall j :: 0 <= j < |observations| ==> !Decisive(o.objectiveType, o.requirement, o.deadline, observations[j])
    ensures o.IsFailed() ==> o.deadline.Some?
  {
    var t, req, dl := o.objectiveType, o.requirement, o.deadline;
    var first := UpdateAllFirstDecisive(t, req, dl, observations);
    if first < |observations| {
      assert FirstDecisive(t, req, dl, observations, first);
      FirstDecisiveUnique(t, req, dl, observations, first);
      UpdateCases(InProgress, t, req, dl, observations[first].0, observations[first].1);
    } else {
      forall j | FirstDecisive(t, req, dl, observations, j)
        ensures false
      {
      }
    }
  }

  /** There is at most one first decisive observation. */
  lemma FirstDecisiveUnique(t: ObjectiveType, requirement: real, deadline: Option<DT.DateTime>,
                            observations: seq<(DT.DateTime, real)>, first: int)
    requires FirstDecisive(t, requirement, deadline, observations, first)
    ensures forall j :: FirstDecisive(t, requirement, deadline, observations, j) ==> j == first
  {
    forall j | FirstDecisive(t, requirement, deadline, observations, j)
      ensures j == first
    {
    }
  }

  // ---------------------------------------------------------------------
  // Tasks (lines 139-343)

  datatype TaskType = ConnectToTransit | CreateConnection | BuildStops | BuildLine
                    | TotalMoneyTask | MaintainAvgHappiness

  /** The subclass of a task and its own fields; map objects are
      identifiers. */
  datatype TaskKind =
    | ConnectToTransitTask(mapObject: int)
    | CreateConnectionTask(origin: int, destination: int)
    | BuildStopsTask(system: TransitTypes.TransitType, numStops: int)
    | BuildLineTask(system: TransitTypes.TransitType)
    | TotalMoneyAmountTask(amount: real)
    | MaintainAvgHappinessTask(happinessLevel: real)

  datatype Task = Task(kind: TaskKind, taskType: TaskType, startTime: DT.DateTime,
                       deadline: DT.DateTime, reward: real, updateHooks: seq<ObjectiveUpdateHook>)

  /** The subclass constructors; the start time is the game time then. The
      happiness task passes the type of the money task, as written. */
  function NewTaskAsWritten(kind: TaskKind, gameTime: DT.DateTime, deadline: DT.DateTime,
                            reward: real): Task
  {
    match kind
    case ConnectToTransitTask(_) => Task(kind, ConnectToTransit, gameTime, deadline, reward, [TransitChange])
    case CreateConnectionTask(_, _) => Task(kind, CreateConnection, gameTime, deadline, reward, [TransitChange])
    case BuildStopsTask(_, _) => Task(kind, BuildStops, gameTime, deadline, reward, [TransitChange])
    case BuildLineTask(_) => Task(kind, BuildLine, gameTime, deadline, reward, [TransitChange])
    case TotalMoneyAmountTask(_) => Task(kind, TotalMoneyTask, gameTime, deadline, reward, [MonetaryChange])
    case MaintainAvgHappinessTask(_) => Task(kind, TotalMoneyTask, gameTime, deadline, reward, [EveryMinute])
  }

  /** The type each subclass stands for. */
  function TypeOf(kind: TaskKind): TaskType
  {
    match kind
    case ConnectToTransitTask(_) => ConnectToTransit
    case CreateConnectionTask(_, _) => CreateConnection
    case BuildStopsTask(_, _) => BuildStops
    case BuildLineTask(_) => BuildLine
    case TotalMoneyAmountTask(_) => TotalMoneyTask
    case MaintainAvgHappinessTask(_) => MaintainAvgHappiness
  }

  /** The constructors with each task given the type of its own kind. */
  function NewTask(kind: TaskKind, gameTime: DT.DateTime, deadline: DT.DateTime, reward: real): (r: Task)
    ensures r.taskType == TypeOf(kind)
  {
    NewTaskAsWritten(kind, gameTime, deadline, reward).(taskType := TypeOf(kind))
  }

  /** Every constructor records the kind, the game time as the start, the
      deadline and the reward, and one update hook; the transit tasks
      update on transit changes, the money task on changes of money. As
      written, a happiness task claims to be a money task. */
  lemma NewTaskFields(kind: TaskKind, gameTime: DT.DateTime, deadline: DT.DateTime, reward: real)
    ensures var r := NewTask(kind, gameTime, deadline, reward);
      r.kind == kind && r.startTime == gameTime && r.deadline == deadline && r.reward == reward
      && |r.updateHooks| == 1
      && (r.updateHooks[0] == TransitChange <==> r.taskType in {ConnectToTransit, CreateConnection, BuildStops, BuildLine})
      && (r.updateHooks[0] == MonetaryChange <==> r.taskType == TotalMoneyTask)
      && NewTaskAsWritten(kind, gameTime, deadline, reward) == r.(taskType := NewTaskAsWritten(kind, gameTime, deadline, reward).taskType)
    ensures NewTaskAsWritten(MaintainAvgHappinessTask(50.0), gameTime, deadline, reward).taskType == TotalMoneyTask
    ensures NewTask(MaintainAvgHappinessTask(50.0), gameTime, deadline, reward).taskType == MaintainAvgHappiness
  {
  }

  /** `EstimateProgress` of a timed task (lines 311-323). A deadline at the
      start itself is only reached by a time before it, when the elapsed
      time is negative, so the `double` division is minus infinity and the
      clamp gives 0. */
  function TimedProgress(startTime: DT.DateTime, deadline: DT.DateTime, gameTime: DT.DateTime): real
  {
    if gameTime >= deadline then 1.0
    else if deadline == startTime then 0.0
    else Citizens.Clamp((gameTime - startTime) as real / (deadline - startTime) as real, 0.0, 1.0)
  }

  /** `EstimateProgress`, with `None` for the division of the money task by
      a zero amount, which throws. */
  function EstimateProgress(task: Task, gameTime: DT.DateTime, money: real): (r: Option<real>)
    ensures r.Some? ==> 0.0 <= r.value <= 1.0
  {
    match task.kind
    case TotalMoneyAmountTask(amount) =>
      if amount == 0.0 then None else Some(Citizens.Clamp(money / amount, 0.0, 1.0))
    case MaintainAvgHappinessTask(_) => Some(TimedProgress(task.startTime, task.deadline, gameTime))
    case _ => Some(0.0)
  }

  /** `IsFailed`: no task kind fails. */
  function TaskIsFailed(task: Task): bool
  {
    false
  }

  /** A task never fails, not even once its deadline has passed: a timed
      task then shows full progress instead, and every other task shows
      the progress it had. */
  lemma TaskNeverFails(task: Task, gameTime: DT.DateTime, money: real)
    requires gameTime >= task.deadline
    ensures !TaskIsFailed(task)
    ensures task.kind.MaintainAvgHappinessTask? ==> EstimateProgress(task, gameTime, money) == Some(1.0)
  {
  }

  /** A money task is done exactly when the money reaches the amount, and
      shows the fraction saved until then; the transit tasks always show 0;
      only a money task of no amount has no estimate. */
  lemma MoneyProgress(task: Task, gameTime: DT.DateTime, money: real)
    requires task.kind.TotalMoneyAmountTask? && task.kind.amount > 0.0
    ensures var r := EstimateProgress(task, gameTime, money);
      r.Some? && (r.value == 1.0 <==> money >= task.kind.amount)
      && (0.0 <= money <= task.kind.amount ==> r.value * task.kind.amount == money)
  {
    var amount := task.kind.amount;
    assert (money / amount) * amount == money;
    if money / amount >= 1.0 {
      assert money >= amount;
    }
    if money >= amount {
      assert money / amount >= 1.0;
    }
  }

  lemma EstimateProgressDefined(task: Task, gameTime: DT.DateTime, money: real)
    ensures EstimateProgress(task, gameTime, money).None? <==>
            task.kind.TotalMoneyAmountTask? && task.kind.amount == 0.0
    ensures (task.kind.ConnectToTransitTask? || task.kind.CreateConnectionTask?
             || task.kind.BuildStopsTask? || task.kind.BuildLineTask?) ==>
            EstimateProgress(task, gameTime, money) == Some(0.0)
  {
  }

  /** A timed task is done from its deadline on, shows the fraction of the
      time passed before it, and its progress never goes back as time goes
      on. */
  lemma TimedProgressShape(startTime: DT.DateTime, deadline: DT.DateTime, t: DT.DateTime, u: DT.DateTime)
    requires startTime < deadline && t <= u
    ensures 0.0 <= TimedProgress(startTime, deadline, t) <= 1.0
    ensures TimedProgress(startTime, deadline, t) == 1.0 <==> t >= deadline
    ensures startTime <= t < deadline ==>
      TimedProgress(startTime, deadline, t) * (deadline - startTime) as real == (t - startTime) as real
    ensures TimedProgress(startTime, deadline, t) <= TimedProgress(startTime, deadline, u)
  {
    var total := (deadline - startTime) as real;
    var ft := (t - startTime) as real / total;
    var fu := (u - startTime) as real / total;
    assert ft * total == (t - startTime) as real;
    assert fu * total == (u - startTime) as real;
    assert ft <= fu;
    if t < deadline {
      assert ft < 1.0;
    }
  }
}
