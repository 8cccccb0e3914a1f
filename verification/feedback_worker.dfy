/** The Celery task: updates the task row, then overwrites the robot's state in Redis. */
module FeedbackWorkers {
  import opened Wrappers
  import opened Text
  import opened Json
  import opened Redis
  import opened TaskTable
  import opened Feedback

  function StatusText(s: TaskStatus): string {
    match s
    case Pending => "pending"
    case Running => "running"
    case Completed => "completed"
    case Failed => "failed"
    case Cancelled => "cancelled"
  }

  /** The robot-state document; instants are numbers here. */
  function RobotState(p: Payload, amrCode: string, target: TaskStatus, now: nat): Json {
    Obj(map[
      "amrCode" := Str(amrCode),
      "x" := p.x,
      "y" := p.y,
      "state" := Str(StatusText(target)),
      "lastTaskCode" := Str(p.robotTaskCode),
      "updatedAt" := Num(now)])
  }

  /** A row with the code that is not final yet. */
  predicate HasLive(rows: Table, code: string) {
    exists i :: 0 <= i < |rows| && Live(rows[i], code)
  }

  predicate Live(row: TaskRow, code: string) {
    row.robotTaskCode == code && (row.status.Pending? || row.status.Running?)
  }

  /** What a delivery makes of a live row, column by column and method by method. */
  predicate FoldedInto(before: TaskRow, after: TaskRow, action: string, amrCode: Option<string>,
                       errorMsg: Option<string>, now: nat) {
    && SameIdentity(before, after)
    && (action == "start" || action == "outbin" ==> after.status.Running? && after.endTime == before.endTime)
    && (action == "end" ==> after.status.Completed?)
    && (action != "start" && action != "outbin" && action != "end" ==> after.status.Failed?)
    && (action != "start" && action != "outbin" ==> after.endTime == Some(now))
    && after.startTime == (if action == "start" && before.startTime.None? then Some(now) else before.startTime)
    && after.robotCode == (if amrCode.Some? then amrCode else before.robotCode)
    && after.errorMsg == (if errorMsg.Some? then errorMsg else before.errorMsg)
  }

  /** The live row with the code takes the delivery up; every other row stays as it is. */
  predicate WorkedInto(before: Table, after: Table, code: string, action: string, amrCode: Option<string>,
                       errorMsg: Option<string>, now: nat) {
    && |after| == |before|
    && forall i | 0 <= i < |before| ::
         if Live(before[i], code) then FoldedInto(before[i], after[i], action, amrCode, errorMsg, now)
         else after[i] == before[i]
  }

  lemma ProcessWorks(rows: Table, d: Delivery)
    requires Unique(rows)
    ensures WorkedInto(rows, Process(rows, d), d.code, d.action, d.amrCode, d.errorMsg, d.time)
  {
    hide Process, Unique;
    ProcessIsPointwise(rows, d);
  }

  class FeedbackWorker {
    const repo: TaskHistoryRepository
    const redis: RedisStore

    constructor (repo: TaskHistoryRepository, redis: RedisStore)
      ensures this.repo == repo && this.redis == redis
    {
      this.repo := repo;
      this.redis := redis;
    }

    /** `_update_task_history`: the method meets the atomic specification of one delivery. */
    method UpdateTaskHistory(d: Delivery) returns (updated: bool)
      requires repo.Valid()
      modifies repo
      ensures repo.Valid()
      ensures repo.rows == Process(old(repo.rows), d)
      ensures WorkedInto(old(repo.rows), repo.rows, d.code, d.action, d.amrCode, d.errorMsg, d.time)
      ensures SameIdentities(old(repo.rows), repo.rows)
      ensures updated <==> HasLive(old(repo.rows), d.code)
    {
      hide WorkedInto;
      ProcessWorks(repo.rows, d);
      ghost var before := repo.rows;
      var existing := repo.GetByRobotTaskCode(d.code);
      if existing.None? {
        return false;
      }
      var at :| 0 <= at < |repo.rows| && repo.rows[at].robotTaskCode == d.code;
      FindCodeAt(repo.rows, at);
      assert forall i | 0 <= i < |before| && before[i].robotTaskCode == d.code :: before[i] == existing.value;
      if Terminal(existing.value.status) {
        return false;
      }
      var startTime, endTime := None, None;
      if d.action == "start" && existing.value.startTime.None? {
        startTime := Some(d.time);
      }
      if Terminal(Target(d)) {
        endTime := Some(d.time);
      }
      var rowcount := repo.UpdateStatus(d.code, Target(d), startTime, endTime, d.errorMsg, d.amrCode);
      updated := rowcount > 0;
    }

    /** `_process_task_feedback_async`; the robot state is written whether or not the row moved. */
    method ProcessTaskFeedback(p: Payload, now: nat) returns (updated: bool, cacheUpdated: bool)
      requires repo.Valid()
      modifies repo, redis`entries
      ensures repo.Valid()
      ensures Strip(p.robotTaskCode) == "" || Strip(p.action) == "" ==>
                !updated && !cacheUpdated && repo.rows == old(repo.rows) && redis.entries == old(redis.entries)
      ensures Received(p, now).Some? ==> repo.rows == Process(old(repo.rows), Received(p, now).value)
      ensures Strip(p.robotTaskCode) != "" && Strip(p.action) != "" ==>
                WorkedInto(old(repo.rows), repo.rows, Strip(p.robotTaskCode), Strip(p.action), p.amrCode, p.errorMsg, now)
      ensures updated <==>
                Strip(p.robotTaskCode) != "" && Strip(p.action) != "" && HasLive(old(repo.rows), Strip(p.robotTaskCode))
      ensures cacheUpdated <==>
                Strip(p.robotTaskCode) != "" && Strip(p.action) != "" && p.amrCode.Some? && p.amrCode.value != ""
      ensures redis.entries ==
                if !cacheUpdated then old(redis.entries)
                else old(redis.entries)["robot:" + p.amrCode.value + ":state" := Entry(
                  Obj(map[
                    "amrCode" := Str(p.amrCode.value),
                    "x" := p.x,
                    "y" := p.y,
                    "state" := Str(if Strip(p.action) == "start" || Strip(p.action) == "outbin" then "running"
                                   else if Strip(p.action) == "end" then "completed"
                                   else "failed"),
                    "lastTaskCode" := Str(p.robotTaskCode),
                    "updatedAt" := Num(now)]),
                  Some(redis.now + 300))]
    {
      hide Strip, Process, HasLive, WorkedInto;
      var code, action := Strip(p.robotTaskCode), Strip(p.action);
      updated, cacheUpdated := false, false;
      if code == "" || action == "" {
        return;
      }
      updated := UpdateTaskHistory(Delivery(code, action, p.amrCode, p.errorMsg, now));
      if p.amrCode.Some? && p.amrCode.value != "" {
        redis.SetEx(RobotStateKey(p.amrCode.value), ROBOT_STATE_TTL_SECONDS,
                    RobotState(p, p.amrCode.value, TargetOf(action), now));
        cacheUpdated := true;
      }
    }
  }
}
