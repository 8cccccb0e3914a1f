/** The `task_history` table, its unique columns, and the repository that reads and updates it. */
module TaskTable {
  import opened Wrappers

  datatype TaskStatus = Pending | Running | Completed | Failed | Cancelled

  predicate Terminal(s: TaskStatus) {
    s.Completed? || s.Failed? || s.Cancelled?
  }

  datatype TaskRow = TaskRow(
    robotTaskCode: string,
    status: TaskStatus,
    robotCode: Option<string>,
    sourceCode: Option<string>,
    targetCode: Option<string>,
    idempotencyKey: Option<string>,
    startTime: Option<nat>,
    endTime: Option<nat>,
    errorMsg: Option<string>)

  type Table = seq<TaskRow>

  /** A row as `create` writes it: no times, no error. */
  function FreshRow(code: string, status: TaskStatus, source: Option<string>, target: Option<string>,
                    robot: Option<string>, key: Option<string>): TaskRow
  {
    TaskRow(code, status, robot, source, target, key, None, None, None)
  }

  /** Two rows violate a unique column: the same code, or the same key when both have one. */
  predicate Clash(a: TaskRow, b: TaskRow) {
    || a.robotTaskCode == b.robotTaskCode
    || (a.idempotencyKey.Some? && a.idempotencyKey == b.idempotencyKey)
  }

  predicate Unique(rows: Table) {
    forall i, j | 0 <= i < j < |rows| :: !Clash(rows[i], rows[j])
  }

  predicate Admits(rows: Table, row: TaskRow) {
    forall i | 0 <= i < |rows| :: !Clash(rows[i], row)
  }

  /** `SELECT ... WHERE robot_task_code = code` */
  function FindCode(rows: Table, code: string): (r: Option<TaskRow>)
    ensures r.Some? ==> r.value in rows && r.value.robotTaskCode == code
    ensures r.None? ==> forall i | 0 <= i < |rows| :: rows[i].robotTaskCode != code
  {
    if rows == [] then None
    else if rows[0].robotTaskCode == code then Some(rows[0])
    else FindCode(rows[1..], code)
  }

  /** The unique column makes the selected row the row at its index. */
  lemma FindCodeAt(rows: Table, i: nat)
    requires Unique(rows) && i < |rows|
    ensures FindCode(rows, rows[i].robotTaskCode) == Some(rows[i])
  {
    var found := FindCode(rows, rows[i].robotTaskCode);
    var j :| 0 <= j < |rows| && rows[j] == found.value;
    assert Clash(rows[i], rows[j]) && Clash(rows[j], rows[i]);
  }

  /** The columns one `UPDATE` assigns; an absent column is left alone. */
  datatype Patch = Patch(status: TaskStatus, startTime: Option<nat>, endTime: Option<nat>,
                         errorMsg: Option<string>, robotCode: Option<string>)

  function OrElse<T>(new_: Option<T>, old_: Option<T>): Option<T> {
    if new_.Some? then new_ else old_
  }

  function Patched(row: TaskRow, p: Patch): TaskRow {
    row.(status := p.status,
         startTime := OrElse(p.startTime, row.startTime),
         endTime := OrElse(p.endTime, row.endTime),
         errorMsg := OrElse(p.errorMsg, row.errorMsg),
         robotCode := OrElse(p.robotCode, row.robotCode))
  }

  /** `UPDATE task_history SET ... WHERE robot_task_code = code` */
  function UpdateWhere(rows: Table, code: string, p: Patch): (rows': Table)
    ensures |rows'| == |rows|
  {
    seq(|rows|, i requires 0 <= i < |rows| =>
      if rows[i].robotTaskCode == code then Patched(rows[i], p) else rows[i])
  }

  /** The columns no update ever assigns. */
  predicate SameIdentity(a: TaskRow, b: TaskRow) {
    && a.robotTaskCode == b.robotTaskCode
    && a.idempotencyKey == b.idempotencyKey
    && a.sourceCode == b.sourceCode
    && a.targetCode == b.targetCode
  }

  /** Same rows in the same order as far as the identity columns go. */
  predicate SameIdentities(a: Table, b: Table) {
    |a| == |b| && forall i | 0 <= i < |a| :: SameIdentity(a[i], b[i])
  }

  lemma IdentitiesDecideClashes(a: Table, b: Table, row: TaskRow)
    requires SameIdentities(a, b)
    ensures Unique(a) == Unique(b)
    ensures Admits(a, row) == Admits(b, row)
  {
    assert forall i | 0 <= i < |a| :: Clash(a[i], row) == Clash(b[i], row);
    assert forall i, j | 0 <= i < j < |a| :: Clash(a[i], a[j]) == Clash(b[i], b[j]);
  }

  lemma UpdateKeepsIdentities(rows: Table, code: string, p: Patch)
    ensures SameIdentities(rows, UpdateWhere(rows, code, p))
    ensures Unique(UpdateWhere(rows, code, p)) == Unique(rows)
  {
    IdentitiesDecideClashes(rows, UpdateWhere(rows, code, p), FreshRow(code, p.status, None, None, None, None));
  }

  /** `SELECT count(*) WHERE status = s` */
  function CountByStatus(rows: Table, s: TaskStatus): nat {
    if rows == [] then 0
    else CountByStatus(rows[..|rows| - 1], s) + if rows[|rows| - 1].status == s then 1 else 0
  }

  datatype IntegrityError = DuplicateCode | DuplicateKey

  class TaskHistoryRepository {
    /** The committed rows, in insertion order. */
    var rows: Table

    ghost predicate Valid()
      reads this
    {
      Unique(rows)
    }

    constructor ()
      ensures Valid() && rows == []
    {
      rows := [];
    }

    method GetByRobotTaskCode(code: string) returns (r: Option<TaskRow>)
      requires Valid()
      ensures r.Some? <==> exists i :: 0 <= i < |rows| && rows[i].robotTaskCode == code
      ensures forall i | 0 <= i < |rows| && rows[i].robotTaskCode == code :: r == Some(rows[i])
    {
      r := FindCode(rows, code);
      forall i | 0 <= i < |rows| && rows[i].robotTaskCode == code
        ensures r == Some(rows[i])
      {
        FindCodeAt(rows, i);
      }
    }

    /** Insert and commit: the unique columns arbitrate, and a refused insert changes nothing. */
    method Create(code: string, status: TaskStatus, source: Option<string>, target: Option<string>,
                  robot: Option<string>, key: Option<string>) returns (r: Result<TaskRow, IntegrityError>)
      requires Valid()
      modifies this
      ensures Valid()
      ensures r.Ok? <==> forall i | 0 <= i < |old(rows)| ::
                 && old(rows)[i].robotTaskCode != code
                 && (key.Some? ==> old(rows)[i].idempotencyKey != key)
      ensures r.Ok? <==> Admits(old(rows), FreshRow(code, status, source, target, robot, key))
      ensures r.Ok? ==> r.value == FreshRow(code, status, source, target, robot, key)
      ensures r.Ok? ==> r.value == TaskRow(code, status, robot, source, target, key, None, None, None)
      ensures r.Ok? ==> rows == old(rows) + [r.value]
      ensures r.Err? ==> rows == old(rows)
    {
      var item := FreshRow(code, status, source, target, robot, key);
      assert forall i | 0 <= i < |rows| ::
          Clash(rows[i], item) <==>
          rows[i].robotTaskCode == code || (key.Some? && rows[i].idempotencyKey == key);
      if !Admits(rows, item) {
        r := Err(if exists i :: 0 <= i < |rows| && rows[i].robotTaskCode == code then DuplicateCode else DuplicateKey);
      } else {
        rows := rows + [item];
        r := Ok(item);
      }
    }

    /** The `values` dictionary grows assignment by assignment before the update is issued. */
    method UpdateStatus(code: string, status: TaskStatus, startTime: Option<nat>, endTime: Option<nat>,
                        errorMsg: Option<string>, robotCode: Option<string>) returns (rowcount: nat)
      requires Valid()
      modifies this
      ensures Valid()
      ensures rows == UpdateWhere(old(rows), code, Patch(status, startTime, endTime, errorMsg, robotCode))
      ensures SameIdentities(old(rows), rows)
      ensures forall i | 0 <= i < |rows| ::
                if old(rows)[i].robotTaskCode != code then rows[i] == old(rows)[i]
                else
                  && rows[i].status == status
                  && rows[i].startTime == (if startTime.Some? then startTime else old(rows)[i].startTime)
                  && rows[i].endTime == (if endTime.Some? then endTime else old(rows)[i].endTime)
                  && rows[i].errorMsg == (if errorMsg.Some? then errorMsg else old(rows)[i].errorMsg)
                  && rows[i].robotCode == (if robotCode.Some? then robotCode else old(rows)[i].robotCode)
      ensures rowcount == if FindCode(old(rows), code).Some? then 1 else 0
    {
      var values := Patch(status, None, None, None, None);
      if startTime.Some? {
        values := values.(startTime := startTime);
      }
      if endTime.Some? {
        values := values.(endTime := endTime);
      }
      if errorMsg.Some? {
        values := values.(errorMsg := errorMsg);
      }
      if robotCode.Some? {
        values := values.(robotCode := robotCode);
      }
      assert values == Patch(status, startTime, endTime, errorMsg, robotCode);
      var found := FindCode(rows, code);
      rowcount := if found.Some? then 1 else 0;
      UpdateKeepsIdentities(rows, code, values);
      rows := UpdateWhere(rows, code, values);
    }
  }
}
