/**
 * The feedback worker: one delivery folded into the task table, and what any sequence of
 * deliveries does to a row, however the queue reorders and repeats them.
 */
module Feedback {
  import opened Wrappers
  import opened Text
  import opened Json
  import opened TaskTable

  /** The fields of a queued feedback message the worker reads. */
  datatype Payload = Payload(robotTaskCode: string, action: string, amrCode: Option<string>, errorMsg: Option<string>,
                             x: Json, y: Json)

  /** What reaches the table: the stripped code and method, and the instant of processing. */
  datatype Delivery = Delivery(code: string, action: string, amrCode: Option<string>,
                               errorMsg: Option<string>, time: nat)

  /** A message without a code or a method is discarded. */
  function Received(p: Payload, now: nat): Option<Delivery> {
    if Strip(p.robotTaskCode) == "" || Strip(p.action) == "" then None
    else Some(Delivery(Strip(p.robotTaskCode), Strip(p.action), p.amrCode, p.errorMsg, now))
  }

  /** The method table; an unknown method counts as a failure. */
  function TargetOf(action: string): (s: TaskStatus)
    ensures !s.Pending? && !s.Cancelled?
  {
    if action == "start" || action == "outbin" then Running
    else if action == "end" then Completed
    else Failed
  }

  function Target(d: Delivery): TaskStatus {
    TargetOf(d.action)
  }

  /** The columns the worker assigns, given the row it has read. */
  function PatchFor(existing: TaskRow, d: Delivery): Patch {
    Patch(Target(d),
          if d.action == "start" && existing.startTime.None? then Some(d.time) else None,
          if Terminal(Target(d)) then Some(d.time) else None,
          d.errorMsg,
          d.amrCode)
  }

  /** `_update_task_history` as one atomic step: read, check, update, commit. */
  function Process(rows: Table, d: Delivery): (rows': Table)
    ensures |rows'| == |rows|
  {
    var existing := FindCode(rows, d.code);
    if existing.None? || Terminal(existing.value.status) then rows
    else UpdateWhere(rows, d.code, PatchFor(existing.value, d))
  }

  function ProcessAll(rows: Table, ds: seq<Delivery>): (rows': Table)
    ensures |rows'| == |rows|
  {
    if ds == [] then rows else Process(ProcessAll(rows, ds[..|ds| - 1]), ds[|ds| - 1])
  }

  // ---------------------------------------------------------------- one row at a time

  predicate Concerns(row: TaskRow, d: Delivery) {
    d.code == row.robotTaskCode
  }

  /** What a delivery does to one row. */
  function Absorb(row: TaskRow, d: Delivery): (row': TaskRow)
    ensures SameIdentity(row, row')
  {
    if Concerns(row, d) && !Terminal(row.status) then Patched(row, PatchFor(row, d)) else row
  }

  function AbsorbAll(row: TaskRow, ds: seq<Delivery>): (row': TaskRow)
    ensures SameIdentity(row, row')
  {
    if ds == [] then row else Absorb(AbsorbAll(row, ds[..|ds| - 1]), ds[|ds| - 1])
  }

  /** Under the unique column a delivery acts on every row by itself. */
  lemma ProcessIsPointwise(rows: Table, d: Delivery)
    requires Unique(rows)
    ensures forall i | 0 <= i < |rows| :: Process(rows, d)[i] == Absorb(rows[i], d)
    ensures SameIdentities(rows, Process(rows, d))
    ensures Unique(Process(rows, d))
  {
    forall i | 0 <= i < |rows|
      ensures Process(rows, d)[i] == Absorb(rows[i], d)
    {
      FindCodeAt(rows, i);
    }
    IdentitiesDecideClashes(rows, Process(rows, d), FreshRow("", Pending, None, None, None, None));
  }

  lemma {:induction false} ProcessAllIsPointwise(rows: Table, ds: seq<Delivery>)
    requires Unique(rows)
    ensures forall i | 0 <= i < |rows| :: ProcessAll(rows, ds)[i] == AbsorbAll(rows[i], ds)
    ensures Unique(ProcessAll(rows, ds))
  {
    if ds != [] {
      ProcessAllIsPointwise(rows, ds[..|ds| - 1]);
      ProcessIsPointwise(ProcessAll(rows, ds[..|ds| - 1]), ds[|ds| - 1]);
    }
  }

  // ---------------------------------------------------------------- terminal states and monotonicity

  function Rank(s: TaskStatus): nat {
    match s
    case Pending => 0
    case Running => 1
    case _ => 2
  }

  /** A status never moves back, moves only to a strictly higher rank, and a final one absorbs everything. */
  lemma StatusIsMonotone(row: TaskRow, d: Delivery)
    ensures Absorb(row, d).status != row.status ==> Rank(Absorb(row, d).status) > Rank(row.status)
    ensures Terminal(row.status) ==> Absorb(row, d) == row
    ensures Absorb(row, d).status.Cancelled? ==> row.status.Cancelled?
  {
  }

  lemma {:induction false} TerminalAbsorbs(row: TaskRow, ds: seq<Delivery>)
    requires Terminal(row.status)
    ensures AbsorbAll(row, ds) == row
  {
    if ds != [] {
      TerminalAbsorbs(row, ds[..|ds| - 1]);
    }
  }

  // ---------------------------------------------------------------- duplicates

  /** The columns redelivery must not disturb. `robot_code` and `error_msg` may be overwritten. */
  datatype Core = Core(status: TaskStatus, startTime: Option<nat>, endTime: Option<nat>)

  function CoreOf(row: TaskRow): Core {
    Core(row.status, row.startTime, row.endTime)
  }

  /** Two deliveries of one call: same code and method, whatever else they carry. */
  predicate SameCall(a: Delivery, b: Delivery) {
    a.code == b.code && a.action == b.action
  }

  /** The row already shows everything a call of this method can do to its core. */
  predicate HasAbsorbed(row: TaskRow, action: string) {
    || Terminal(row.status)
    || (row.status.Running? && TargetOf(action).Running? && (action == "start" ==> row.startTime.Some?))
  }

  lemma AbsorbingLasts(row: TaskRow, d: Delivery, action: string)
    ensures Concerns(row, d) ==> HasAbsorbed(Absorb(row, d), d.action)
    ensures HasAbsorbed(row, action) ==> HasAbsorbed(Absorb(row, d), action)
    ensures HasAbsorbed(row, d.action) ==> CoreOf(Absorb(row, d)) == CoreOf(row)
  {
  }

  lemma {:induction false} ProcessedIsAbsorbed(row: TaskRow, ds: seq<Delivery>, i: nat)
    requires i < |ds| && Concerns(row, ds[i])
    ensures HasAbsorbed(AbsorbAll(row, ds), ds[i].action)
  {
    var init := ds[..|ds| - 1];
    if i < |init| {
      ProcessedIsAbsorbed(row, init, i);
      assert init[i] == ds[i];
    }
    AbsorbingLasts(AbsorbAll(row, init), ds[|ds| - 1], ds[i].action);
  }

  /** The core after a delivery depends on the core before it and on nothing else in the row. */
  lemma CoreDetermines(a: TaskRow, b: TaskRow, d: Delivery)
    requires CoreOf(a) == CoreOf(b) && a.robotTaskCode == b.robotTaskCode
    ensures CoreOf(Absorb(a, d)) == CoreOf(Absorb(b, d))
  {
  }

  /** A repeat of a processed delivery leaves the core alone. */
  lemma RepeatIsInvisible(row: TaskRow, ds: seq<Delivery>, i: nat, d: Delivery)
    requires i < |ds| && SameCall(ds[i], d)
    ensures CoreOf(Absorb(AbsorbAll(row, ds), d)) == CoreOf(AbsorbAll(row, ds))
  {
    hide TargetOf;
    if Concerns(row, d) {
      ProcessedIsAbsorbed(row, ds, i);
      AbsorbingLasts(AbsorbAll(row, ds), d, d.action);
    }
  }

  /** The deliveries a dedupe layer lets through. */
  function Kept(ds: seq<Delivery>, keep: seq<bool>): seq<Delivery>
    requires |keep| == |ds|
  {
    if ds == [] then []
    else Kept(ds[..|ds| - 1], keep[..|ds| - 1]) + if keep[|ds| - 1] then [ds[|ds| - 1]] else []
  }

  /** Whatever is dropped repeats an earlier delivery. */
  ghost predicate OnlyRepeatsDropped(ds: seq<Delivery>, keep: seq<bool>) {
    && |keep| == |ds|
    && forall i | 0 <= i < |ds| && !keep[i] :: exists j :: 0 <= j < i && SameCall(ds[j], ds[i])
  }

  /**
   * Redelivery and dedupe are invisible: adding or removing later copies of a call anywhere, any
   * number of them, leaves status and both times of every row as they were.
   */
  lemma {:induction false} DuplicatesAreTransparent(row: TaskRow, ds: seq<Delivery>, keep: seq<bool>)
    requires OnlyRepeatsDropped(ds, keep)
    ensures CoreOf(AbsorbAll(row, ds)) == CoreOf(AbsorbAll(row, Kept(ds, keep)))
  {
    hide Absorb, SameCall;
    if ds != [] {
      var n := |ds| - 1;
      var init, last := ds[..n], ds[n];
      assert OnlyRepeatsDropped(init, keep[..n]) by {
        forall i | 0 <= i < n && !keep[..n][i]
          ensures exists j :: 0 <= j < i && SameCall(init[j], init[i])
        {
          var j :| 0 <= j < i && SameCall(ds[j], ds[i]);
          assert SameCall(init[j], init[i]);
        }
      }
      DuplicatesAreTransparent(row, init, keep[..n]);
      if keep[n] {
        assert Kept(ds, keep) == Kept(init, keep[..n]) + [last];
        assert (Kept(init, keep[..n]) + [last])[..|Kept(init, keep[..n])|] == Kept(init, keep[..n]);
        CoreDetermines(AbsorbAll(row, init), AbsorbAll(row, Kept(init, keep[..n])), last);
      } else {
        var j :| 0 <= j < n && SameCall(ds[j], last);
        RepeatIsInvisible(row, init, j, last);
        assert Kept(ds, keep) == Kept(init, keep[..n]);
      }
    }
  }

  /** The same for a whole table. */
  lemma DuplicatesAreTransparentInTable(rows: Table, ds: seq<Delivery>, keep: seq<bool>)
    requires Unique(rows) && OnlyRepeatsDropped(ds, keep)
    ensures forall i | 0 <= i < |rows| ::
              CoreOf(ProcessAll(rows, ds)[i]) == CoreOf(ProcessAll(rows, Kept(ds, keep))[i])
  {
    ProcessAllIsPointwise(rows, ds);
    ProcessAllIsPointwise(rows, Kept(ds, keep));
    forall i | 0 <= i < |rows|
      ensures CoreOf(ProcessAll(rows, ds)[i]) == CoreOf(ProcessAll(rows, Kept(ds, keep))[i])
    {
      DuplicatesAreTransparent(rows[i], ds, keep);
    }
  }

  /** Which deliveries are the first of their call. */
  function FirstOfCall(ds: seq<Delivery>): seq<bool> {
    seq(|ds|, i requires 0 <= i < |ds| => !exists j :: 0 <= j < i && SameCall(ds[j], ds[i]))
  }

  /** At-least-once delivery does what exactly-once delivery of the first copies would do. */
  lemma FirstDeliveriesSuffice(row: TaskRow, ds: seq<Delivery>)
    ensures CoreOf(AbsorbAll(row, ds)) == CoreOf(AbsorbAll(row, Kept(ds, FirstOfCall(ds))))
  {
    DuplicatesAreTransparent(row, ds, FirstOfCall(ds));
  }

  // ---------------------------------------------------------------- closed form

  /** A delivery that moves the row to a final status when it gets there in time. */
  predicate Decides(row: TaskRow, d: Delivery) {
    Concerns(row, d) && Terminal(Target(d))
  }

  predicate Starts(row: TaskRow, d: Delivery) {
    Concerns(row, d) && d.action == "start"
  }

  ghost predicate Undecided(row: TaskRow, ds: seq<Delivery>) {
    forall i | 0 <= i < |ds| :: !Decides(row, ds[i])
  }

  /** The first deciding delivery stands at index i. */
  ghost predicate DecidedAt(row: TaskRow, ds: seq<Delivery>, i: int) {
    0 <= i < |ds| && Decides(row, ds[i]) && forall j | 0 <= j < i :: !Decides(row, ds[j])
  }

  /** The first `start` stands at index i, before anything has decided the row. */
  ghost predicate StartedAt(row: TaskRow, ds: seq<Delivery>, i: int) {
    0 <= i < |ds| && Starts(row, ds[i]) && forall j | 0 <= j < i :: !Decides(row, ds[j]) && !Starts(row, ds[j])
  }

  /** Without a deciding delivery a live row is running once anything reached it. */
  lemma {:induction false} ClosedFormUndecided(row: TaskRow, ds: seq<Delivery>)
    requires !Terminal(row.status) && Undecided(row, ds)
    ensures AbsorbAll(row, ds).status ==
              if exists i :: 0 <= i < |ds| && Concerns(row, ds[i]) then Running else row.status
    ensures AbsorbAll(row, ds).endTime == row.endTime
  {
    if ds != [] {
      var n := |ds| - 1;
      var init := ds[..n];
      ClosedFormUndecided(row, init);
      assert !Decides(row, ds[n]);
      if exists i :: 0 <= i < n && Concerns(row, init[i]) {
        var i :| 0 <= i < n && Concerns(row, init[i]);
        assert Concerns(row, ds[i]);
      } else {
        assert forall i | 0 <= i < n :: ds[i] == init[i];
      }
    }
  }

  /** The first deciding delivery fixes the final status and the end time, whatever follows. */
  lemma {:induction false} ClosedFormDecided(row: TaskRow, ds: seq<Delivery>, i: nat)
    requires !Terminal(row.status) && DecidedAt(row, ds, i)
    ensures AbsorbAll(row, ds).status == Target(ds[i])
    ensures AbsorbAll(row, ds).endTime == Some(ds[i].time)
  {
    var n := |ds| - 1;
    var init := ds[..n];
    if i == n {
      assert Undecided(row, init);
      ClosedFormUndecided(row, init);
    } else {
      assert init[i] == ds[i];
      ClosedFormDecided(row, init, i);
    }
  }

  /** A start time, once set, is never overwritten. */
  lemma {:induction false} StartTimeSticks(row: TaskRow, ds: seq<Delivery>, n: nat)
    requires n <= |ds|
    ensures AbsorbAll(row, ds[..n]).startTime.Some? ==>
              AbsorbAll(row, ds).startTime == AbsorbAll(row, ds[..n]).startTime
  {
    if n < |ds| {
      var init := ds[..|ds| - 1];
      StartTimeSticks(row, init, n);
      assert init[..n] == ds[..n];
    } else {
      assert ds[..n] == ds;
    }
  }

  /** Without a `start` in time there is no new start time. */
  lemma {:induction false} NoTimelyStart(row: TaskRow, ds: seq<Delivery>)
    requires !Terminal(row.status)
    requires forall i | 0 <= i < |ds| && Starts(row, ds[i]) :: !Undecided(row, ds[..i])
    ensures AbsorbAll(row, ds).startTime == row.startTime
  {
    if ds != [] {
      var init, last := ds[..|ds| - 1], ds[|ds| - 1];
      assert forall i | 0 <= i < |init| :: init[i] == ds[i] && init[..i] == ds[..i];
      hide Starts, Decides;
      NoTimelyStart(row, init);
      if Starts(row, last) {
        LiveIffUndecided(row, init);
      } else {
        OnlyStartsStart(AbsorbAll(row, init), last);
      }
    }
  }

  lemma OnlyStartsStart(row: TaskRow, d: Delivery)
    requires !Starts(row, d)
    ensures Absorb(row, d).startTime == row.startTime
  {
  }

  /** `start_time` is the stamp of the first `start` that precedes the decision, or untouched. */
  lemma ClosedFormStart(row: TaskRow, ds: seq<Delivery>)
    requires !Terminal(row.status)
    ensures row.startTime.Some? ==> AbsorbAll(row, ds).startTime == row.startTime
    ensures row.startTime.None? ==> forall i | StartedAt(row, ds, i) :: AbsorbAll(row, ds).startTime == Some(ds[i].time)
    ensures row.startTime.None? && (forall i | 0 <= i < |ds| :: !StartedAt(row, ds, i)) ==>
              AbsorbAll(row, ds).startTime.None?
  {
    hide Starts, Decides;
    StartTimeSticks(row, ds, 0);
    forall i | row.startTime.None? && StartedAt(row, ds, i)
      ensures AbsorbAll(row, ds).startTime == Some(ds[i].time)
    {
      FirstStartSets(row, ds, i);
    }
    if forall i | 0 <= i < |ds| :: !StartedAt(row, ds, i) {
      NoStartNoTimely(row, ds);
      NoTimelyStart(row, ds);
    }
  }

  lemma FirstStartSets(row: TaskRow, ds: seq<Delivery>, i: nat)
    requires !Terminal(row.status) && row.startTime.None? && StartedAt(row, ds, i)
    ensures AbsorbAll(row, ds).startTime == Some(ds[i].time)
  {
    var init := ds[..i];
    assert forall j | 0 <= j < i :: init[j] == ds[j];
    NoTimelyStart(row, init);
    LiveIffUndecided(row, init);
    assert ds[..i + 1][..i] == init;
    StartTimeSticks(row, ds, i + 1);
  }

  lemma TimelyStartHasFirst(row: TaskRow, ds: seq<Delivery>, i: nat)
    requires i < |ds| && Starts(row, ds[i]) && Undecided(row, ds[..i])
    ensures exists j :: 0 <= j < |ds| && StartedAt(row, ds, j)
  {
    hide Starts, Decides;
    assert forall j | 0 <= j < i :: ds[..i][j] == ds[j];
    FirstStart(row, ds[..i]);
    if j :| StartedAt(row, ds[..i], j) {
      assert StartedAt(row, ds, j);
    } else {
      assert StartedAt(row, ds, i);
    }
  }

  lemma NoStartNoTimely(row: TaskRow, ds: seq<Delivery>)
    requires forall i | 0 <= i < |ds| :: !StartedAt(row, ds, i)
    ensures forall i | 0 <= i < |ds| && Starts(row, ds[i]) :: !Undecided(row, ds[..i])
  {
    hide StartedAt, Starts, Undecided;
    forall i | 0 <= i < |ds| && Starts(row, ds[i])
      ensures !Undecided(row, ds[..i])
    {
      if Undecided(row, ds[..i]) {
        TimelyStartHasFirst(row, ds, i);
      }
    }
  }

  /** The delivery at index i still finds the row live. */
  ghost predicate Reaches(row: TaskRow, ds: seq<Delivery>, i: int) {
    0 <= i < |ds| && Concerns(row, ds[i]) && forall j | 0 <= j < i :: !Decides(row, ds[j])
  }

  /** Index i holds the last delivery that names a robot in time; -1 says there is none. */
  ghost predicate LastRobot(row: TaskRow, ds: seq<Delivery>, i: int) {
    && (i == -1 || (Reaches(row, ds, i) && ds[i].amrCode.Some?))
    && forall j | i < j < |ds| && Reaches(row, ds, j) :: ds[j].amrCode.None?
  }

  ghost predicate LastError(row: TaskRow, ds: seq<Delivery>, i: int) {
    && (i == -1 || (Reaches(row, ds, i) && ds[i].errorMsg.Some?))
    && forall j | i < j < |ds| && Reaches(row, ds, j) :: ds[j].errorMsg.None?
  }

  /** A row is live exactly while nothing has decided it. */
  lemma LiveIffUndecided(row: TaskRow, ds: seq<Delivery>)
    requires !Terminal(row.status)
    ensures Terminal(AbsorbAll(row, ds).status) <==> !Undecided(row, ds)
  {
    FirstDecision(row, ds);
    if i :| DecidedAt(row, ds, i) {
      ClosedFormDecided(row, ds, i);
    } else {
      ClosedFormUndecided(row, ds);
    }
  }

  /** What the last delivery does to the reports, and which deliveries still count without it. */
  lemma LastDelivery(row: TaskRow, ds: seq<Delivery>)
    requires ds != [] && !Terminal(row.status)
    ensures var init, last := ds[..|ds| - 1], ds[|ds| - 1];
            var before, after := AbsorbAll(row, init), AbsorbAll(row, ds);
            if Reaches(row, ds, |ds| - 1)
            then after.robotCode == OrElse(last.amrCode, before.robotCode) &&
                 after.errorMsg == OrElse(last.errorMsg, before.errorMsg)
            else after.robotCode == before.robotCode && after.errorMsg == before.errorMsg
    ensures forall i | 0 <= i < |ds| - 1 :: Reaches(row, ds[..|ds| - 1], i) == Reaches(row, ds, i)
  {
    var init := ds[..|ds| - 1];
    assert forall j | 0 <= j < |init| :: init[j] == ds[j];
    LiveIffUndecided(row, init);
  }

  /** `robot_code` is that of the last delivery that brought one in time, or untouched. */
  lemma {:induction false} ClosedFormRobot(row: TaskRow, ds: seq<Delivery>, i: int)
    requires !Terminal(row.status) && LastRobot(row, ds, i)
    ensures AbsorbAll(row, ds).robotCode == if i == -1 then row.robotCode else ds[i].amrCode
  {
    if ds != [] {
      hide AbsorbAll, Reaches;
      LastDelivery(row, ds);
      ReachesInRange(row, ds);
      var n := |ds| - 1;
      if i < n {
        assert forall j | 0 <= j < n :: ds[..n][j] == ds[j];
        ClosedFormRobot(row, ds[..n], i);
      }
    }
  }

  /** `error_msg` is that of the last delivery that brought one in time, or untouched. */
  lemma {:induction false} ClosedFormError(row: TaskRow, ds: seq<Delivery>, i: int)
    requires !Terminal(row.status) && LastError(row, ds, i)
    ensures AbsorbAll(row, ds).errorMsg == if i == -1 then row.errorMsg else ds[i].errorMsg
  {
    if ds != [] {
      hide AbsorbAll, Reaches;
      LastDelivery(row, ds);
      ReachesInRange(row, ds);
      var n := |ds| - 1;
      if i < n {
        assert forall j | 0 <= j < n :: ds[..n][j] == ds[j];
        ClosedFormError(row, ds[..n], i);
      }
    }
  }

  lemma ReachesInRange(row: TaskRow, ds: seq<Delivery>)
    ensures forall i | Reaches(row, ds, i) :: 0 <= i < |ds|
  {
  }

  lemma FirstDecision(row: TaskRow, ds: seq<Delivery>)
    ensures Undecided(row, ds) || exists i :: DecidedAt(row, ds, i)
  {
    if ds != [] {
      var init := ds[..|ds| - 1];
      FirstDecision(row, init);
      if !Undecided(row, init) {
        var i :| DecidedAt(row, init, i);
        assert forall j | 0 <= j <= i :: init[j] == ds[j];
        assert DecidedAt(row, ds, i);
      } else if Decides(row, ds[|ds| - 1]) {
        assert forall j | 0 <= j < |init| :: init[j] == ds[j];
        assert DecidedAt(row, ds, |ds| - 1);
      } else {
        assert forall j | 0 <= j < |init| :: init[j] == ds[j];
      }
    }
  }

  lemma FirstStart(row: TaskRow, ds: seq<Delivery>)
    requires Undecided(row, ds)
    ensures (exists i :: StartedAt(row, ds, i)) || forall i | 0 <= i < |ds| :: !Starts(row, ds[i])
  {
    if ds != [] {
      var init := ds[..|ds| - 1];
      assert forall j | 0 <= j < |init| :: init[j] == ds[j];
      FirstStart(row, init);
      if i :| StartedAt(row, init, i) {
        assert StartedAt(row, ds, i);
      } else if Starts(row, ds[|ds| - 1]) {
        assert StartedAt(row, ds, |ds| - 1);
      }
    }
  }

  // ---------------------------------------------------------------- the status machine, method by method

  /** A delivery for the row whose method is neither `start` nor `outbin`. */
  predicate Outside(row: TaskRow, d: Delivery) {
    d.code == row.robotTaskCode && d.action != "start" && d.action != "outbin"
  }

  /** The first such delivery stands at index i. */
  ghost predicate FirstOutside(row: TaskRow, ds: seq<Delivery>, i: int) {
    0 <= i < |ds| && Outside(row, ds[i]) && forall j | 0 <= j < i :: !Outside(row, ds[j])
  }

  lemma DecidesMeansOutside(row: TaskRow, d: Delivery)
    ensures Decides(row, d) <==> Outside(row, d)
    ensures Decides(row, d) ==> Target(d) == if d.action == "end" then Completed else Failed
  {
  }

  /** `start` and `outbin`, however many, never finish a task: it runs once one arrived, and has no end time. */
  lemma ProgressNeverFinishes(row: TaskRow, ds: seq<Delivery>)
    requires row.status.Pending? || row.status.Running?
    requires forall d | d in ds && d.code == row.robotTaskCode :: d.action == "start" || d.action == "outbin"
    ensures AbsorbAll(row, ds).status ==
              if exists d | d in ds :: d.code == row.robotTaskCode then Running else row.status
    ensures AbsorbAll(row, ds).endTime == row.endTime
  {
    hide Decides;
    forall i | 0 <= i < |ds|
      ensures !Decides(row, ds[i])
    {
      assert ds[i] in ds;
      DecidesMeansOutside(row, ds[i]);
    }
    ClosedFormUndecided(row, ds);
    if d :| d in ds && d.code == row.robotTaskCode {
      var i :| 0 <= i < |ds| && ds[i] == d;
      assert Concerns(row, ds[i]);
    } else {
      assert forall i | 0 <= i < |ds| :: ds[i] in ds;
    }
  }

  /**
   * A live task is completed exactly when the first delivery for it outside `start` and `outbin` is
   * `end`, and failed exactly when it is any other method; the end time is that delivery's.
   */
  lemma CompletedIff(row: TaskRow, ds: seq<Delivery>)
    requires row.status.Pending? || row.status.Running?
    ensures AbsorbAll(row, ds).status.Completed? <==> exists i :: FirstOutside(row, ds, i) && ds[i].action == "end"
    ensures AbsorbAll(row, ds).status.Failed? <==> exists i :: FirstOutside(row, ds, i) && ds[i].action != "end"
    ensures forall i | FirstOutside(row, ds, i) :: AbsorbAll(row, ds).endTime == Some(ds[i].time)
  {
    hide Decides, Outside, Target;
    forall d
      ensures Decides(row, d) <==> Outside(row, d)
      ensures Decides(row, d) ==> Target(d) == if d.action == "end" then Completed else Failed
    {
      DecidesMeansOutside(row, d);
    }
    assert forall i :: FirstOutside(row, ds, i) <==> DecidedAt(row, ds, i);
    FirstDecision(row, ds);
    if k :| DecidedAt(row, ds, k) {
      ClosedFormDecided(row, ds, k);
      assert FirstOutside(row, ds, k);
      assert forall i | FirstOutside(row, ds, i) :: i == k;
    } else {
      ClosedFormUndecided(row, ds);
    }
  }

  // ---------------------------------------------------------------- order

  ghost predicate Mentions(row: TaskRow, ds: seq<Delivery>, target: TaskStatus) {
    exists d | d in ds :: Decides(row, d) && Target(d) == target
  }

  /** Both an `end` and an unknown method are under way for the row. */
  ghost predicate Contested(row: TaskRow, ds: seq<Delivery>) {
    Mentions(row, ds, Completed) && Mentions(row, ds, Failed)
  }

  /** Without a contest the final status depends on which deliveries arrive, not on their order. */
  lemma UncontestedStatus(row: TaskRow, ds: seq<Delivery>)
    requires !Terminal(row.status) && !Contested(row, ds)
    ensures AbsorbAll(row, ds).status ==
              if Mentions(row, ds, Completed) then Completed
              else if Mentions(row, ds, Failed) then Failed
              else if exists d | d in ds :: Concerns(row, d) then Running
              else row.status
  {
    FirstDecision(row, ds);
    if i :| DecidedAt(row, ds, i) {
      ClosedFormDecided(row, ds, i);
      assert ds[i] in ds;
    } else {
      ClosedFormUndecided(row, ds);
      if exists d | d in ds :: Concerns(row, d) {
        var d :| d in ds && Concerns(row, d);
        var k :| 0 <= k < |ds| && ds[k] == d;
        assert Concerns(row, ds[k]);
      }
    }
  }

  /** The sequence with its i-th delivery arriving first. */
  function Promoted(ds: seq<Delivery>, i: nat): seq<Delivery>
    requires i < |ds|
  {
    [ds[i]] + (ds[..i] + ds[i + 1..])
  }

  lemma PromotedIsReordering(ds: seq<Delivery>, i: nat)
    requires i < |ds|
    ensures multiset(Promoted(ds, i)) == multiset(ds)
  {
    assert ds == ds[..i] + ([ds[i]] + ds[i + 1..]);
  }

  lemma PromotedDecides(row: TaskRow, ds: seq<Delivery>, target: TaskStatus) returns (order: seq<Delivery>)
    requires !Terminal(row.status) && Mentions(row, ds, target)
    ensures multiset(order) == multiset(ds) && AbsorbAll(row, order).status == target
  {
    var d :| d in ds && Decides(row, d) && Target(d) == target;
    var i :| 0 <= i < |ds| && ds[i] == d;
    order := Promoted(ds, i);
    PromotedIsReordering(ds, i);
    assert DecidedAt(row, order, 0);
    ClosedFormDecided(row, order, 0);
  }

  /** Arrival order can change a live row's final status exactly when the row is contested. */
  lemma OrderMattersIffContested(row: TaskRow, ds: seq<Delivery>)
    requires !Terminal(row.status)
    ensures (forall order: seq<Delivery> | multiset(order) == multiset(ds) ::
               AbsorbAll(row, order).status == AbsorbAll(row, ds).status)
            <==> !Contested(row, ds)
  {
    if Contested(row, ds) {
      var one := PromotedDecides(row, ds, Completed);
      var two := PromotedDecides(row, ds, Failed);
      assert AbsorbAll(row, one).status != AbsorbAll(row, two).status;
    } else {
      forall order: seq<Delivery> | multiset(order) == multiset(ds)
        ensures AbsorbAll(row, order).status == AbsorbAll(row, ds).status
      {
        assert forall d :: d in order <==> d in multiset(order);
        assert forall d :: d in ds <==> d in multiset(ds);
        UncontestedStatus(row, ds);
        UncontestedStatus(row, order);
      }
    }
  }

  /** With only the three documented methods every arrival order ends in the same status. */
  lemma KnownMethodsCommute(row: TaskRow, ds: seq<Delivery>, order: seq<Delivery>)
    requires forall d | d in ds :: d.action in {"start", "outbin", "end"}
    requires multiset(order) == multiset(ds)
    ensures AbsorbAll(row, order).status == AbsorbAll(row, ds).status
  {
    if Terminal(row.status) {
      TerminalAbsorbs(row, ds);
      TerminalAbsorbs(row, order);
    } else {
      OrderMattersIffContested(row, ds);
    }
  }
}
