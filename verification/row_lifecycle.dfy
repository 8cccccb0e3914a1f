/** The life of a task row over whole runs of endpoints and workers, and the dashboard's counters. */
module RowLifecycle {
  import opened Wrappers
  import opened TaskTable
  import opened RcsClient
  import opened Feedback
  import opened Submission
  import opened SubmissionSafety

  // ---------------------------------------------------------------- what a row can look like

  /** A pending row is blank, an end time marks exactly the final states, times are in order. */
  predicate RowSound(row: TaskRow, now: nat) {
    && (row.status.Pending? ==>
          row.startTime.None? && row.endTime.None? && row.robotCode.None? && row.errorMsg.None?)
    && (row.endTime.Some? <==> Terminal(row.status))
    && !row.status.Cancelled?
    && (row.startTime.Some? ==> row.startTime.value <= now)
    && (row.endTime.Some? ==> row.endTime.value <= now)
    && (row.startTime.Some? && row.endTime.Some? ==> row.startTime.value <= row.endTime.value)
  }

  ghost predicate RowsSound(rows: Table, now: nat) {
    forall r | 0 <= r < |rows| :: RowSound(rows[r], now)
  }

  lemma AbsorbKeepsSound(row: TaskRow, d: Delivery)
    requires RowSound(row, d.time)
    ensures RowSound(Absorb(row, d), d.time)
  {
  }

  /** What an event does to the table: nothing, one fresh row at the end, or one delivery. */
  lemma TableEffect(w: World, e: Event)
    requires Unique(w.shared.rows)
    ensures var rows, rows' := w.shared.rows, Step(w, e).shared.rows;
            || rows' == rows
            || (exists job, code :: rows' == rows + [RowOf(job, code)])
            || (exists d: Delivery :: d.time == w.shared.now && rows' == Process(rows, d))
    ensures Step(w, e).shared.now >= w.shared.now
  {
    hide Process, RowOf, AfterLookup, AfterCall, CommittedAnswer, Envelope, CacheSlot, Admits;
    match e
    case Advance(i, _, _) =>
      if Step(w, e).shared.rows != w.shared.rows {
        var c := w.clients[i];
        assert Step(w, e).shared.rows == w.shared.rows + [RowOf(c.job, c.pc.code)];
      }
    case Worker(p) =>
      if Received(p, w.shared.now).Some? {
        var d := Received(p, w.shared.now).value;
        assert d.time == w.shared.now && Step(w, e).shared.rows == Process(w.shared.rows, d);
      }
    case _ =>
  }

  /** How one row of the table moves in one step: identity kept, rank never falls. */
  predicate RowAdvances(before: TaskRow, after: TaskRow) {
    && SameIdentity(before, after)
    && (after.status != before.status ==> Rank(after.status) > Rank(before.status))
    && (Terminal(before.status) ==> after == before)
  }

  lemma StepAdvancesRows(w: World, e: Event)
    requires Unique(w.shared.rows)
    ensures |Step(w, e).shared.rows| >= |w.shared.rows|
    ensures forall r | 0 <= r < |w.shared.rows| :: RowAdvances(w.shared.rows[r], Step(w, e).shared.rows[r])
  {
    hide Step, Process, RowOf, Absorb;
    TableEffect(w, e);
    var rows, rows' := w.shared.rows, Step(w, e).shared.rows;
    if d: Delivery :| d.time == w.shared.now && rows' == Process(rows, d) {
      ProcessIsPointwise(rows, d);
      forall r | 0 <= r < |rows|
        ensures RowAdvances(rows[r], rows'[r])
      {
        StatusIsMonotone(rows[r], d);
      }
    } else {
      assert forall r | 0 <= r < |rows| :: rows'[r] == rows[r];
    }
  }

  lemma StepKeepsRowsSound(w: World, e: Event)
    requires Unique(w.shared.rows) && RowsSound(w.shared.rows, w.shared.now)
    ensures RowsSound(Step(w, e).shared.rows, Step(w, e).shared.now)
  {
    hide Step, Process, Absorb;
    TableEffect(w, e);
    var rows, rows' := w.shared.rows, Step(w, e).shared.rows;
    if d: Delivery :| d.time == w.shared.now && rows' == Process(rows, d) {
      ProcessIsPointwise(rows, d);
      forall r | 0 <= r < |rows'|
        ensures RowSound(rows'[r], Step(w, e).shared.now)
      {
        AbsorbKeepsSound(rows[r], d);
      }
    }
  }

  /**
   * Row lifecycle: in every table reachable from a sound one, a pending row is blank, an end time
   * is set exactly in the final states and never precedes the start time, and no row is cancelled.
   */
  lemma {:induction false} RowsStaySound(w: World, es: seq<Event>)
    requires Initial(w) && RowsSound(w.shared.rows, w.shared.now)
    ensures RowsSound(Run(w, es).shared.rows, Run(w, es).shared.now)
  {
    hide Step, RowsSound, Inv;
    if es != [] {
      RowsStaySound(w, es[..|es| - 1]);
      ReachableIsUnique(w, es[..|es| - 1]);
      StepKeepsRowsSound(Run(w, es[..|es| - 1]), es[|es| - 1]);
    }
  }

  lemma ReachableIsUnique(w: World, es: seq<Event>)
    requires Initial(w)
    ensures Unique(Run(w, es).shared.rows)
  {
    InitialInv(w);
    RunKeepsInv(w, es);
  }

  // ---------------------------------------------------------------- over a run

  /** How often the row at index r changes its status during a run. */
  function StatusChanges(w: World, es: seq<Event>, r: nat): nat {
    if es == [] then 0
    else
      var before, after := Run(w, es[..|es| - 1]).shared.rows, Run(w, es).shared.rows;
      StatusChanges(w, es[..|es| - 1], r) +
      if r < |before| && r < |after| && before[r].status != after[r].status then 1 else 0
  }

  lemma {:induction false} ChangesBoundedByRank(w: World, es: seq<Event>, r: nat)
    requires Initial(w)
    ensures r < |Run(w, es).shared.rows| ==> StatusChanges(w, es, r) <= Rank(Run(w, es).shared.rows[r].status)
    ensures r >= |Run(w, es).shared.rows| ==> StatusChanges(w, es, r) == 0
  {
    hide Step, Rank;
    if es != [] {
      ChangesBoundedByRank(w, es[..|es| - 1], r);
      ReachableIsUnique(w, es[..|es| - 1]);
      StepAdvancesRows(Run(w, es[..|es| - 1]), es[|es| - 1]);
    }
  }

  /** No row changes status more than twice, in any run. */
  lemma AtMostTwoChanges(w: World, es: seq<Event>, r: nat)
    requires Initial(w)
    ensures StatusChanges(w, es, r) <= 2
  {
    ChangesBoundedByRank(w, es, r);
  }

  /**
   * From any moment of a run to any later one, for rows there from the start and rows inserted on
   * the way alike: rows are never removed, keep code, key and route, never fall in rank, and stay
   * put once final.
   */
  lemma {:induction false} RowsPersist(w: World, es: seq<Event>, n: nat)
    requires Initial(w) && n <= |es|
    ensures |Run(w, es).shared.rows| >= |Run(w, es[..n]).shared.rows|
    ensures forall r | 0 <= r < |Run(w, es[..n]).shared.rows| ::
              var earlier, later := Run(w, es[..n]).shared.rows[r], Run(w, es).shared.rows[r];
              && SameIdentity(earlier, later)
              && Rank(later.status) >= Rank(earlier.status)
              && (Terminal(earlier.status) ==> later == earlier)
  {
    hide Step, Rank, Initial;
    if n == |es| {
      assert es[..n] == es;
    } else {
      var init := es[..|es| - 1];
      assert init[..n] == es[..n];
      RowsPersist(w, init, n);
      ReachableIsUnique(w, init);
      StepAdvancesRows(Run(w, init), es[|es| - 1]);
    }
  }

  // ---------------------------------------------------------------- counters

  lemma {:induction false} StatusesPartition(rows: Table)
    ensures CountByStatus(rows, Pending) + CountByStatus(rows, Running) + CountByStatus(rows, Completed) +
            CountByStatus(rows, Failed) + CountByStatus(rows, Cancelled) == |rows|
    ensures (forall r | 0 <= r < |rows| :: !rows[r].status.Cancelled?) ==> CountByStatus(rows, Cancelled) == 0
  {
    if rows != [] {
      StatusesPartition(rows[..|rows| - 1]);
    }
  }

  /** On every reachable table the four status counts add up to the total, for nothing is ever cancelled. */
  lemma CountersAddUp(w: World, es: seq<Event>)
    requires Initial(w) && RowsSound(w.shared.rows, w.shared.now)
    ensures var rows := Run(w, es).shared.rows;
            CountByStatus(rows, Pending) + CountByStatus(rows, Running) + CountByStatus(rows, Completed) +
            CountByStatus(rows, Failed) == |rows|
  {
    RowsStaySound(w, es);
    StatusesPartition(Run(w, es).shared.rows);
  }
}
