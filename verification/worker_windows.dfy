/**
 * The worker split at its await: a read that takes a snapshot of the row, and later an update
 * whose WHERE clause names the code only. Any number of workers interleave, while the submitting
 * endpoints insert rows.
 */
module WorkerWindows {
  import opened Wrappers
  import opened TaskTable
  import opened Feedback

  /** Between read and commit a worker holds its delivery and the row as it was read. */
  datatype Window = Window(delivery: Delivery, snapshot: TaskRow)

  datatype Half =
    | Read(worker: nat, delivery: Delivery)
    | Commit(worker: nat)
    | Abandon(worker: nat)
    | Insert(row: TaskRow)

  /** What changes the table as a whole: a delivery processed atomically, or a row inserted. */
  datatype Effect = Delivered(delivery: Delivery) | Inserted(row: TaskRow)

  /** `serial` lists what has taken effect, in order. */
  datatype State = State(rows: Table, windows: map<nat, Window>, serial: seq<Effect>)

  function Initial(rows: Table): State {
    State(rows, map[], [])
  }

  /** A read that finds nothing to do takes effect at once; a busy or idle worker's step is void. */
  function Step(s: State, h: Half): State {
    match h
    case Read(w, d) =>
      var existing := FindCode(s.rows, d.code);
      if w in s.windows then s
      else if existing.None? || Terminal(existing.value.status) then s.(serial := s.serial + [Delivered(d)])
      else s.(windows := s.windows[w := Window(d, existing.value)])
    case Commit(w) =>
      if w !in s.windows then s
      else
        var d := s.windows[w].delivery;
        State(UpdateWhere(s.rows, d.code, PatchFor(s.windows[w].snapshot, d)), s.windows - {w}, s.serial + [Delivered(d)])
    case Abandon(w) =>
      s.(windows := s.windows - {w})
    case Insert(row) =>
      if Admits(s.rows, row) then s.(rows := s.rows + [row], serial := s.serial + [Inserted(row)]) else s
  }

  function Apply(rows: Table, e: Effect): Table {
    match e
    case Delivered(d) => Process(rows, d)
    case Inserted(row) => if Admits(rows, row) then rows + [row] else rows
  }

  function ApplyAll(rows: Table, effects: seq<Effect>): Table {
    if effects == [] then rows else Apply(ApplyAll(rows, effects[..|effects| - 1]), effects[|effects| - 1])
  }

  function Deliveries(effects: seq<Effect>): seq<Delivery> {
    if effects == [] then []
    else
      Deliveries(effects[..|effects| - 1]) +
      if effects[|effects| - 1].Delivered? then [effects[|effects| - 1].delivery] else []
  }

  /** Without inserts a serial run is a delivery sequence, and all that holds of those holds of it. */
  lemma {:induction false} DeliveriesOnly(rows: Table, effects: seq<Effect>)
    requires forall e | e in effects :: e.Delivered?
    ensures ApplyAll(rows, effects) == ProcessAll(rows, Deliveries(effects))
  {
    if effects != [] {
      var init, last := effects[..|effects| - 1], effects[|effects| - 1];
      DeliveriesOnly(rows, init);
      assert Deliveries(effects) == Deliveries(init) + [last.delivery];
      assert (Deliveries(init) + [last.delivery])[..|Deliveries(init)|] == Deliveries(init);
    }
  }

  function Run(s: State, hs: seq<Half>): State {
    if hs == [] then s else Step(Run(s, hs[..|hs| - 1]), hs[|hs| - 1])
  }

  /** No worker reads a task while another has a window open on it. */
  predicate ReadsApart(s: State, h: Half) {
    h.Read? ==> forall w | w in s.windows :: s.windows[w].delivery.code != h.delivery.code
  }

  ghost predicate WindowsApart(s: State, hs: seq<Half>) {
    forall n | 0 <= n < |hs| :: ReadsApart(Run(s, hs[..n]), hs[n])
  }

  /** Every open window shows its row as it still is, live, and no two show the same row. */
  ghost predicate WindowsCurrent(s: State) {
    && Unique(s.rows)
    && (forall w | w in s.windows ::
         && FindCode(s.rows, s.windows[w].delivery.code) == Some(s.windows[w].snapshot)
         && !Terminal(s.windows[w].snapshot.status))
    && (forall v, w | v in s.windows && w in s.windows && v != w ::
         s.windows[v].delivery.code != s.windows[w].delivery.code)
  }

  lemma OtherCodesUnaffected(rows: Table, code: string, p: Patch, other: string)
    requires other != code
    ensures FindCode(UpdateWhere(rows, code, p), other) == FindCode(rows, other)
  {
    if rows != [] {
      assert UpdateWhere(rows, code, p)[1..] == UpdateWhere(rows[1..], code, p);
      OtherCodesUnaffected(rows[1..], code, p, other);
    }
  }

  /** A row at the end hides no row before it. */
  lemma AppendKeepsFound(rows: Table, row: TaskRow, code: string)
    requires FindCode(rows, code).Some?
    ensures FindCode(rows + [row], code) == FindCode(rows, code)
  {
    if rows != [] {
      assert (rows + [row])[1..] == rows[1..] + [row];
      if rows[0].robotTaskCode != code {
        AppendKeepsFound(rows[1..], row, code);
      }
    }
  }

  lemma InsertKeepsWindowsCurrent(s: State, row: TaskRow)
    requires WindowsCurrent(s) && Admits(s.rows, row)
    ensures WindowsCurrent(s.(rows := s.rows + [row]))
  {
    hide FindCode;
    forall w | w in s.windows
      ensures FindCode(s.rows + [row], s.windows[w].delivery.code) == Some(s.windows[w].snapshot)
    {
      AppendKeepsFound(s.rows, row, s.windows[w].delivery.code);
    }
  }

  lemma UpdateKeepsWindowsCurrent(s: State, w: nat, p: Patch)
    requires WindowsCurrent(s) && w in s.windows
    ensures WindowsCurrent(s.(rows := UpdateWhere(s.rows, s.windows[w].delivery.code, p), windows := s.windows - {w}))
  {
    hide UpdateWhere, FindCode, Unique;
    var code := s.windows[w].delivery.code;
    UpdateKeepsIdentities(s.rows, code, p);
    forall v | v in s.windows - {w}
      ensures FindCode(UpdateWhere(s.rows, code, p), s.windows[v].delivery.code) == Some(s.windows[v].snapshot)
    {
      OtherCodesUnaffected(s.rows, code, p, s.windows[v].delivery.code);
    }
  }

  lemma CurrentIgnoresSerial(s: State, s': State)
    requires WindowsCurrent(s) && s'.rows == s.rows && s'.windows == s.windows
    ensures WindowsCurrent(s')
  {
  }

  lemma StepKeepsWindowsCurrent(s: State, h: Half)
    requires WindowsCurrent(s) && ReadsApart(s, h)
    ensures WindowsCurrent(Step(s, h))
  {
    hide UpdateWhere, PatchFor, FindCode, Unique;
    match h
    case Read(w, d) =>
      if existing :| FindCode(s.rows, d.code) == Some(existing) && !Terminal(existing.status) && w !in s.windows {
        assert Step(s, h) == s.(windows := s.windows[w := Window(d, existing)]);
      }
    case Commit(w) =>
      if w in s.windows {
        UpdateKeepsWindowsCurrent(s, w, PatchFor(s.windows[w].snapshot, s.windows[w].delivery));
      }
    case Abandon(w) =>
    case Insert(row) =>
      if Admits(s.rows, row) {
        InsertKeepsWindowsCurrent(s, row);
        assert Step(s, h).rows == s.rows + [row] && Step(s, h).windows == s.windows;
        CurrentIgnoresSerial(s.(rows := s.rows + [row]), Step(s, h));
      }
  }

  lemma {:induction false} WindowsStayCurrent(rows: Table, hs: seq<Half>)
    requires Unique(rows) && WindowsApart(Initial(rows), hs)
    ensures WindowsCurrent(Run(Initial(rows), hs))
  {
    if hs != [] {
      var init := hs[..|hs| - 1];
      assert forall n | 0 <= n < |init| :: init[..n] == hs[..n] && init[n] == hs[n];
      WindowsStayCurrent(rows, init);
      StepKeepsWindowsCurrent(Run(Initial(rows), init), hs[|hs| - 1]);
    }
  }

  // ---------------------------------------------------------------- when a stale read does no harm

  /** What a commit assigns changes nothing in a row that is already final. */
  predicate AlreadyShown(current: TaskRow, d: Delivery) {
    && current.status == Target(d)
    && current.endTime == Some(d.time)
    && (d.errorMsg.Some? ==> current.errorMsg == d.errorMsg)
    && (d.amrCode.Some? ==> current.robotCode == d.amrCode)
  }

  /** A `start` decided on what it read whether to set the start time; the row still calls for the same. */
  predicate StartStillRight(current: TaskRow, snapshot: TaskRow, d: Delivery) {
    d.action == "start" ==>
      || (snapshot.startTime.None? <==> current.startTime.None?)
      || (snapshot.startTime.None? && current.startTime == Some(d.time))
  }

  /** The row as the commit finds it, the row as the worker read it, and the delivery. */
  predicate Harmless(current: TaskRow, snapshot: TaskRow, d: Delivery) {
    if Terminal(current.status) then AlreadyShown(current, d) else StartStillRight(current, snapshot, d)
  }

  /** Exactly when a commit from a stale read leaves the row an atomic delivery would leave. */
  lemma StaleCommit(current: TaskRow, snapshot: TaskRow, d: Delivery)
    requires Concerns(current, d)
    ensures Patched(current, PatchFor(snapshot, d)) == Absorb(current, d) <==> Harmless(current, snapshot, d)
    ensures Patched(current, PatchFor(snapshot, d)).status == Absorb(current, d).status <==>
              !Terminal(current.status) || current.status == Target(d)
  {
  }

  /** A commit finds its row gone, or is harmless to it. Every other half-step is harmless. */
  predicate CommitHarmless(s: State, h: Half) {
    h.Commit? && h.worker in s.windows ==>
      var Window(d, snapshot) := s.windows[h.worker];
      FindCode(s.rows, d.code).Some? ==> Harmless(FindCode(s.rows, d.code).value, snapshot, d)
  }

  /** The same, asked only of commits that find their row final. */
  predicate FinalCommitHarmless(s: State, h: Half) {
    h.Commit? && h.worker in s.windows ==>
      var Window(d, snapshot) := s.windows[h.worker];
      var found := FindCode(s.rows, d.code);
      found.Some? && Terminal(found.value.status) ==> Harmless(found.value, snapshot, d)
  }

  lemma PatchMissesOthers(rows: Table, code: string, p: Patch)
    requires FindCode(rows, code).None?
    ensures UpdateWhere(rows, code, p) == rows
  {
  }

  /** What an update does, row by row, in terms of the row its code selects. */
  lemma UpdateAt(rows: Table, code: string, p: Patch, i: nat)
    requires Unique(rows) && i < |rows|
    ensures rows[i].robotTaskCode == code ==> FindCode(rows, code) == Some(rows[i])
    ensures UpdateWhere(rows, code, p)[i] == if rows[i].robotTaskCode == code then Patched(rows[i], p) else rows[i]
  {
    FindCodeAt(rows, i);
  }

  /** A commit has the effect of one whole atomic delivery exactly when it is harmless. */
  lemma CommitIsAtomicIff(s: State, w: nat)
    requires Unique(s.rows) && w in s.windows
    ensures Step(s, Commit(w)).rows == Process(s.rows, s.windows[w].delivery) <==> CommitHarmless(s, Commit(w))
  {
    hide UpdateWhere, Process, FindCode, PatchFor, Harmless, Absorb, Patched;
    var Window(d, snapshot) := s.windows[w];
    var p := PatchFor(snapshot, d);
    var stale, whole := UpdateWhere(s.rows, d.code, p), Process(s.rows, d);
    if FindCode(s.rows, d.code).None? {
      PatchMissesOthers(s.rows, d.code, p);
      NothingToProcess(s.rows, d);
    } else {
      var current := FindCode(s.rows, d.code).value;
      StaleCommit(current, snapshot, d);
      ProcessIsPointwise(s.rows, d);
      forall i | 0 <= i < |s.rows|
        ensures stale[i] == if s.rows[i].robotTaskCode == d.code then Patched(current, p) else s.rows[i]
        ensures whole[i] == if s.rows[i].robotTaskCode == d.code then Absorb(current, d) else s.rows[i]
      {
        UpdateAt(s.rows, d.code, p, i);
        if s.rows[i].robotTaskCode != d.code {
          OthersUnconcerned(s.rows[i], d);
        } else {
          assert FindCode(s.rows, d.code) == Some(s.rows[i]);
        }
      }
      var at :| 0 <= at < |s.rows| && s.rows[at] == current;
      assert stale == whole <==> stale[at] == whole[at];
    }
  }

  lemma NothingToProcess(rows: Table, d: Delivery)
    requires FindCode(rows, d.code).None? || Terminal(FindCode(rows, d.code).value.status)
    ensures Process(rows, d) == rows
  {
  }

  lemma OthersUnconcerned(row: TaskRow, d: Delivery)
    requires row.robotTaskCode != d.code
    ensures Absorb(row, d) == row
  {
  }

  lemma StepKeepsUnique(s: State, h: Half)
    requires Unique(s.rows)
    ensures Unique(Step(s, h).rows) && |Step(s, h).rows| >= |s.rows|
  {
    hide UpdateWhere, PatchFor, FindCode;
    if h.Commit? && h.worker in s.windows {
      UpdateKeepsIdentities(s.rows, s.windows[h.worker].delivery.code,
                            PatchFor(s.windows[h.worker].snapshot, s.windows[h.worker].delivery));
    }
  }

  lemma {:induction false} RunKeepsUnique(rows: Table, hs: seq<Half>)
    requires Unique(rows)
    ensures Unique(Run(Initial(rows), hs).rows)
  {
    hide Step;
    if hs != [] {
      RunKeepsUnique(rows, hs[..|hs| - 1]);
      StepKeepsUnique(Run(Initial(rows), hs[..|hs| - 1]), hs[|hs| - 1]);
    }
  }

  // ---------------------------------------------------------------- serialisability

  /** In every state of the run the table is that of the atomic run of what has taken effect so far. */
  ghost predicate RunsAtomically(rows: Table, hs: seq<Half>) {
    Atomic(rows, Run(Initial(rows), hs)) && (hs != [] ==> RunsAtomically(rows, hs[..|hs| - 1]))
  }

  ghost predicate Atomic(rows: Table, s: State) {
    s.rows == ApplyAll(rows, s.serial)
  }

  ghost predicate CommitsHarmless(rows: Table, hs: seq<Half>) {
    hs != [] ==>
      CommitHarmless(Run(Initial(rows), hs[..|hs| - 1]), hs[|hs| - 1]) && CommitsHarmless(rows, hs[..|hs| - 1])
  }

  lemma ApplyOneMore(rows: Table, serial: seq<Effect>, e: Effect)
    ensures ApplyAll(rows, serial + [e]) == Apply(ApplyAll(rows, serial), e)
  {
    hide Apply;
    assert (serial + [e])[..|serial|] == serial;
  }

  /** From a table that is the atomic one, the next half-step leads to the atomic one iff it is harmless. */
  lemma StepIsAtomicIff(rows: Table, s: State, h: Half)
    requires Unique(s.rows) && Atomic(rows, s)
    ensures Atomic(rows, Step(s, h)) <==> CommitHarmless(s, h)
  {
    hide Process, CommitHarmless, Unique, UpdateWhere, FindCode, PatchFor, ApplyAll;
    match h
    case Read(w, d) =>
      ApplyOneMore(rows, s.serial, Delivered(d));
      if w !in s.windows && Step(s, h).serial != s.serial {
        NothingToProcess(s.rows, d);
      }
      OnlyCommitsHarm(s, h);
    case Commit(w) =>
      if w in s.windows {
        ApplyOneMore(rows, s.serial, Delivered(s.windows[w].delivery));
        CommitIsAtomicIff(s, w);
      } else {
        OnlyCommitsHarm(s, h);
      }
    case Abandon(_) => OnlyCommitsHarm(s, h);
    case Insert(row) =>
      ApplyOneMore(rows, s.serial, Inserted(row));
      OnlyCommitsHarm(s, h);
  }

  lemma OnlyCommitsHarm(s: State, h: Half)
    requires h.Commit? ==> h.worker !in s.windows
    ensures CommitHarmless(s, h)
  {
  }

  /**
   * Serialisability, exactly: for all half-steps of any number of workers on any table with unique
   * columns, with rows inserted meanwhile, the table is at every moment that of an atomic run in order of effect if and only if
   * every commit finds its row gone or is harmless to it.
   */
  lemma {:induction false} SerialisableIff(rows: Table, hs: seq<Half>)
    requires Unique(rows)
    ensures RunsAtomically(rows, hs) <==> CommitsHarmless(rows, hs)
  {
    hide Step, CommitHarmless, Unique, Atomic;
    if hs == [] {
      NothingYet(rows);
    } else {
      var init := hs[..|hs| - 1];
      SerialisableIff(rows, init);
      RunKeepsUnique(rows, init);
      if RunsAtomically(rows, init) {
        StepIsAtomicIff(rows, Run(Initial(rows), init), hs[|hs| - 1]);
      }
    }
  }

  lemma NothingYet(rows: Table)
    ensures Atomic(rows, Initial(rows))
  {
  }

  /** A window that shows its row as it still is commits harmlessly. */
  lemma CurrentIsHarmless(s: State, h: Half)
    requires WindowsCurrent(s)
    ensures CommitHarmless(s, h)
  {
  }

  lemma ApartCommitIsHarmless(rows: Table, hs: seq<Half>, n: nat)
    requires Unique(rows) && WindowsApart(Initial(rows), hs) && n < |hs|
    ensures CommitHarmless(Run(Initial(rows), hs[..n]), hs[n])
  {
    hide WindowsCurrent, CommitHarmless, ReadsApart, Run;
    assert forall k | 0 <= k < n :: hs[..n][..k] == hs[..k] && hs[..n][k] == hs[k];
    WindowsStayCurrent(rows, hs[..n]);
    CurrentIsHarmless(Run(Initial(rows), hs[..n]), hs[n]);
  }

  lemma {:induction false} ApartIsHarmless(rows: Table, hs: seq<Half>)
    requires Unique(rows) && WindowsApart(Initial(rows), hs)
    ensures CommitsHarmless(rows, hs)
  {
    hide CommitHarmless, ReadsApart, Run;
    if hs != [] {
      var init := hs[..|hs| - 1];
      assert forall k | 0 <= k < |init| :: init[..k] == hs[..k] && init[k] == hs[k];
      ApartIsHarmless(rows, init);
      ApartCommitIsHarmless(rows, hs, |init|);
    }
  }

  /**
   * Serialisability: if windows on one task never overlap, every interleaving of half-steps over
   * any number of tasks and workers, with rows inserted meanwhile, ends in the table of the atomic run
   * in order of effect.
   */
  lemma Serialisable(rows: Table, hs: seq<Half>)
    requires Unique(rows) && WindowsApart(Initial(rows), hs)
    ensures Run(Initial(rows), hs).rows == ApplyAll(rows, Run(Initial(rows), hs).serial)
  {
    ApartIsHarmless(rows, hs);
    SerialisableIff(rows, hs);
  }

  // ---------------------------------------------------------------- terminal absorption

  /** A row that has become final is never changed again. */
  ghost predicate FinalRowsStay(rows: Table, hs: seq<Half>) {
    forall m, n, i | 0 <= m <= n <= |hs| && 0 <= i && FinalAt(rows, hs, m, i) ::
      RowAt(rows, hs, n, i) == RowAt(rows, hs, m, i)
  }

  /** Row i after the first n half-steps, if it has been inserted by then. */
  function RowAt(rows: Table, hs: seq<Half>, n: nat, i: nat): Option<TaskRow>
    requires n <= |hs|
  {
    var now := Run(Initial(rows), hs[..n]).rows;
    if i < |now| then Some(now[i]) else None
  }

  predicate FinalAt(rows: Table, hs: seq<Half>, n: nat, i: nat)
    requires n <= |hs|
  {
    RowAt(rows, hs, n, i).Some? && Terminal(RowAt(rows, hs, n, i).value.status)
  }

  ghost predicate FinalCommitsHarmless(rows: Table, hs: seq<Half>) {
    forall n | 0 <= n < |hs| :: FinalCommitHarmless(Run(Initial(rows), hs[..n]), hs[n])
  }

  /** A half-step leaves every final row alone exactly when it does not commit harm to one. */
  lemma StepKeepsFinalRowsIff(s: State, h: Half)
    requires Unique(s.rows)
    ensures |Step(s, h).rows| >= |s.rows|
    ensures (forall i | 0 <= i < |s.rows| && Terminal(s.rows[i].status) :: Step(s, h).rows[i] == s.rows[i]) <==>
              FinalCommitHarmless(s, h)
  {
    hide UpdateWhere, PatchFor, FindCode, Unique, Harmless, Patched;
    if h.Commit? && h.worker in s.windows {
      var Window(d, snapshot) := s.windows[h.worker];
      var p := PatchFor(snapshot, d);
      forall i | 0 <= i < |s.rows| && Terminal(s.rows[i].status)
        ensures Step(s, h).rows[i] == s.rows[i] <==>
                  (s.rows[i].robotTaskCode == d.code ==> Harmless(s.rows[i], snapshot, d))
        ensures s.rows[i].robotTaskCode == d.code ==> FindCode(s.rows, d.code) == Some(s.rows[i])
      {
        UpdateAt(s.rows, d.code, p, i);
        if s.rows[i].robotTaskCode == d.code {
          StaleCommit(s.rows[i], snapshot, d);
          StatusIsMonotone(s.rows[i], d);
        }
      }
      if found :| FindCode(s.rows, d.code) == Some(found) {
        var at :| 0 <= at < |s.rows| && s.rows[at] == found;
      }
    }
  }

  lemma {:induction false} FinalRowStays(rows: Table, hs: seq<Half>, m: nat, n: nat, i: nat)
    requires Unique(rows) && FinalCommitsHarmless(rows, hs)
    requires m <= n <= |hs| && FinalAt(rows, hs, m, i)
    ensures RowAt(rows, hs, n, i) == RowAt(rows, hs, m, i)
  {
    if m < n {
      hide Step, FinalCommitHarmless, Unique;
      FinalRowStays(rows, hs, m, n - 1, i);
      assert hs[..n][..n - 1] == hs[..n - 1];
      RunKeepsUnique(rows, hs[..n - 1]);
      StepKeepsFinalRowsIff(Run(Initial(rows), hs[..n - 1]), hs[n - 1]);
    }
  }

  /**
   * Terminal absorption, exactly: over all half-steps of any number of workers, final rows never
   * change if and only if every commit that finds its row final is harmless to it.
   */
  lemma FinalRowsStayIff(rows: Table, hs: seq<Half>)
    requires Unique(rows)
    ensures FinalRowsStay(rows, hs) <==> FinalCommitsHarmless(rows, hs)
  {
    hide Step, FinalCommitHarmless, Unique;
    if FinalRowsStay(rows, hs) {
      forall n | 0 <= n < |hs|
        ensures FinalCommitHarmless(Run(Initial(rows), hs[..n]), hs[n])
      {
        var s := Run(Initial(rows), hs[..n]);
        assert hs[..n + 1][..n] == hs[..n];
        RunKeepsUnique(rows, hs[..n]);
        StepKeepsFinalRowsIff(s, hs[n]);
        forall i | 0 <= i < |s.rows| && Terminal(s.rows[i].status)
          ensures Step(s, hs[n]).rows[i] == s.rows[i]
        {
          assert FinalAt(rows, hs, n, i);
          assert RowAt(rows, hs, n + 1, i) == RowAt(rows, hs, n, i);
        }
      }
    }
    if FinalCommitsHarmless(rows, hs) {
      forall m, n, i | 0 <= m <= n <= |hs| && 0 <= i && FinalAt(rows, hs, m, i)
        ensures RowAt(rows, hs, n, i) == RowAt(rows, hs, m, i)
      {
        FinalRowStays(rows, hs, m, n, i);
      }
    }
  }

  /** With windows apart a row that has become final never changes again. */
  lemma FinalRowsSurvive(rows: Table, hs: seq<Half>)
    requires Unique(rows) && WindowsApart(Initial(rows), hs)
    ensures FinalRowsStay(rows, hs)
  {
    hide CommitHarmless, FinalCommitHarmless, WindowsApart, Run;
    forall n | 0 <= n < |hs|
      ensures FinalCommitHarmless(Run(Initial(rows), hs[..n]), hs[n])
    {
      ApartCommitIsHarmless(rows, hs, n);
      HarmlessToFinalRows(Run(Initial(rows), hs[..n]), hs[n]);
    }
    FinalRowsStayIff(rows, hs);
  }

  lemma HarmlessToFinalRows(s: State, h: Half)
    requires CommitHarmless(s, h)
    ensures FinalCommitHarmless(s, h)
  {
  }

  // ---------------------------------------------------------------- nothing is lost unseen

  /** The delivery a half-step takes up, if any. */
  function Opens(s: State, h: Half): multiset<Delivery> {
    if h.Read? && h.worker !in s.windows then multiset{h.delivery} else multiset{}
  }

  /** The delivery a half-step loses, if any: its worker crashed or rolled back. */
  function Drops(s: State, h: Half): multiset<Delivery> {
    if h.Abandon? && h.worker in s.windows then multiset{s.windows[h.worker].delivery} else multiset{}
  }

  /** The deliveries read over a run, with multiplicity. */
  function Opened(s: State, hs: seq<Half>): multiset<Delivery> {
    if hs == [] then multiset{}
    else Opened(s, hs[..|hs| - 1]) + Opens(Run(s, hs[..|hs| - 1]), hs[|hs| - 1])
  }

  function Dropped(s: State, hs: seq<Half>): multiset<Delivery> {
    if hs == [] then multiset{}
    else Dropped(s, hs[..|hs| - 1]) + Drops(Run(s, hs[..|hs| - 1]), hs[|hs| - 1])
  }

  /** The deliveries the first n workers hold open. */
  function Held(windows: map<nat, Window>, n: nat): multiset<Delivery> {
    if n == 0 then multiset{}
    else Held(windows, n - 1) + if n - 1 in windows then multiset{windows[n - 1].delivery} else multiset{}
  }

  lemma {:induction false} HeldWithOne(windows: map<nat, Window>, w: nat, win: Window, n: nat)
    requires w !in windows
    ensures Held(windows[w := win], n) == Held(windows, n) + if w < n then multiset{win.delivery} else multiset{}
  {
    if n > 0 {
      HeldWithOne(windows, w, win, n - 1);
    }
  }

  lemma HeldWithout(windows: map<nat, Window>, w: nat, n: nat)
    requires w in windows
    ensures Held(windows, n) == Held(windows - {w}, n) + if w < n then multiset{windows[w].delivery} else multiset{}
  {
    HeldWithOne(windows - {w}, w, windows[w], n);
    assert (windows - {w})[w := windows[w]] == windows;
  }

  /** The deliveries that have taken effect, with multiplicity. */
  function Effective(serial: seq<Effect>): multiset<Delivery> {
    multiset(Deliveries(serial))
  }

  lemma OneMoreEffect(serial: seq<Effect>, e: Effect)
    ensures Effective(serial + [e]) == Effective(serial) + if e.Delivered? then multiset{e.delivery} else multiset{}
  {
    assert (serial + [e])[..|serial|] == serial;
  }

  /** Everything a state answers for: what has taken effect and what n workers hold open. */
  function Accounted(s: State, n: nat): multiset<Delivery> {
    Effective(s.serial) + Held(s.windows, n)
  }

  lemma ReadAccounts(s: State, w: nat, d: Delivery, n: nat)
    requires w < n
    ensures Accounted(Step(s, Read(w, d)), n) == Accounted(s, n) + Opens(s, Read(w, d))
  {
    hide FindCode, Effective, Held;
    var s' := Step(s, Read(w, d));
    if w !in s.windows {
      if w in s'.windows {
        HeldWithOne(s.windows, w, s'.windows[w], n);
      } else {
        OneMoreEffect(s.serial, Delivered(d));
      }
    }
  }

  lemma CommitAccounts(s: State, w: nat, n: nat)
    requires w < n
    ensures Accounted(Step(s, Commit(w)), n) == Accounted(s, n)
  {
    hide UpdateWhere, PatchFor, Effective, Held;
    if w in s.windows {
      OneMoreEffect(s.serial, Delivered(s.windows[w].delivery));
      HeldWithout(s.windows, w, n);
    }
  }

  lemma AbandonAccounts(s: State, w: nat, n: nat)
    requires w < n
    ensures Accounted(Step(s, Abandon(w)), n) + Drops(s, Abandon(w)) == Accounted(s, n)
  {
    hide Effective, Held;
    if w in s.windows {
      HeldWithout(s.windows, w, n);
    } else {
      assert s.windows - {w} == s.windows;
    }
  }

  lemma InsertAccounts(s: State, row: TaskRow, n: nat)
    ensures Accounted(Step(s, Insert(row)), n) == Accounted(s, n)
  {
    hide Effective, Held, Admits;
    OneMoreEffect(s.serial, Inserted(row));
  }

  lemma StepAccounts(s: State, h: Half, n: nat)
    requires !h.Insert? ==> h.worker < n
    ensures Accounted(Step(s, h), n) + Drops(s, h) == Accounted(s, n) + Opens(s, h)
  {
    hide Accounted, Step;
    match h
    case Read(w, d) => ReadAccounts(s, w, d, n);
    case Commit(w) => CommitAccounts(s, w, n);
    case Abandon(w) => AbandonAccounts(s, w, n);
    case Insert(row) => InsertAccounts(s, row, n);
  }

  /** Conservation: a delivery read by one of n workers took effect once, is held open, or was dropped. */
  lemma {:induction false} ReadsAreAccounted(rows: Table, hs: seq<Half>, n: nat)
    requires forall h | h in hs && !h.Insert? :: h.worker < n
    ensures Opened(Initial(rows), hs) == Accounted(Run(Initial(rows), hs), n) + Dropped(Initial(rows), hs)
  {
    hide Step, Opens, Drops;
    if hs == [] {
      NothingHeld(n);
    } else {
      hide Accounted;
      var init, h := hs[..|hs| - 1], hs[|hs| - 1];
      ReadsAreAccounted(rows, init, n);
      var s := Run(Initial(rows), init);
      StepAccounts(s, h, n);
      AddDropped(Accounted(s, n), Opens(s, h), Accounted(Step(s, h), n), Drops(s, h), Dropped(Initial(rows), init));
    }
  }

  lemma AddDropped(a: multiset<Delivery>, opens: multiset<Delivery>, b: multiset<Delivery>, drops: multiset<Delivery>,
                   dropped: multiset<Delivery>)
    requires b + drops == a + opens
    ensures a + dropped + opens == b + (dropped + drops)
  {
    assert a + dropped + opens == (a + opens) + dropped;
    assert b + (dropped + drops) == (b + drops) + dropped;
  }

  lemma NothingHeld(n: nat)
    ensures Held(map[], n) == multiset{}
  {
  }

  // ---------------------------------------------------------------- one worker, undisturbed

  /** A worker that reads and commits with nobody in between processes its delivery whole. */
  lemma UndisturbedWorker(s: State, w: nat, d: Delivery)
    requires Unique(s.rows) && w !in s.windows
    ensures Step(Step(s, Read(w, d)), Commit(w)) ==
              State(Process(s.rows, d), s.windows, s.serial + [Delivered(d)])
  {
    hide UpdateWhere, PatchFor, FindCode, Unique;
    var read := Step(s, Read(w, d));
    if w in read.windows {
      assert read.windows - {w} == s.windows;
      assert FindCode(s.rows, d.code) == Some(read.windows[w].snapshot);
      ProcessOfFound(s.rows, d);
    } else {
      NothingToProcess(s.rows, d);
      assert s.windows - {w} == s.windows;
    }
  }

  lemma ProcessOfFound(rows: Table, d: Delivery)
    requires FindCode(rows, d.code).Some? && !Terminal(FindCode(rows, d.code).value.status)
    ensures Process(rows, d) == UpdateWhere(rows, d.code, PatchFor(FindCode(rows, d.code).value, d))
  {
  }

  // ---------------------------------------------------------------- overlapping windows

  const LATE_START := Delivery("T", "start", None, None, 5)
  const EARLY_END := Delivery("T", "end", None, None, 3)
  const ONE_TASK: Table := [FreshRow("T", Pending, None, None, None, None)]
  const OVERLAP := [Read(0, LATE_START), Read(1, EARLY_END), Commit(1), Commit(0)]

  /** Overlapping windows do lose a final status: a completed task goes back to running. */
  lemma OverlapReopensATask()
    ensures |Run(Initial(ONE_TASK), OVERLAP[..3]).rows| == |Run(Initial(ONE_TASK), OVERLAP).rows| == 1
    ensures Run(Initial(ONE_TASK), OVERLAP[..3]).rows[0].status == Completed
    ensures Run(Initial(ONE_TASK), OVERLAP).rows[0].status == Running
    ensures Run(Initial(ONE_TASK), OVERLAP).rows[0].endTime == Some(3)
  {
    var s0 := Initial(ONE_TASK);
    var s1 := Step(s0, OVERLAP[0]);
    var s2 := Step(s1, OVERLAP[1]);
    var s3 := Step(s2, OVERLAP[2]);
    assert Run(s0, OVERLAP[..0]) == s0;
    assert OVERLAP[..1][..0] == OVERLAP[..0];
    assert Run(s0, OVERLAP[..1]) == s1;
    assert OVERLAP[..2][..1] == OVERLAP[..1];
    assert Run(s0, OVERLAP[..2]) == s2;
    assert OVERLAP[..3][..2] == OVERLAP[..2];
    assert Run(s0, OVERLAP[..3]) == s3;
    assert OVERLAP[..|OVERLAP| - 1] == OVERLAP[..3];
  }
}
