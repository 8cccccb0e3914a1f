/** Recent alerts: the newest rows of two sources, concatenated, sorted and truncated. */
module Alerts {
  import opened Wrappers
  import opened Text
  import opened Timestamps

  /** A failed or cancelled task, and a webhook call with an invalid signature. */
  datatype FailedTask = FailedTask(code: string, cancelled: bool, errorMsg: Option<string>, updatedAt: Option<Instant>)
  datatype InvalidCall = InvalidCall(code: string, action: string, createdAt: Option<Instant>)

  datatype Alert = Alert(kind: string, severity: string, message: string, details: string, robotTaskCode: string,
                         timestamp: Option<string>)

  function IsoOrNone(t: Option<Instant>): Option<string> {
    if t.Some? then Some(Iso(t.value)) else None
  }

  function TaskAlert(r: FailedTask): Alert {
    Alert(if r.cancelled then "task_cancelled" else "task_failed",
          if r.cancelled then "warning" else "error",
          "G\U{f6}rev " + r.code + " " + if r.cancelled then "iptal edildi" else "ba\U{15f}ar\U{131}s\U{131}z",
          if r.errorMsg.Some? then r.errorMsg.value else "",
          r.code,
          IsoOrNone(r.updatedAt))
  }

  function CallAlert(r: InvalidCall): Alert {
    Alert("webhook_signature_invalid", "error",
          "Ge\U{e7}ersiz webhook imzas\U{131}: " + r.code + " (" + r.action + ")",
          "", r.code, IsoOrNone(r.createdAt))
  }

  /** `a.get("timestamp") or ""` */
  function Key(a: Alert): string {
    if a.timestamp.Some? then a.timestamp.value else ""
  }

  function Keys(alerts: seq<Alert>): seq<string> {
    seq(|alerts|, i requires 0 <= i < |alerts| => Key(alerts[i]))
  }

  function Take<T>(s: seq<T>, n: nat): seq<T> {
    if n < |s| then s[..n] else s
  }

  // ---------------------------------------------------------------- stable descending sort

  function Insert(a: Alert, sorted: seq<Alert>): (r: seq<Alert>)
    ensures forall x | x in r :: x == a || x in sorted
  {
    if sorted == [] || LexLe(Key(sorted[0]), Key(a)) then [a] + sorted
    else [sorted[0]] + Insert(a, sorted[1..])
  }

  /** `sort(key=..., reverse=True)`: descending, equal keys in their original order. */
  function SortDescending(alerts: seq<Alert>): seq<Alert> {
    if alerts == [] then [] else Insert(alerts[0], SortDescending(alerts[1..]))
  }

  predicate Descending(keys: seq<string>) {
    forall i, j | 0 <= i < j < |keys| :: LexLe(keys[j], keys[i])
  }

  lemma {:induction false} InsertIntoSorted(a: Alert, sorted: seq<Alert>)
    requires Descending(Keys(sorted))
    ensures multiset(Insert(a, sorted)) == multiset{a} + multiset(sorted)
    ensures Descending(Keys(Insert(a, sorted)))
  {
    hide LexLe;
    if sorted != [] && !LexLe(Key(sorted[0]), Key(a)) {
      var rest := sorted[1..];
      assert Keys(rest) == Keys(sorted)[1..];
      InsertIntoSorted(a, rest);
      assert sorted == [sorted[0]] + rest;
      LexTotal(Key(a), Key(sorted[0]));
      forall x | x in rest
        ensures LexLe(Key(x), Key(sorted[0]))
      {
        var k :| 0 <= k < |rest| && rest[k] == x;
        assert LexLe(Keys(sorted)[k + 1], Keys(sorted)[0]);
      }
      PrependLargest(sorted[0], Insert(a, rest));
    } else {
      forall j | 0 <= j < |sorted|
        ensures LexLe(Key(sorted[j]), Key(a))
      {
        if j > 0 {
          assert LexLe(Keys(sorted)[j], Keys(sorted)[0]);
          LexTransitive(Key(sorted[j]), Key(sorted[0]), Key(a));
        }
      }
      PrependLargest(a, sorted);
    }
  }

  lemma PrependLargest(a: Alert, sorted: seq<Alert>)
    requires Descending(Keys(sorted))
    requires forall j | 0 <= j < |sorted| :: LexLe(Key(sorted[j]), Key(a))
    ensures Descending(Keys([a] + sorted))
  {
    assert Keys([a] + sorted) == [Key(a)] + Keys(sorted);
  }

  /** The sort is a sort: a descending permutation. */
  lemma {:induction false} SortIsPermutation(alerts: seq<Alert>)
    ensures multiset(SortDescending(alerts)) == multiset(alerts)
    ensures Descending(Keys(SortDescending(alerts)))
  {
    if alerts != [] {
      hide Insert, Keys, Descending;
      SortIsPermutation(alerts[1..]);
      InsertIntoSorted(alerts[0], SortDescending(alerts[1..]));
      assert alerts == [alerts[0]] + alerts[1..];
    } else {
      assert Keys(alerts) == [];
    }
  }

  /** The alerts with this timestamp, in order. */
  function WithKey(alerts: seq<Alert>, key: string): seq<Alert> {
    if alerts == [] then [] else (if Key(alerts[0]) == key then [alerts[0]] else []) + WithKey(alerts[1..], key)
  }

  lemma {:induction false} InsertIsStable(a: Alert, sorted: seq<Alert>, key: string)
    ensures WithKey(Insert(a, sorted), key) == (if Key(a) == key then [a] else []) + WithKey(sorted, key)
  {
    hide LexLe, Key;
    if sorted == [] || LexLe(Key(sorted[0]), Key(a)) {
      assert ([a] + sorted)[1..] == sorted;
    } else {
      LexTotal(Key(a), Key(a));
      InsertIsStable(a, sorted[1..], key);
      assert ([sorted[0]] + Insert(a, sorted[1..]))[1..] == Insert(a, sorted[1..]);
    }
  }

  /** Alerts with one timestamp keep their order. */
  lemma {:induction false} SortIsStable(alerts: seq<Alert>, key: string)
    ensures WithKey(SortDescending(alerts), key) == WithKey(alerts, key)
  {
    if alerts != [] {
      SortIsStable(alerts[1..], key);
      InsertIsStable(alerts[0], SortDescending(alerts[1..]), key);
    }
  }

  // ---------------------------------------------------------------- merging two sorted lists

  /** On equal keys the first list goes first. */
  function Merge(a: seq<Alert>, b: seq<Alert>): seq<Alert> {
    if a == [] then b
    else if b == [] then a
    else if LexLe(Key(b[0]), Key(a[0])) then [a[0]] + Merge(a[1..], b)
    else [b[0]] + Merge(a, b[1..])
  }

  lemma {:induction false} InsertIntoMerge(x: Alert, a: seq<Alert>, b: seq<Alert>)
    requires a != [] ==> LexLe(Key(a[0]), Key(x))
    ensures Insert(x, Merge(a, b)) == Merge([x] + a, b)
    decreases |b|
  {
    hide LexLe, Key;
    assert ([x] + a)[1..] == a;
    if b != [] && !LexLe(Key(b[0]), Key(x)) {
      InsertIntoMerge(x, a, b[1..]);
      if a != [] {
        BelowStays(Key(b[0]), Key(x), Key(a[0]));
      }
      assert Merge(a, b) == [b[0]] + Merge(a, b[1..]);
      assert ([b[0]] + Merge(a, b[1..]))[1..] == Merge(a, b[1..]);
    }
  }

  lemma BelowStays(high: string, middle: string, low: string)
    requires !LexLe(high, middle) && LexLe(low, middle)
    ensures !LexLe(high, low)
  {
    if LexLe(high, low) {
      LexTransitive(high, low, middle);
    }
  }

  lemma {:induction false} SortedStays(alerts: seq<Alert>)
    requires Descending(Keys(alerts))
    ensures SortDescending(alerts) == alerts
  {
    if alerts != [] {
      assert Keys(alerts[1..]) == Keys(alerts)[1..];
      SortedStays(alerts[1..]);
      if |alerts| > 1 {
        assert LexLe(Keys(alerts)[1], Keys(alerts)[0]);
      }
    }
  }

  /** Sorting two sorted lists together is merging them, ties included. */
  lemma {:induction false} SortIsMerge(a: seq<Alert>, b: seq<Alert>)
    requires Descending(Keys(a)) && Descending(Keys(b))
    ensures SortDescending(a + b) == Merge(a, b)
  {
    if a == [] {
      assert a + b == b;
      SortedStays(b);
    } else {
      assert (a + b)[1..] == a[1..] + b;
      assert Keys(a[1..]) == Keys(a)[1..];
      assert a == [a[0]] + a[1..];
      if |a| > 1 {
        assert LexLe(Keys(a)[1], Keys(a)[0]);
      }
      SortIsMerge(a[1..], b);
      InsertIntoMerge(a[0], a[1..], b);
    }
  }

  /** The first n of a merge need only the first n of each side. */
  lemma {:induction false} MergePrefix(a: seq<Alert>, b: seq<Alert>, n: nat)
    ensures Take(Merge(a, b), n) == Take(Merge(Take(a, n), Take(b, n)), n)
    decreases n
  {
    hide LexLe, Key;
    if n > 0 && a != [] && b != [] {
      TakeTwice(a, n);
      TakeTwice(b, n);
      hide Take;
      var x, y := Take(a, n), Take(b, n);
      if LexLe(Key(b[0]), Key(a[0])) {
        MergePrefix(a[1..], b, n - 1);
        MergePrefix(x[1..], y, n - 1);
        TakeCons(a[0], Merge(a[1..], b), n);
        TakeCons(a[0], Merge(x[1..], y), n);
      } else {
        MergePrefix(a, b[1..], n - 1);
        MergePrefix(x, y[1..], n - 1);
        TakeCons(b[0], Merge(a, b[1..]), n);
        TakeCons(b[0], Merge(x, y[1..]), n);
      }
    }
  }

  lemma TakeTwice(s: seq<Alert>, n: nat)
    requires n > 0 && s != []
    ensures Take(Take(s, n), n - 1) == Take(s, n - 1)
    ensures Take(s, n)[1..] == Take(s[1..], n - 1)
    ensures Take(Take(s[1..], n - 1), n - 1) == Take(s[1..], n - 1)
    ensures Take(s, n) != [] && Take(s, n)[0] == s[0]
  {
  }

  lemma TakeCons(x: Alert, s: seq<Alert>, n: nat)
    requires n > 0
    ensures Take([x] + s, n) == [x] + Take(s, n - 1)
  {
  }

  lemma TakeDescends(alerts: seq<Alert>, n: nat)
    requires Descending(Keys(alerts))
    ensures Descending(Keys(Take(alerts, n)))
  {
    hide LexLe, Key;
    assert Keys(Take(alerts, n)) == Take(Keys(alerts), n);
  }

  /**
   * Limiting each source first changes nothing: for all sizes, ties and limits the alerts are
   * those of sorting the full union and truncating.
   */
  lemma LimitedMergeRefinesFullSort(a: seq<Alert>, b: seq<Alert>, n: nat)
    requires Descending(Keys(a)) && Descending(Keys(b))
    ensures Take(SortDescending(Take(a, n) + Take(b, n)), n) == Take(SortDescending(a + b), n)
  {
    hide Keys, SortDescending, Merge, Descending, Take;
    TakeDescends(a, n);
    TakeDescends(b, n);
    SortIsMerge(a, b);
    SortIsMerge(Take(a, n), Take(b, n));
    MergePrefix(a, b, n);
  }

  // ---------------------------------------------------------------- the endpoint

  function TaskAlerts(rows: seq<FailedTask>): seq<Alert> {
    seq(|rows|, i requires 0 <= i < |rows| => TaskAlert(rows[i]))
  }

  function CallAlerts(rows: seq<InvalidCall>): seq<Alert> {
    seq(|rows|, i requires 0 <= i < |rows| => CallAlert(rows[i]))
  }

  /** `ORDER BY t DESC`: newest first, rows without an instant last. */
  predicate Newer(a: Option<Instant>, b: Option<Instant>) {
    b.Some? ==> a.Some? && NotAfter(b.value, a.value)
  }

  predicate NewestTasksFirst(rows: seq<FailedTask>) {
    && (forall r | r in rows && r.updatedAt.Some? :: Valid(r.updatedAt.value))
    && forall i, j | 0 <= i < j < |rows| :: Newer(rows[i].updatedAt, rows[j].updatedAt)
  }

  predicate NewestCallsFirst(rows: seq<InvalidCall>) {
    && (forall r | r in rows && r.createdAt.Some? :: Valid(r.createdAt.value))
    && forall i, j | 0 <= i < j < |rows| :: Newer(rows[i].createdAt, rows[j].createdAt)
  }

  lemma QueriesDescend(tasks: seq<FailedTask>, calls: seq<InvalidCall>)
    requires NewestTasksFirst(tasks) && NewestCallsFirst(calls)
    ensures Descending(Keys(TaskAlerts(tasks))) && Descending(Keys(CallAlerts(calls)))
  {
    hide Iso, NotAfter, LexLe;
    forall i, j | 0 <= i < j < |tasks|
      ensures LexLe(Keys(TaskAlerts(tasks))[j], Keys(TaskAlerts(tasks))[i])
    {
      InstantsDescend(tasks[i].updatedAt, tasks[j].updatedAt);
    }
    forall i, j | 0 <= i < j < |calls|
      ensures LexLe(Keys(CallAlerts(calls))[j], Keys(CallAlerts(calls))[i])
    {
      InstantsDescend(calls[i].createdAt, calls[j].createdAt);
    }
  }

  lemma InstantsDescend(a: Option<Instant>, b: Option<Instant>)
    requires (a.Some? ==> Valid(a.value)) && (b.Some? ==> Valid(b.value)) && Newer(a, b)
    ensures LexLe(if b.Some? then Iso(b.value) else "", if a.Some? then Iso(a.value) else "")
  {
    hide Iso, NotAfter;
    if b.Some? {
      IsoOrder(b.value, a.value);
    }
  }

  /** What an alert says of a failed or cancelled task. */
  ghost predicate ReportsTask(a: Alert, r: FailedTask) {
    && a.kind == (if r.cancelled then "task_cancelled" else "task_failed")
    && a.severity == (if r.cancelled then "warning" else "error")
    && a.message == "G\U{f6}rev " + r.code + (if r.cancelled then " iptal edildi" else " ba\U{15f}ar\U{131}s\U{131}z")
    && a.details == (if r.errorMsg.Some? then r.errorMsg.value else "")
    && a.robotTaskCode == r.code
    && a.timestamp == (if r.updatedAt.Some? then Some(Iso(r.updatedAt.value)) else None)
  }

  /** What an alert says of a call with an invalid signature. */
  ghost predicate ReportsCall(a: Alert, r: InvalidCall) {
    && a.kind == "webhook_signature_invalid"
    && a.severity == "error"
    && a.message == "Ge\U{e7}ersiz webhook imzas\U{131}: " + r.code + " (" + r.action + ")"
    && a.details == ""
    && a.robotTaskCode == r.code
    && a.timestamp == (if r.createdAt.Some? then Some(Iso(r.createdAt.value)) else None)
  }

  lemma TaskAlertReports(r: FailedTask)
    ensures ReportsTask(TaskAlert(r), r)
  {
    hide Iso;
    assert "G\U{f6}rev " + r.code + " " + "iptal edildi" == "G\U{f6}rev " + r.code + " iptal edildi";
    assert "G\U{f6}rev " + r.code + " " + "ba\U{15f}ar\U{131}s\U{131}z" == "G\U{f6}rev " + r.code + " ba\U{15f}ar\U{131}s\U{131}z";
  }

  lemma CallAlertReports(r: InvalidCall)
    ensures ReportsCall(CallAlert(r), r)
  {
    hide Iso;
  }

  /** Every alert of the two tables reports one of their rows. */
  lemma AlertsReport(tasks: seq<FailedTask>, calls: seq<InvalidCall>, a: Alert)
    requires a in TaskAlerts(tasks) + CallAlerts(calls)
    ensures (exists r :: r in tasks && ReportsTask(a, r)) || (exists r :: r in calls && ReportsCall(a, r))
  {
    hide TaskAlert, CallAlert, ReportsTask, ReportsCall;
    if a in TaskAlerts(tasks) {
      var i :| 0 <= i < |tasks| && TaskAlerts(tasks)[i] == a;
      TaskAlertReports(tasks[i]);
      assert tasks[i] in tasks;
    } else {
      var i :| 0 <= i < |calls| && CallAlerts(calls)[i] == a;
      CallAlertReports(calls[i]);
      assert calls[i] in calls;
    }
  }

  lemma SortedMembers(alerts: seq<Alert>, n: nat)
    ensures forall a | a in Take(SortDescending(alerts), n) :: a in alerts
  {
    hide SortDescending;
    SortIsPermutation(alerts);
    forall a | a in Take(SortDescending(alerts), n)
      ensures a in alerts
    {
      assert a in SortDescending(alerts);
      assert a in multiset(SortDescending(alerts));
    }
  }

  lemma AlertsOfTaken(tasks: seq<FailedTask>, calls: seq<InvalidCall>, n: nat)
    ensures TaskAlerts(Take(tasks, n)) == Take(TaskAlerts(tasks), n)
    ensures CallAlerts(Take(calls, n)) == Take(CallAlerts(calls), n)
  {
    hide TaskAlert, CallAlert;
  }

  /** The loops of the endpoint: one alert a row, tasks first. */
  method Collect(tasks: seq<FailedTask>, calls: seq<InvalidCall>) returns (alerts: seq<Alert>)
    ensures alerts == TaskAlerts(tasks) + CallAlerts(calls)
  {
    hide TaskAlert, CallAlert;
    alerts := [];
    for i := 0 to |tasks|
      invariant alerts == TaskAlerts(tasks[..i])
    {
      alerts := alerts + [TaskAlert(tasks[i])];
    }
    assert tasks[..|tasks|] == tasks;
    for i := 0 to |calls|
      invariant alerts == TaskAlerts(tasks) + CallAlerts(calls[..i])
    {
      alerts := alerts + [CallAlert(calls[i])];
    }
    assert calls[..|calls|] == calls;
  }

  /**
   * `recent_alerts`, given both tables' matching rows in query order: the newest alerts of the two
   * whole tables, although each query stops at the limit.
   */
  method RecentAlerts(tasks: seq<FailedTask>, calls: seq<InvalidCall>, limit: nat) returns (items: seq<Alert>, total: nat)
    requires NewestTasksFirst(tasks) && NewestCallsFirst(calls)
    ensures items == Take(SortDescending(TaskAlerts(tasks) + CallAlerts(calls)), limit)
    ensures Descending(Keys(items))
    ensures forall a | a in items ::
              || (exists r :: r in tasks && ReportsTask(a, r))
              || (exists r :: r in calls && ReportsCall(a, r))
    ensures total == |Take(tasks, limit)| + |Take(calls, limit)|
  {
    hide SortDescending, Keys, Descending, Take, NewestTasksFirst, NewestCallsFirst, ReportsTask, ReportsCall;
    var alerts := Collect(Take(tasks, limit), Take(calls, limit));
    total := |alerts|;
    items := Take(SortDescending(alerts), limit);
    AlertsOfTaken(tasks, calls, limit);
    QueriesDescend(tasks, calls);
    LimitedMergeRefinesFullSort(TaskAlerts(tasks), CallAlerts(calls), limit);
    SortIsPermutation(alerts);
    TakeDescends(SortDescending(alerts), limit);
    SortedMembers(TaskAlerts(tasks) + CallAlerts(calls), limit);
    forall a | a in items
      ensures (exists r :: r in tasks && ReportsTask(a, r)) || (exists r :: r in calls && ReportsCall(a, r))
    {
      AlertsReport(tasks, calls, a);
    }
  }
}
