/**
 * The audit trail: a list of log entries, newest first after a query. A query
 * narrows the list by the filters that are set and orders what is left by
 * timestamp, newest first, keeping entries with equal timestamps in list
 * order. Logging an action puts one stamped entry at the front of the list.
 *
 * Timestamps are ISO-8601 strings of one format, so comparing them as strings
 * orders them in time.
 */
module Audit {
  import opened Outcomes
  import opened Text

  // ---------------------------------------------------------------- shapes

  datatype Action = Create | Update | Delete | Login | Logout | View

  /** The action as the source spells it. */
  function ActionName(a: Action): string {
    match a
    case Create => "create"
    case Update => "update"
    case Delete => "delete"
    case Login => "login"
    case Logout => "logout"
    case View => "view"
  }

  datatype ResourceType = UserResource | RoleResource | OrganizationResource | TenantResource | PrivilegeResource | LegalEntityResource

  /** The resource type as the source spells it. */
  function ResourceTypeName(t: ResourceType): string {
    match t
    case UserResource => "user"
    case RoleResource => "role"
    case OrganizationResource => "organization"
    case TenantResource => "tenant"
    case PrivilegeResource => "privilege"
    case LegalEntityResource => "legal_entity"
  }

  /** One changed field; the old and new values are kept as their text. */
  datatype Change = Change(field: string, oldValue: string, newValue: string)

  datatype AuditLog = AuditLog(
    id: string,
    userId: string,
    userName: string,
    action: Action,
    resourceType: ResourceType,
    resourceId: string,
    resourceName: string,
    changes: Option<seq<Change>>,
    timestamp: string,
    ipAddress: Option<string>,
    userAgent: Option<string>)

  /** The filters of a query; a filter is in force when it is set to a non-empty string. */
  datatype AuditFilters = AuditFilters(
    userId: Option<string>,
    action: Option<string>,
    resourceType: Option<string>,
    dateFrom: Option<string>,
    dateTo: Option<string>,
    searchTerm: Option<string>)

  // ---------------------------------------------------------------- what a filter asks

  /** The lower-cased term occurs in the lower-cased user name, resource name or action. */
  predicate Mentions(log: AuditLog, term: string) {
    var t := ToLower(term);
    Contains(ToLower(log.userName), t) || Contains(ToLower(log.resourceName), t) || Contains(ToLower(ActionName(log.action)), t)
  }

  /**
   * The meaning of a set of filters: an entry passes when it agrees with every
   * filter in force. The date bounds are inclusive and compare strings.
   */
  predicate Satisfies(log: AuditLog, f: AuditFilters) {
    (Truthy(f.userId) ==> log.userId == f.userId.value)
    && (Truthy(f.action) ==> ActionName(log.action) == f.action.value)
    && (Truthy(f.resourceType) ==> ResourceTypeName(log.resourceType) == f.resourceType.value)
    && (Truthy(f.searchTerm) ==> Mentions(log, f.searchTerm.value))
    && (Truthy(f.dateFrom) ==> StrLe(f.dateFrom.value, log.timestamp))
    && (Truthy(f.dateTo) ==> StrLe(log.timestamp, f.dateTo.value))
  }

  /** An entry passes a query: always without filters, by `Satisfies` with them. */
  predicate Passes(log: AuditLog, filters: Option<AuditFilters>) {
    filters.None? || Satisfies(log, filters.value)
  }

  // ---------------------------------------------------------------- filtering

  /** `Array.prototype.filter`: the entries `keep` accepts, in their order. */
  function Select(logs: seq<AuditLog>, keep: AuditLog -> bool): (r: seq<AuditLog>)
    ensures |r| <= |logs|
    decreases |logs|
  {
    if |logs| == 0 then []
    else (if keep(logs[0]) then [logs[0]] else []) + Select(logs[1..], keep)
  }

  /** Filtering keeps every copy of an accepted entry and no copy of a rejected one. */
  lemma {:induction false} SelectCount(logs: seq<AuditLog>, keep: AuditLog -> bool, x: AuditLog)
    ensures multiset(Select(logs, keep))[x] == if keep(x) then multiset(logs)[x] else 0
    decreases |logs|
  {
    if |logs| > 0 {
      SelectCount(logs[1..], keep, x);
      assert logs == [logs[0]] + logs[1..];
    }
  }

  /** Filtering distributes over concatenation. */
  lemma {:induction false} SelectAppend(a: seq<AuditLog>, b: seq<AuditLog>, keep: AuditLog -> bool)
    ensures Select(a + b, keep) == Select(a, keep) + Select(b, keep)
    decreases |a|
  {
    if |a| == 0 {
      assert a + b == b;
    } else {
      var head := if keep(a[0]) then [a[0]] else [];
      assert (a + b)[0] == a[0];
      assert (a + b)[1..] == a[1..] + b;
      SelectAppend(a[1..], b, keep);
      calc {
        Select(a + b, keep);
        head + Select(a[1..] + b, keep);
        head + (Select(a[1..], keep) + Select(b, keep));
        (head + Select(a[1..], keep)) + Select(b, keep);
      }
    }
  }

  /** Two filters that accept the same entries give the same result. */
  lemma {:induction false} SelectSame(logs: seq<AuditLog>, p: AuditLog -> bool, q: AuditLog -> bool)
    requires forall x :: p(x) == q(x)
    ensures Select(logs, p) == Select(logs, q)
    decreases |logs|
  {
    if |logs| > 0 {
      SelectSame(logs[1..], p, q);
    }
  }

  /** A filter that accepts everything changes nothing. */
  lemma {:induction false} SelectAll(logs: seq<AuditLog>, p: AuditLog -> bool)
    requires forall x :: p(x)
    ensures Select(logs, p) == logs
    decreases |logs|
  {
    if |logs| > 0 {
      SelectAll(logs[1..], p);
      assert logs == [logs[0]] + logs[1..];
    }
  }

  /** Filtering twice is filtering once by both conditions. */
  lemma {:induction false} SelectThen(logs: seq<AuditLog>, p: AuditLog -> bool, q: AuditLog -> bool, both: AuditLog -> bool)
    requires forall x :: both(x) == (p(x) && q(x))
    ensures Select(Select(logs, p), q) == Select(logs, both)
    decreases |logs|
  {
    if |logs| > 0 {
      SelectThen(logs[1..], p, q, both);
      var head := if p(logs[0]) then [logs[0]] else [];
      SelectAppend(head, Select(logs[1..], p), q);
      if p(logs[0]) {
        assert Select(head, q) == (if q(logs[0]) then [logs[0]] else []) by {
          assert head[1..] == [];
        }
      }
    }
  }

  /** One `if (filter) logs = logs.filter(...)` step. */
  function Stage(logs: seq<AuditLog>, on: bool, keep: AuditLog -> bool): seq<AuditLog> {
    if on then Select(logs, keep) else logs
  }

  /** A step after the entries passing `sofar` leaves the entries passing `sofar` and the step. */
  lemma StageFuse(logs: seq<AuditLog>, sofar: AuditLog -> bool, on: bool, keep: AuditLog -> bool, next: AuditLog -> bool)
    requires forall x :: next(x) == (sofar(x) && (on ==> keep(x)))
    ensures Stage(Select(logs, sofar), on, keep) == Select(logs, next)
  {
    if on {
      SelectThen(logs, sofar, keep, next);
    } else {
      SelectSame(logs, sofar, next);
    }
  }

  /** The number of filter steps in `getAuditLogs`: user, action, resource type, search term, date from, date to. */
  const StepCount := 6

  /** Whether step `n` is in force: its filter value is set and non-empty. */
  predicate StepOn(f: AuditFilters, n: nat) {
    match n
    case 0 => Truthy(f.userId)
    case 1 => Truthy(f.action)
    case 2 => Truthy(f.resourceType)
    case 3 => Truthy(f.searchTerm)
    case 4 => Truthy(f.dateFrom)
    case _ => Truthy(f.dateTo)
  }

  /** The test step `n` applies to each entry while it is in force. */
  predicate StepKeeps(log: AuditLog, f: AuditFilters, n: nat) {
    match n
    case 0 => log.userId == f.userId.GetOr("")
    case 1 => ActionName(log.action) == f.action.GetOr("")
    case 2 => ResourceTypeName(log.resourceType) == f.resourceType.GetOr("")
    case 3 => Mentions(log, f.searchTerm.GetOr(""))
    case 4 => StrLe(f.dateFrom.GetOr(""), log.timestamp)
    case _ => StrLe(log.timestamp, f.dateTo.GetOr(""))
  }

  /** The first `n` steps, each narrowing what the one before it left. */
  function Narrow(logs: seq<AuditLog>, f: AuditFilters, n: nat): seq<AuditLog>
    requires n <= StepCount
  {
    if n == 0 then logs
    else Stage(Narrow(logs, f, n - 1), StepOn(f, n - 1), (log: AuditLog) => StepKeeps(log, f, n - 1))
  }

  /** `getAuditLogs`'s filter steps: all six when filters are given, none otherwise. */
  function ApplyFilters(logs: seq<AuditLog>, filters: Option<AuditFilters>): seq<AuditLog> {
    match filters
    case None => logs
    case Some(f) => Narrow(logs, f, StepCount)
  }

  /** The entry passes each of the first `n` steps that is in force. */
  predicate PassesSteps(log: AuditLog, f: AuditFilters, n: nat) {
    forall i :: 0 <= i < n ==> StepOn(f, i) ==> StepKeeps(log, f, i)
  }

  /** The first `n` steps keep, in list order, exactly the entries that pass each of them in force. */
  lemma {:induction false} NarrowIsSelect(logs: seq<AuditLog>, f: AuditFilters, n: nat)
    requires n <= StepCount
    ensures Narrow(logs, f, n) == Select(logs, (log: AuditLog) => PassesSteps(log, f, n))
  {
    if n == 0 {
      SelectAll(logs, (log: AuditLog) => PassesSteps(log, f, 0));
    } else {
      NarrowIsSelect(logs, f, n - 1);
      var sofar := (log: AuditLog) => PassesSteps(log, f, n - 1);
      var keep := (log: AuditLog) => StepKeeps(log, f, n - 1);
      var next := (log: AuditLog) => PassesSteps(log, f, n);
      forall x
        ensures next(x) == (sofar(x) && (StepOn(f, n - 1) ==> keep(x)))
      {
        if sofar(x) && (StepOn(f, n - 1) ==> keep(x)) {
          forall i | 0 <= i < n && StepOn(f, i)
            ensures StepKeeps(x, f, i)
          {
            if i < n - 1 {
              assert 0 <= i < n - 1;
            }
          }
        }
      }
      StageFuse(logs, sofar, StepOn(f, n - 1), keep, next);
    }
  }

  /** Passing all six steps in force is satisfying the filters. */
  lemma PassesAllSteps(log: AuditLog, f: AuditFilters)
    ensures PassesSteps(log, f, StepCount) == Satisfies(log, f)
  {
    if Satisfies(log, f) {
      forall i | 0 <= i < StepCount && StepOn(f, i)
        ensures StepKeeps(log, f, i)
      {
      }
    } else {
      var i: nat :| i < StepCount && StepOn(f, i) && !StepKeeps(log, f, i) by {
        if !(Truthy(f.userId) ==> log.userId == f.userId.value) {
          assert StepOn(f, 0) && !StepKeeps(log, f, 0);
        } else if !(Truthy(f.action) ==> ActionName(log.action) == f.action.value) {
          assert StepOn(f, 1) && !StepKeeps(log, f, 1);
        } else if !(Truthy(f.resourceType) ==> ResourceTypeName(log.resourceType) == f.resourceType.value) {
          assert StepOn(f, 2) && !StepKeeps(log, f, 2);
        } else if !(Truthy(f.searchTerm) ==> Mentions(log, f.searchTerm.value)) {
          assert StepOn(f, 3) && !StepKeeps(log, f, 3);
        } else if !(Truthy(f.dateFrom) ==> StrLe(f.dateFrom.value, log.timestamp)) {
          assert StepOn(f, 4) && !StepKeeps(log, f, 4);
        } else {
          assert StepOn(f, 5) && !StepKeeps(log, f, 5);
        }
      }
    }
  }

  /** The filter steps together keep, in list order, exactly the entries that satisfy the filters. */
  lemma ApplyFiltersIsSelect(logs: seq<AuditLog>, f: AuditFilters)
    ensures ApplyFilters(logs, Some(f)) == Select(logs, (log: AuditLog) => Satisfies(log, f))
  {
    NarrowIsSelect(logs, f, StepCount);
    forall x {
      PassesAllSteps(x, f);
    }
    SelectSame(logs, (log: AuditLog) => PassesSteps(log, f, StepCount), (log: AuditLog) => Satisfies(log, f));
  }

  /** The filters keep every copy of a passing entry and no copy of any other. */
  lemma ApplyFiltersCount(logs: seq<AuditLog>, filters: Option<AuditFilters>)
    ensures forall x :: multiset(ApplyFilters(logs, filters))[x] == if Passes(x, filters) then multiset(logs)[x] else 0
  {
    if filters.Some? {
      var f := filters.value;
      var p := (log: AuditLog) => Satisfies(log, f);
      ApplyFiltersIsSelect(logs, f);
      forall x
        ensures multiset(Select(logs, p))[x] == if Passes(x, filters) then multiset(logs)[x] else 0
      {
        SelectCount(logs, p, x);
      }
    }
  }

  // ---------------------------------------------------------------- ordering

  /** Newest first: no entry is older than one after it. */
  predicate Descending(logs: seq<AuditLog>) {
    forall i, j :: 0 <= i < j < |logs| ==> StrLe(logs[j].timestamp, logs[i].timestamp)
  }

  /** Puts `x` before the first entry that is not newer than it. */
  function Insert(x: AuditLog, logs: seq<AuditLog>): (r: seq<AuditLog>)
    ensures multiset(r) == multiset(logs) + multiset{x}
    decreases |logs|
  {
    if |logs| == 0 || StrLe(logs[0].timestamp, x.timestamp) then [x] + logs
    else
      assert logs == [logs[0]] + logs[1..];
      [logs[0]] + Insert(x, logs[1..])
  }

  /** Inserting into a newest-first list keeps it newest first. */
  lemma {:induction false} InsertDescending(x: AuditLog, logs: seq<AuditLog>)
    requires Descending(logs)
    ensures Descending(Insert(x, logs))
    decreases |logs|
  {
    if |logs| == 0 {
    } else if StrLe(logs[0].timestamp, x.timestamp) {
      HeadBounds(logs, x.timestamp);
      ConsDescending(x, logs);
    } else {
      StrLeTotal(logs[0].timestamp, x.timestamp);
      InsertDescending(x, logs[1..]);
      InsertBounded(x, logs[1..], logs[0].timestamp);
      ConsDescending(logs[0], Insert(x, logs[1..]));
    }
  }

  /** No entry is newer than `top`. */
  predicate NotAfter(logs: seq<AuditLog>, top: string) {
    forall k :: 0 <= k < |logs| ==> StrLe(logs[k].timestamp, top)
  }

  /** In a newest-first list whose first entry is not after `top`, no entry is. */
  lemma HeadBounds(logs: seq<AuditLog>, top: string)
    requires Descending(logs) && |logs| > 0 && StrLe(logs[0].timestamp, top)
    ensures NotAfter(logs, top)
  {
    forall k | 0 < k < |logs|
      ensures StrLe(logs[k].timestamp, top)
    {
      StrLeTrans(logs[k].timestamp, logs[0].timestamp, top);
    }
  }

  /** An entry no older than any of a newest-first list can go in front of it. */
  lemma ConsDescending(y: AuditLog, logs: seq<AuditLog>)
    requires Descending(logs) && NotAfter(logs, y.timestamp)
    ensures Descending([y] + logs)
  {
    var r := [y] + logs;
    forall i, j | 0 <= i < j < |r|
      ensures StrLe(r[j].timestamp, r[i].timestamp)
    {
      assert r[j] == logs[j - 1];
      if i > 0 {
        assert r[i] == logs[i - 1];
      }
    }
  }

  /** Inserting an entry not after `top` among entries not after `top` keeps them all not after it. */
  lemma InsertBounded(x: AuditLog, logs: seq<AuditLog>, top: string)
    requires NotAfter(logs, top) && StrLe(x.timestamp, top)
    ensures NotAfter(Insert(x, logs), top)
  {
    var r := Insert(x, logs);
    forall k | 0 <= k < |r|
      ensures StrLe(r[k].timestamp, top)
    {
      assert r[k] in multiset(r);
      if r[k] != x {
        assert r[k] in multiset(logs);
        var m :| 0 <= m < |logs| && logs[m] == r[k];
      }
    }
  }

  /** `sort((a, b) => time(b) - time(a))`: newest first, entries of equal time in list order. */
  function SortByTime(logs: seq<AuditLog>): (r: seq<AuditLog>)
    ensures multiset(r) == multiset(logs)
    ensures Descending(r)
    decreases |logs|
  {
    if |logs| == 0 then []
    else
      var rest := SortByTime(logs[1..]);
      InsertDescending(logs[0], rest);
      assert logs == [logs[0]] + logs[1..];
      Insert(logs[0], rest)
  }

  /** Filtering a list with a first entry: that entry if accepted, then the filtered rest. */
  lemma SelectCons(y: AuditLog, ys: seq<AuditLog>, keep: AuditLog -> bool)
    ensures Select([y] + ys, keep) == (if keep(y) then [y] else []) + Select(ys, keep)
  {
    assert ([y] + ys)[1..] == ys;
  }

  /** The entries stamped with time `t`. */
  function AtTime(t: string): AuditLog -> bool {
    (log: AuditLog) => log.timestamp == t
  }

  /** Inserting `x` adds it in front of the entries of its own time and leaves every other time alone. */
  lemma {:induction false} InsertAtTime(x: AuditLog, logs: seq<AuditLog>, t: string)
    ensures Select(Insert(x, logs), AtTime(t))
         == (if x.timestamp == t then [x] else []) + Select(logs, AtTime(t))
    decreases |logs|
  {
    var p := AtTime(t);
    var hx := if x.timestamp == t then [x] else [];
    if |logs| == 0 || StrLe(logs[0].timestamp, x.timestamp) {
      assert Insert(x, logs) == [x] + logs;
      SelectCons(x, logs, p);
    } else {
      var rest := Insert(x, logs[1..]);
      var h := if p(logs[0]) then [logs[0]] else [];
      assert Insert(x, logs) == [logs[0]] + rest;
      InsertAtTime(x, logs[1..], t);
      SelectCons(logs[0], rest, p);
      assert Select(Insert(x, logs), p) == h + (hx + Select(logs[1..], p));
      assert Select(logs, p) == h + Select(logs[1..], p);
      if x.timestamp == t {
        StrLeReflexive(x.timestamp);
        assert h == [];
      } else {
        assert hx == [];
      }
    }
  }

  /** Sorting is stable: the entries of any one time keep their list order. */
  lemma {:induction false} SortStable(logs: seq<AuditLog>, t: string)
    ensures Select(SortByTime(logs), AtTime(t)) == Select(logs, AtTime(t))
    decreases |logs|
  {
    if |logs| > 0 {
      SortStable(logs[1..], t);
      InsertAtTime(logs[0], SortByTime(logs[1..]), t);
    }
  }

  // ---------------------------------------------------------------- the service

  /**
   * `getAuditLogs(tenantId, filters)`: the entries passing the filters, newest
   * first. The tenant argument plays no part.
   */
  function GetAuditLogs(logs: seq<AuditLog>, filters: Option<AuditFilters>): (r: seq<AuditLog>)
    ensures Descending(r)
    ensures forall x :: multiset(r)[x] == if Passes(x, filters) then multiset(logs)[x] else 0
  {
    ApplyFiltersCount(logs, filters);
    SortByTime(ApplyFilters(logs, filters))
  }

  /** A passing entry at the front of the log stays at the front of the filtered log. */
  lemma PassingHeadKept(x: AuditLog, logs: seq<AuditLog>, filters: Option<AuditFilters>)
    requires Passes(x, filters)
    ensures ApplyFilters([x] + logs, filters) == [x] + ApplyFilters(logs, filters)
  {
    if filters.Some? {
      ApplyFiltersIsSelect([x] + logs, filters.value);
      ApplyFiltersIsSelect(logs, filters.value);
      assert ([x] + logs)[1..] == logs;
    }
  }

  /** Entries of equal time come back in the order the log holds them. */
  lemma GetAuditLogsStable(logs: seq<AuditLog>, filters: Option<AuditFilters>, t: string)
    ensures Select(GetAuditLogs(logs, filters), AtTime(t)) == Select(ApplyFilters(logs, filters), AtTime(t))
  {
    SortStable(ApplyFilters(logs, filters), t);
  }

  /** Without filters, or with only empty ones, a query returns the whole log, reordered. */
  lemma UnfilteredQuery(logs: seq<AuditLog>, filters: Option<AuditFilters>)
    requires filters.Some? ==>
      var f := filters.value;
      !Truthy(f.userId) && !Truthy(f.action) && !Truthy(f.resourceType)
      && !Truthy(f.dateFrom) && !Truthy(f.dateTo) && !Truthy(f.searchTerm)
    ensures multiset(GetAuditLogs(logs, filters)) == multiset(logs)
  {
    var r := GetAuditLogs(logs, filters);
    forall x
      ensures multiset(r)[x] == multiset(logs)[x]
    {
      assert Passes(x, filters);
    }
  }

  /** The fields of a new entry, before it gets its id and timestamp. */
  datatype LogEntry = LogEntry(
    userId: string,
    userName: string,
    action: Action,
    resourceType: ResourceType,
    resourceId: string,
    resourceName: string,
    changes: Option<seq<Change>>,
    ipAddress: Option<string>,
    userAgent: Option<string>)

  /** The entry with its id and timestamp. */
  function Stamp(e: LogEntry, id: string, timestamp: string): AuditLog {
    AuditLog(id, e.userId, e.userName, e.action, e.resourceType, e.resourceId, e.resourceName, e.changes, timestamp, e.ipAddress, e.userAgent)
  }

  /** `logAction(tenantId, log)`: the stamped entry goes to the front, with id `audit-<clock>`. */
  function LogAction(logs: seq<AuditLog>, e: LogEntry, clock: string, now: string): (r: seq<AuditLog>)
    ensures |r| == |logs| + 1 && r[1..] == logs
    ensures r[0].id == "audit-" + clock && r[0].timestamp == now
    ensures r[0].userId == e.userId && r[0].userName == e.userName && r[0].action == e.action
      && r[0].resourceType == e.resourceType && r[0].resourceId == e.resourceId && r[0].resourceName == e.resourceName
      && r[0].changes == e.changes && r[0].ipAddress == e.ipAddress && r[0].userAgent == e.userAgent
  {
    [Stamp(e, "audit-" + clock, now)] + logs
  }

  /** One more entry in the log counts once more in a query it passes, and nothing else changes. */
  lemma QueryAfterPush(entry: AuditLog, logs: seq<AuditLog>, filters: Option<AuditFilters>, x: AuditLog)
    ensures multiset(GetAuditLogs([entry] + logs, filters))[x]
         == multiset(GetAuditLogs(logs, filters))[x] + (if x == entry && Passes(entry, filters) then 1 else 0)
  {
    assert multiset([entry] + logs) == multiset{entry} + multiset(logs);
  }

  /** The same, for all entries at once. */
  lemma QueryAfterPushAll(entry: AuditLog, logs: seq<AuditLog>, filters: Option<AuditFilters>)
    ensures multiset(GetAuditLogs([entry] + logs, filters))
         == multiset(GetAuditLogs(logs, filters)) + (if Passes(entry, filters) then multiset{entry} else multiset{})
  {
    var after := multiset(GetAuditLogs([entry] + logs, filters));
    var before := multiset(GetAuditLogs(logs, filters));
    var extra := if Passes(entry, filters) then multiset{entry} else multiset{};
    forall x
      ensures after[x] == (before + extra)[x]
    {
      QueryAfterPush(entry, logs, filters, x);
    }
  }

  /** After logging, a query returns what it returned before plus the new entry when it passes the filters. */
  lemma QueryAfterLog(logs: seq<AuditLog>, e: LogEntry, clock: string, now: string, filters: Option<AuditFilters>)
    ensures multiset(GetAuditLogs(LogAction(logs, e, clock, now), filters))
         == multiset(GetAuditLogs(logs, filters))
            + (if Passes(Stamp(e, "audit-" + clock, now), filters) then multiset{Stamp(e, "audit-" + clock, now)} else multiset{})
  {
    var entry := Stamp(e, "audit-" + clock, now);
    assert LogAction(logs, e, clock, now) == [entry] + logs;
    QueryAfterPushAll(entry, logs, filters);
  }

  /** A query returns only entries of the log. */
  lemma QueryFromLog(logs: seq<AuditLog>, filters: Option<AuditFilters>, k: nat)
    requires k < |GetAuditLogs(logs, filters)|
    ensures GetAuditLogs(logs, filters)[k] in logs
  {
    var r := GetAuditLogs(logs, filters);
    assert r[k] in multiset(r);
    assert r[k] in multiset(logs);
  }

  /** A passing entry at least as new as the rest of the log heads the query. */
  lemma NewestHeads(entry: AuditLog, logs: seq<AuditLog>, filters: Option<AuditFilters>)
    requires forall k :: 0 <= k < |logs| ==> StrLe(logs[k].timestamp, entry.timestamp)
    requires Passes(entry, filters)
    ensures |GetAuditLogs([entry] + logs, filters)| > 0
    ensures GetAuditLogs([entry] + logs, filters)[0] == entry
  {
    var now := entry.timestamp;
    var after := [entry] + logs;
    var r := GetAuditLogs(after, filters);
    assert multiset(after)[entry] > 0;
    assert entry in multiset(r);
    var i :| 0 <= i < |r| && r[i] == entry;
    // The head is no newer than the entry, being an entry of the log ...
    QueryFromLog(after, filters, 0);
    StrLeReflexive(now);
    if r[0] != entry {
      assert r[0] in logs;
    }
    assert StrLe(r[0].timestamp, now);
    // ... and no older, since the list is newest first.
    if i > 0 {
      assert StrLe(r[i].timestamp, r[0].timestamp);
    }
    StrLeAntisymmetric(r[0].timestamp, now);
    // Among the entries of that time, the sort keeps list order, and the entry leads the list.
    GetAuditLogsStable(after, filters, now);
    PassingHeadKept(entry, logs, filters);
    var kept := ApplyFilters(after, filters);
    assert kept == [entry] + ApplyFilters(logs, filters);
    assert Select(kept, AtTime(now))[0] == entry;
    assert Select(r, AtTime(now))[0] == r[0];
  }

  /** An entry logged at a time no earlier than any other, and passing the filters, heads the next query. */
  lemma LoggedEntryFirst(logs: seq<AuditLog>, e: LogEntry, clock: string, now: string, filters: Option<AuditFilters>)
    requires forall k :: 0 <= k < |logs| ==> StrLe(logs[k].timestamp, now)
    requires Passes(Stamp(e, "audit-" + clock, now), filters)
    ensures |GetAuditLogs(LogAction(logs, e, clock, now), filters)| > 0
    ensures GetAuditLogs(LogAction(logs, e, clock, now), filters)[0] == Stamp(e, "audit-" + clock, now)
  {
    var entry := Stamp(e, "audit-" + clock, now);
    assert LogAction(logs, e, clock, now) == [entry] + logs;
    NewestHeads(entry, logs, filters);
  }
}
