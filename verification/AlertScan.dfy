/** The scan over every enabled alert of one type, in batches found by a cursor. */
module AlertScan {
  import opened Sequences
  import opened Options

  const USER_BATCH_SIZE: nat := 100

  datatype AlertType = PRICE_DROP | EXPIRING_INGREDIENT | PROMOTION | BUDGET_OVERRUN

  /** `id` stands for the alert's place in the order of ids. */
  datatype Alert = Alert(id: int, kind: AlertType, enabled: bool, userId: string)

  // ---- the alerts table ----

  /** A table is listed in ascending order of its ids, which are unique. */
  predicate Ascending(rows: seq<Alert>) {
    forall i, j :: 0 <= i < j < |rows| ==> rows[i].id < rows[j].id
  }

  /** The enabled alerts of a type. */
  function Enabled(table: seq<Alert>, kind: AlertType): seq<Alert> {
    if table == [] then []
    else
      var init, last := Enabled(table[..|table| - 1], kind), table[|table| - 1];
      if last.enabled && last.kind == kind then init + [last] else init
  }

  /** The rows from a given id on. */
  function StartingAt(rows: seq<Alert>, id: int): seq<Alert> {
    if rows == [] then []
    else
      var init, last := StartingAt(rows[..|rows| - 1], id), rows[|rows| - 1];
      if id <= last.id then init + [last] else init
  }

  function Skip1(rows: seq<Alert>): seq<Alert> {
    if rows == [] then [] else rows[1..]
  }

  function Take(rows: seq<Alert>, n: nat): seq<Alert> {
    if |rows| <= n then rows else rows[..n]
  }

  predicate HasId(rows: seq<Alert>, id: int) {
    exists a <- rows :: a.id == id
  }

  /** The next batch of rows, from the cursor's place on and without the first of them. */
  function Batch(rows: seq<Alert>, cursor: Option<int>): seq<Alert> {
    Take(if cursor.None? then rows else Skip1(StartingAt(rows, cursor.value)), USER_BATCH_SIZE)
  }

  /** One query, in id order; it returns nothing when the cursor's row is gone from the table. */
  function FindMany(table: seq<Alert>, kind: AlertType, cursor: Option<int>): seq<Alert> {
    if cursor.Some? && !HasId(table, cursor.value) then [] else Batch(Enabled(table, kind), cursor)
  }

  // ---- what a query returns ----

  lemma {:induction false} EnabledFacts(table: seq<Alert>, kind: AlertType)
    ensures forall a :: a in Enabled(table, kind) <==> a in table && a.enabled && a.kind == kind
  {
    if table != [] {
      var init, last := table[..|table| - 1], table[|table| - 1];
      EnabledFacts(init, kind);
      assert table == init + [last];
    }
  }

  lemma {:induction false} EnabledAscending(table: seq<Alert>, kind: AlertType)
    requires Ascending(table)
    ensures Ascending(Enabled(table, kind))
  {
    if table != [] {
      var init, last := table[..|table| - 1], table[|table| - 1];
      EnabledAscending(init, kind);
      EnabledFacts(init, kind);
      assert forall a <- init :: a.id < last.id;
    }
  }

  lemma {:induction false} NoneStartingAt(rows: seq<Alert>, id: int)
    requires forall a <- rows :: a.id < id
    ensures StartingAt(rows, id) == []
  {
    if rows != [] {
      NoneStartingAt(rows[..|rows| - 1], id);
    }
  }

  lemma {:induction false} StartingAtSuffix(rows: seq<Alert>, k: nat)
    requires Ascending(rows) && k < |rows|
    ensures StartingAt(rows, rows[k].id) == rows[k..]
  {
    var init, last := rows[..|rows| - 1], rows[|rows| - 1];
    if k == |init| {
      assert forall a <- init :: a.id < last.id;
      NoneStartingAt(init, last.id);
    } else {
      StartingAtSuffix(init, k);
      assert rows[k..] == init[k..] + [last];
    }
  }

  /** The cursor once `k` alerts have been handled. */
  function CursorAfter(rows: seq<Alert>, k: nat): Option<int>
    requires k <= |rows|
  {
    if k == 0 then None else Some(rows[k - 1].id)
  }

  /** After the first `k` alerts, the next query returns the batch that follows them. */
  lemma NextBatch(table: seq<Alert>, kind: AlertType, k: nat)
    requires Ascending(table) && k <= |Enabled(table, kind)|
    ensures var rows := Enabled(table, kind);
      FindMany(table, kind, CursorAfter(rows, k)) == Take(rows[k..], USER_BATCH_SIZE)
  {
    var rows := Enabled(table, kind);
    EnabledAscending(table, kind);
    EnabledFacts(table, kind);
    if k == 0 {
      assert rows[0..] == rows;
    } else {
      assert rows[k - 1] in table;
      StartingAtSuffix(rows, k - 1);
      assert rows[k - 1..][1..] == rows[k..];
    }
  }

  lemma {:induction false} StartingAtFacts(rows: seq<Alert>, id: int)
    requires Ascending(rows)
    ensures Ascending(StartingAt(rows, id))
    ensures forall a :: a in StartingAt(rows, id) <==> a in rows && id <= a.id
  {
    if rows != [] {
      var init, last := rows[..|rows| - 1], rows[|rows| - 1];
      StartingAtFacts(init, id);
      assert rows == init + [last];
      assert forall a <- init :: a.id < last.id;
    }
  }

  /** The rows after a given id. */
  function After(rows: seq<Alert>, id: int): seq<Alert> {
    StartingAt(rows, id + 1)
  }

  /** Whatever starts at an id is its own row, if there is one, and what is after it. */
  lemma {:induction false} SkipIsAfter(rows: seq<Alert>, id: int)
    requires Ascending(rows)
    ensures !HasId(rows, id) ==> StartingAt(rows, id) == After(rows, id)
    ensures HasId(rows, id) ==> StartingAt(rows, id) != [] && Skip1(StartingAt(rows, id)) == After(rows, id)
  {
    if rows != [] {
      var init, last := rows[..|rows| - 1], rows[|rows| - 1];
      SkipIsAfter(init, id);
      HasIdStep(rows, id);
      if last.id == id {
        assert forall a <- init :: a.id < id;
        NoneStartingAt(init, id);
        NoneStartingAt(init, id + 1);
      }
    }
  }

  lemma HasIdStep(rows: seq<Alert>, id: int)
    requires rows != []
    ensures HasId(rows, id) <==> HasId(rows[..|rows| - 1], id) || rows[|rows| - 1].id == id
  {
    assert rows == rows[..|rows| - 1] + [rows[|rows| - 1]];
  }

  /**
   * A query returns the batch that follows its cursor exactly when the cursor's alert is
   * still enabled or nothing follows it.
   */
  lemma FollowsCursorIff(table: seq<Alert>, kind: AlertType, id: int)
    requires Ascending(table)
    ensures var rows := Enabled(table, kind);
      FindMany(table, kind, Some(id)) == Take(After(rows, id), USER_BATCH_SIZE) <==>
      HasId(rows, id) || After(rows, id) == []
  {
    var rows := Enabled(table, kind);
    EnabledAscending(table, kind);
    EnabledFacts(table, kind);
    SkipIsAfter(rows, id);
    StartingAtFacts(rows, id + 1);
    if HasId(rows, id) {
      var a :| a in rows && a.id == id;
      assert HasId(table, id);
    } else if After(rows, id) != [] && HasId(table, id) {
      SkipDiffers(After(rows, id));
    }
  }

  lemma SkipDiffers(rows: seq<Alert>)
    requires Ascending(rows) && rows != []
    ensures Take(Skip1(rows), USER_BATCH_SIZE) != Take(rows, USER_BATCH_SIZE)
  {
    assert |rows| > 1 ==> rows[0].id < rows[1].id;
    assert Take(rows, USER_BATCH_SIZE)[0] == rows[0];
  }

  // ---- the scan ----

  /** How many of these alerts' handlers throw. */
  function Failures(alerts: seq<Alert>, throws: Alert -> bool): nat {
    if alerts == [] then 0
    else Failures(alerts[..|alerts| - 1], throws) + if throws(alerts[|alerts| - 1]) then 1 else 0
  }

  lemma FailuresStep(alerts: seq<Alert>, throws: Alert -> bool, i: nat)
    requires i < |alerts|
    ensures Failures(alerts[..i + 1], throws) == Failures(alerts[..i], throws) + if throws(alerts[i]) then 1 else 0
  {
    PrefixStep(alerts, i);
  }

  lemma {:induction false} FailuresAppend(a: seq<Alert>, b: seq<Alert>, throws: Alert -> bool)
    ensures Failures(a + b, throws) == Failures(a, throws) + Failures(b, throws)
  {
    if b == [] {
      assert a + b == a;
    } else {
      FailuresAppend(a, b[..|b| - 1], throws);
      assert a + b == (a + b[..|b| - 1]) + [b[|b| - 1]];
      AppendInit(a + b[..|b| - 1], b[|b| - 1]);
    }
  }

  /** How far a scan has come; `handled` in the order of the calls. */
  datatype Progress = Progress(cursor: Option<int>, handled: seq<Alert>, done: bool)

  function Advance(p: Progress, batch: seq<Alert>): Progress {
    if |batch| < USER_BATCH_SIZE then Progress(p.cursor, p.handled + batch, true)
    else Progress(Some(batch[|batch| - 1].id), p.handled + batch, false)
  }

  /** What the `i`th query would return from a given cursor. */
  type Query = (nat, Option<int>) -> seq<Alert>

  /** The queries of a scan, when `tables(i)` is the table at the `i`th. */
  function Queries(tables: nat -> seq<Alert>, kind: AlertType): Query {
    (i: nat, cursor: Option<int>) => FindMany(tables(i), kind, cursor)
  }

  /** The scan after `q` queries. */
  function Scan(query: Query, q: nat): Progress {
    if q == 0 then Progress(None, [], false)
    else
      var before := Scan(query, q - 1);
      if before.done then before else Advance(before, query(q - 1, before.cursor))
  }

  /** The `q`th query is the one that ends the scan. */
  ghost predicate EndsAfter(query: Query, q: nat) {
    q > 0 && Scan(query, q).done && !Scan(query, q - 1).done
  }

  ghost predicate EachAscending(tables: nat -> seq<Alert>) {
    forall q :: Ascending(tables(q))
  }

  /** Every query returns a batch in id order, after its cursor. */
  ghost predicate Orderly(query: Query) {
    forall i, cursor :: Ascending(query(i, cursor))
      && (cursor.Some? ==> forall a <- query(i, cursor) :: a.id > cursor.value)
  }

  lemma QueriesAreOrderly(tables: nat -> seq<Alert>, kind: AlertType)
    requires EachAscending(tables)
    ensures Orderly(Queries(tables, kind))
  {
    forall i, cursor
      ensures Ascending(Queries(tables, kind)(i, cursor))
      ensures cursor.Some? ==> forall a <- Queries(tables, kind)(i, cursor) :: a.id > cursor.value
    {
      BatchFacts(tables(i), kind, cursor);
    }
  }

  /** Every id there will be is below `limit`. */
  ghost predicate BelowLimit(tables: nat -> seq<Alert>, limit: int) {
    forall q :: forall a <- tables(q) :: a.id < limit
  }

  /** The calls made so far, after those made `before`, are the scan's, and so are their failures. */
  ghost predicate Recorded(
    p: Progress, throws: Alert -> bool, before: seq<Alert>, handled: seq<Alert>, failed: nat, errors: nat)
  {
    handled == before + p.handled && errors == failed + Failures(p.handled, throws)
  }

  lemma RecordedStep(
    p: Progress, batch: seq<Alert>, throws: Alert -> bool, before: seq<Alert>, handled: seq<Alert>, failed: nat,
    errors: nat)
    requires Recorded(p, throws, before, handled, failed, errors)
    ensures Recorded(
              Advance(p, batch), throws, before, handled + batch, failed, errors + Failures(batch, throws))
  {
    FailuresAppend(p.handled, batch, throws);
    AppendAssociatesAll(before, p.handled, batch);
  }

  /** `p` is where the scan stands before its `q`th query, not the last. */
  ghost predicate Running(query: Query, q: nat, p: Progress, cursor: Option<int>) {
    p == Scan(query, q) && !p.done && p.cursor == cursor
  }

  lemma RunningStep(query: Query, q: nat, p: Progress, cursor: Option<int>, batch: seq<Alert>)
    requires Running(query, q, p, cursor) && batch == query(q, cursor)
    ensures Scan(query, q + 1) == Advance(p, batch)
    ensures if |batch| < USER_BATCH_SIZE then EndsAfter(query, q + 1)
            else Running(query, q + 1, Advance(p, batch), Some(batch[|batch| - 1].id))
  {
  }

  /** A full batch moves the cursor on, below the limit. */
  lemma CursorMoves(tables: nat -> seq<Alert>, q: nat, kind: AlertType, cursor: Option<int>, limit: int)
    requires EachAscending(tables) && BelowLimit(tables, limit)
    ensures var batch := FindMany(tables(q), kind, cursor);
      batch != [] ==>
        && batch[|batch| - 1].id < limit
        && (cursor.Some? ==> batch[|batch| - 1].id > cursor.value)
  {
    var batch := FindMany(tables(q), kind, cursor);
    BatchFacts(tables(q), kind, cursor);
    assert batch != [] ==> batch[|batch| - 1] in batch;
  }

  /** All that one round of the loop does, with `p` before it. */
  lemma Round(
    tables: nat -> seq<Alert>, kind: AlertType, q: nat, p: Progress, cursor: Option<int>, limit: int,
    throws: Alert -> bool, before: seq<Alert>, handled: seq<Alert>, failed: nat, errors: nat)
    requires EachAscending(tables) && BelowLimit(tables, limit)
    requires Running(Queries(tables, kind), q, p, cursor)
    requires Recorded(p, throws, before, handled, failed, errors)
    ensures var batch := FindMany(tables(q), kind, cursor);
      var next := Advance(p, batch);
      && next == Scan(Queries(tables, kind), q + 1)
      && Recorded(next, throws, before, handled + batch, failed, errors + Failures(batch, throws))
      && if |batch| < USER_BATCH_SIZE then EndsAfter(Queries(tables, kind), q + 1)
         else
           var last := batch[|batch| - 1].id;
           && Running(Queries(tables, kind), q + 1, next, Some(last))
           && last < limit && (cursor.Some? ==> last > cursor.value)
  {
    var batch := FindMany(tables(q), kind, cursor);
    CursorMoves(tables, q, kind, cursor, limit);
    RunningStep(Queries(tables, kind), q, p, cursor, batch);
    RecordedStep(p, batch, throws, before, handled, failed, errors);
  }

  /** `handled` are the alerts the handler was called with, in order; `errors` counts the calls that threw. */
  class AlertScanService {
    var handled: seq<Alert>
    var errors: nat

    constructor ()
      ensures handled == [] && errors == 0
    {
      handled := [];
      errors := 0;
    }

    method Handle(alert: Alert, throws: Alert -> bool)
      modifies this
      ensures handled == old(handled) + [alert]
      ensures errors == old(errors) + if throws(alert) then 1 else 0
    {
      handled := handled + [alert];
      if throws(alert) {
        errors := errors + 1;
      }
    }

    method HandleBatch(batch: seq<Alert>, throws: Alert -> bool)
      modifies this
      ensures handled == old(handled) + batch
      ensures errors == old(errors) + Failures(batch, throws)
    {
      for i := 0 to |batch|
        invariant handled == old(handled) + batch[..i]
        invariant errors == old(errors) + Failures(batch[..i], throws)
      {
        FailuresStep(batch, throws, i);
        PrefixGrow(batch, i);
        Handle(batch[i], throws);
      }
      FullPrefix(batch);
    }

    /** One query and the calls for its batch. */
    method HandleRound(
      tables: nat -> seq<Alert>, kind: AlertType, throws: Alert -> bool, ghost limit: int, q: nat, cursor: Option<int>,
      ghost p: Progress, ghost before: seq<Alert>, ghost failed: nat)
      returns (batch: seq<Alert>)
      requires EachAscending(tables) && BelowLimit(tables, limit)
      requires Running(Queries(tables, kind), q, p, cursor)
      requires Recorded(p, throws, before, handled, failed, errors)
      modifies this
      ensures Scan(Queries(tables, kind), q + 1) == Advance(p, batch)
      ensures Recorded(Advance(p, batch), throws, before, handled, failed, errors)
      ensures |batch| < USER_BATCH_SIZE ==> EndsAfter(Queries(tables, kind), q + 1)
      ensures |batch| >= USER_BATCH_SIZE ==>
                var last := batch[|batch| - 1].id;
                && Running(Queries(tables, kind), q + 1, Advance(p, batch), Some(last))
                && last < limit && (cursor.Some? ==> last > cursor.value)
    {
      Round(tables, kind, q, p, cursor, limit, throws, before, handled, failed, errors);
      batch := FindMany(tables(q), kind, cursor);
      HandleBatch(batch, throws);
    }

    /**
     * Queries until a batch is not full and calls the handler for every alert returned,
     * whichever calls throw. `limit` is above every id there will be.
     */
    method ForEachEnabledAlert(tables: nat -> seq<Alert>, kind: AlertType, throws: Alert -> bool, ghost limit: int)
      returns (queries: nat)
      requires EachAscending(tables) && BelowLimit(tables, limit)
      modifies this
      ensures EndsAfter(Queries(tables, kind), queries)
      ensures Recorded(Scan(Queries(tables, kind), queries), throws, old(handled), handled, old(errors), errors)
    {
      ghost var before, failed, query := handled, errors, Queries(tables, kind);
      ghost var p := Progress(None, [], false);
      var cursor: Option<int> := None;
      queries := 0;
      while true
        invariant Running(query, queries, p, cursor)
        invariant cursor.Some? ==> cursor.value < limit
        invariant Recorded(p, throws, before, handled, failed, errors)
        decreases cursor.None?, if cursor.Some? then limit - cursor.value else 0
      {
        var batch := HandleRound(tables, kind, throws, limit, queries, cursor, p, before, failed);
        p := Advance(p, batch);
        queries := queries + 1;
        if |batch| < USER_BATCH_SIZE {
          break;
        }
        cursor := Some(batch[|batch| - 1].id);
      }
    }
  }

  lemma BatchOfRows(rows: seq<Alert>, cursor: Option<int>)
    requires Ascending(rows)
    ensures Ascending(Batch(rows, cursor))
    ensures forall a <- Batch(rows, cursor) :: a in rows
    ensures cursor.Some? ==> forall a <- Batch(rows, cursor) :: a.id > cursor.value
  {
    if cursor.Some? {
      StartingAtFacts(rows, cursor.value);
      TailIsAfter(StartingAt(rows, cursor.value), cursor.value);
    }
  }

  /** A batch is in id order, from the table, and all after the cursor. */
  lemma BatchFacts(table: seq<Alert>, kind: AlertType, cursor: Option<int>)
    requires Ascending(table)
    ensures var batch := FindMany(table, kind, cursor);
      && Ascending(batch)
      && (forall a <- batch :: a in table)
      && (cursor.Some? ==> forall a <- batch :: a.id > cursor.value)
  {
    EnabledAscending(table, kind);
    EnabledFacts(table, kind);
    BatchOfRows(Enabled(table, kind), cursor);
  }

  lemma TailIsAfter(rows: seq<Alert>, id: int)
    requires Ascending(rows) && forall a <- rows :: id <= a.id
    ensures Ascending(Skip1(rows)) && forall a <- Skip1(rows) :: id < a.id
    ensures forall a <- Skip1(rows) :: a in rows
  {
    forall a | a in Skip1(rows)
      ensures id < a.id && a in rows
    {
      var i :| 0 <= i < |rows| - 1 && Skip1(rows)[i] == a;
      assert rows[i + 1] == a && rows[0] in rows && rows[0].id < rows[i + 1].id;
    }
  }

  // ---- any table, changing or not ----

  /** Everything handled so far is in id order and not after the cursor. */
  ghost predicate InOrder(p: Progress) {
    && Ascending(p.handled)
    && (!p.done ==> match p.cursor
                    case None => p.handled == []
                    case Some(c) => forall a <- p.handled :: a.id <= c)
  }

  lemma AdvanceInOrder(p: Progress, batch: seq<Alert>)
    requires InOrder(p) && !p.done && Ascending(batch)
    requires p.cursor.Some? ==> forall a <- batch :: a.id > p.cursor.value
    ensures InOrder(Advance(p, batch))
  {
  }

  lemma {:induction false} ScanInOrder(query: Query, q: nat)
    requires Orderly(query)
    ensures InOrder(Scan(query, q))
  {
    if q > 0 {
      ScanInOrder(query, q - 1);
      var before := Scan(query, q - 1);
      if !before.done {
        AdvanceInOrder(before, query(q - 1, before.cursor));
      }
    }
  }

  /** However the table changes between queries, no alert is handled twice, and ids only grow. */
  lemma NeverTwice(tables: nat -> seq<Alert>, kind: AlertType, q: nat)
    requires EachAscending(tables)
    ensures Ascending(Scan(Queries(tables, kind), q).handled)
  {
    QueriesAreOrderly(tables, kind);
    ScanInOrder(Queries(tables, kind), q);
  }

  /** Every query finds the alert of its cursor still enabled. */
  ghost predicate CursorsStay(tables: nat -> seq<Alert>, kind: AlertType, q: nat) {
    forall i :: 0 <= i < q ==>
      var p := Scan(Queries(tables, kind), i);
      !p.done && p.cursor.Some? ==> HasId(Enabled(tables(i), kind), p.cursor.value)
  }

  /** The alert is enabled, with its type, at every query. */
  ghost predicate EnabledThroughout(tables: nat -> seq<Alert>, kind: AlertType, q: nat, id: int) {
    forall i :: 0 <= i < q ==> HasId(Enabled(tables(i), kind), id)
  }

  ghost predicate Passed(p: Progress, id: int) {
    p.done || (p.cursor.Some? && id <= p.cursor.value)
  }

  /** The batch has the alert, or ends before it. */
  ghost predicate Reaches(batch: seq<Alert>, id: int) {
    HasId(batch, id) || (|batch| == USER_BATCH_SIZE && batch[|batch| - 1].id < id)
  }

  lemma FirstReaches(table: seq<Alert>, kind: AlertType, id: int)
    requires Ascending(table) && HasId(Enabled(table, kind), id)
    ensures Reaches(FindMany(table, kind, None), id)
  {
    EnabledAscending(table, kind);
    InPrefix(Enabled(table, kind), id);
  }

  /** A query whose cursor stays returns an enabled alert that is next, or leaves it for later. */
  lemma NextReaches(table: seq<Alert>, kind: AlertType, c: int, id: int)
    requires Ascending(table) && HasId(Enabled(table, kind), id)
    requires c < id && HasId(Enabled(table, kind), c)
    ensures Reaches(FindMany(table, kind, Some(c)), id)
  {
    var rows := Enabled(table, kind);
    EnabledAscending(table, kind);
    FollowsCursorIff(table, kind, c);
    StartingAtFacts(rows, c + 1);
    var a :| a in rows && a.id == id;
    assert a in After(rows, c);
    InPrefix(After(rows, c), id);
  }

  lemma InPrefix(rows: seq<Alert>, id: int)
    requires Ascending(rows) && HasId(rows, id)
    ensures Reaches(Take(rows, USER_BATCH_SIZE), id)
  {
    var a :| a in rows && a.id == id;
    var i :| 0 <= i < |rows| && rows[i] == a;
    if i < USER_BATCH_SIZE {
      assert Take(rows, USER_BATCH_SIZE)[i] == a;
    }
  }

  lemma OneMoreBatch(p: Progress, batch: seq<Alert>, id: int)
    requires !p.done && (Passed(p, id) ==> HasId(p.handled, id))
    requires !Passed(p, id) ==> Reaches(batch, id)
    ensures Passed(Advance(p, batch), id) ==> HasId(Advance(p, batch).handled, id)
  {
    HandledGrows(p, batch, id);
  }

  /** No query passes over the alert. */
  ghost predicate NeverSkips(query: Query, q: nat, id: int) {
    forall i :: 0 <= i < q && !Passed(Scan(query, i), id) ==> Reaches(query(i, Scan(query, i).cursor), id)
  }

  lemma {:induction false} PassedIsHandled(query: Query, q: nat, id: int)
    requires NeverSkips(query, q, id)
    ensures Passed(Scan(query, q), id) ==> HasId(Scan(query, q).handled, id)
  {
    if q > 0 {
      PassedIsHandled(query, q - 1, id);
      var before := Scan(query, q - 1);
      if !before.done {
        OneMoreBatch(before, query(q - 1, before.cursor), id);
      }
    }
  }

  lemma StayingIsNeverSkipped(tables: nat -> seq<Alert>, kind: AlertType, q: nat, id: int)
    requires EachAscending(tables) && CursorsStay(tables, kind, q) && EnabledThroughout(tables, kind, q, id)
    ensures NeverSkips(Queries(tables, kind), q, id)
  {
    forall i | 0 <= i < q && !Passed(Scan(Queries(tables, kind), i), id)
      ensures Reaches(Queries(tables, kind)(i, Scan(Queries(tables, kind), i).cursor), id)
    {
      var p := Scan(Queries(tables, kind), i);
      match p.cursor
      case None => FirstReaches(tables(i), kind, id);
      case Some(c) => NextReaches(tables(i), kind, c, id);
    }
  }

  lemma HandledGrows(p: Progress, batch: seq<Alert>, id: int)
    ensures HasId(p.handled, id) || HasId(batch, id) ==> HasId(Advance(p, batch).handled, id)
  {
    if HasId(p.handled, id) {
      var a :| a in p.handled && a.id == id;
      assert a in Advance(p, batch).handled;
    }
    if HasId(batch, id) {
      var a :| a in batch && a.id == id;
      assert a in Advance(p, batch).handled;
    }
  }

  /**
   * On a table that changes between queries, an alert that stays enabled is handled exactly
   * once, as long as every cursor's alert is still enabled at the next query.
   */
  lemma StayingAlertIsHandledOnce(tables: nat -> seq<Alert>, kind: AlertType, q: nat, id: int)
    requires EachAscending(tables) && CursorsStay(tables, kind, q) && EnabledThroughout(tables, kind, q, id)
    requires Scan(Queries(tables, kind), q).done
    ensures OnceIn(Scan(Queries(tables, kind), q).handled, id)
  {
    NeverTwice(tables, kind, q);
    StayingIsNeverSkipped(tables, kind, q, id);
    PassedIsHandled(Queries(tables, kind), q, id);
    OnlyOnce(Scan(Queries(tables, kind), q).handled, id);
  }

  ghost predicate OnceIn(rows: seq<Alert>, id: int) {
    exists i :: 0 <= i < |rows| && rows[i].id == id
      && forall j :: 0 <= j < |rows| && j != i ==> rows[j].id != id
  }

  lemma OnlyOnce(rows: seq<Alert>, id: int)
    requires Ascending(rows) && HasId(rows, id)
    ensures OnceIn(rows, id)
  {
    var a :| a in rows && a.id == id;
    var i :| 0 <= i < |rows| && rows[i] == a;
    assert forall j :: 0 <= j < |rows| && j != i ==> rows[j].id != id;
  }

  // ---- when a cursor does not stay ----

  /** Once passed over without being handled, an alert is never handled. */
  lemma {:induction false} PassedOverForGood(query: Query, j: nat, q: nat, id: int)
    requires Orderly(query) && j <= q
    requires Passed(Scan(query, j), id) && !HasId(Scan(query, j).handled, id)
    ensures Passed(Scan(query, q), id) && !HasId(Scan(query, q).handled, id)
  {
    if j < q {
      PassedOverForGood(query, j, q - 1, id);
      var before := Scan(query, q - 1);
      if !before.done {
        BatchPassesOver(before, query(q - 1, before.cursor), id);
      }
    }
  }

  lemma BatchPassesOver(p: Progress, batch: seq<Alert>, id: int)
    requires !p.done && Passed(p, id) && !HasId(p.handled, id)
    requires forall a <- batch :: a.id > p.cursor.value
    ensures Passed(Advance(p, batch), id) && !HasId(Advance(p, batch).handled, id)
  {
    assert |batch| > 0 ==> batch[|batch| - 1] in batch;
  }

  lemma {:induction false} DoneStays(query: Query, j: nat, q: nat)
    requires j <= q && Scan(query, j).done
    ensures Scan(query, q) == Scan(query, j)
  {
    if j < q {
      DoneStays(query, j, q - 1);
    }
  }

  /** The scan has made `j` queries, is not done and stands at cursor `c`. */
  ghost predicate StandsAt(query: Query, j: nat, c: int) {
    !Scan(query, j).done && Scan(query, j).cursor == Some(c)
  }

  /**
   * A cursor whose alert is disabled in time for the next query takes the next enabled
   * alert with it: that one is never handled.
   */
  lemma DisabledCursorDropsNext(tables: nat -> seq<Alert>, kind: AlertType, j: nat, q: nat, c: int)
    requires EachAscending(tables) && j < q && StandsAt(Queries(tables, kind), j, c)
    requires HasId(tables(j), c) && !HasId(Enabled(tables(j), kind), c)
    requires After(Enabled(tables(j), kind), c) != []
    ensures !HasId(Scan(Queries(tables, kind), q).handled, After(Enabled(tables(j), kind), c)[0].id)
  {
    var query, id := Queries(tables, kind), After(Enabled(tables(j), kind), c)[0].id;
    QueriesAreOrderly(tables, kind);
    ScanInOrder(query, j);
    BatchWithoutNext(tables(j), kind, c);
    var p := Scan(query, j);
    assert query(j, p.cursor) == FindMany(tables(j), kind, Some(c));
    NextIsDropped(p, query(j, p.cursor), c, id);
    PassedOverForGood(query, j + 1, q, id);
  }

  lemma BatchWithoutNext(table: seq<Alert>, kind: AlertType, c: int)
    requires Ascending(table) && HasId(table, c) && !HasId(Enabled(table, kind), c)
    requires After(Enabled(table, kind), c) != []
    ensures var id := After(Enabled(table, kind), c)[0].id;
      id > c && forall a <- FindMany(table, kind, Some(c)) :: a.id > id
  {
    var rows := Enabled(table, kind);
    var rest := After(rows, c);
    EnabledAscending(table, kind);
    SkipIsAfter(rows, c);
    StartingAtFacts(rows, c + 1);
    TailIsAfter(rest, rest[0].id);
    assert rest[0] in rest;
  }

  lemma NextIsDropped(p: Progress, batch: seq<Alert>, c: int, id: int)
    requires !p.done && p.cursor == Some(c) && InOrder(p)
    requires id > c && forall a <- batch :: a.id > id
    ensures Passed(Advance(p, batch), id) && !HasId(Advance(p, batch).handled, id)
  {
    assert |batch| > 0 ==> batch[|batch| - 1] in batch;
  }

  /** A cursor whose alert is deleted in time for the next query ends the scan there. */
  lemma DeletedCursorEndsScan(tables: nat -> seq<Alert>, kind: AlertType, j: nat, q: nat, c: int)
    requires j < q && StandsAt(Queries(tables, kind), j, c) && !HasId(tables(j), c)
    ensures Scan(Queries(tables, kind), q) == Scan(Queries(tables, kind), j).(done := true)
  {
    RunningStep(Queries(tables, kind), j, Scan(Queries(tables, kind), j), Some(c), []);
    DoneStays(Queries(tables, kind), j + 1, q);
  }

  // ---- a table that does not change ----

  function Always(table: seq<Alert>): nat -> seq<Alert> {
    (q: nat) => table
  }

  lemma AdvanceFull(rows: seq<Alert>, k: nat)
    requires k + USER_BATCH_SIZE <= |rows|
    ensures Advance(Progress(CursorAfter(rows, k), rows[..k], false), Take(rows[k..], USER_BATCH_SIZE))
            == Progress(CursorAfter(rows, k + USER_BATCH_SIZE), rows[..k + USER_BATCH_SIZE], false)
  {
    PrefixExtend(rows, k, USER_BATCH_SIZE);
    assert Take(rows[k..], USER_BATCH_SIZE) == rows[k..][..USER_BATCH_SIZE];
  }

  lemma AdvanceLast(rows: seq<Alert>, k: nat)
    requires k <= |rows| < k + USER_BATCH_SIZE
    ensures Advance(Progress(CursorAfter(rows, k), rows[..k], false), Take(rows[k..], USER_BATCH_SIZE))
            == Progress(CursorAfter(rows, k), rows, true)
  {
    assert rows[..k] + rows[k..] == rows;
  }

  /** After `q` full batches. */
  lemma {:induction false} FullBatches(table: seq<Alert>, kind: AlertType, q: nat)
    requires Ascending(table) && q * USER_BATCH_SIZE <= |Enabled(table, kind)|
    ensures var rows := Enabled(table, kind);
      var k := q * USER_BATCH_SIZE;
      Scan(Queries(Always(table), kind), q) == Progress(CursorAfter(rows, k), rows[..k], false)
  {
    if q > 0 {
      var rows := Enabled(table, kind);
      var k := (q - 1) * USER_BATCH_SIZE;
      FullBatches(table, kind, q - 1);
      NextBatch(table, kind, k);
      AdvanceFull(rows, k);
      assert Queries(Always(table), kind)(q - 1, CursorAfter(rows, k)) == FindMany(table, kind, CursorAfter(rows, k));
    }
  }

  /**
   * On a fixed table of any size the scan ends after |rows| / 100 + 1 queries, having
   * handled exactly the enabled alerts of the type, in id order; a table of exactly full
   * batches costs one more, empty, query.
   */
  lemma FixedTableScan(table: seq<Alert>, kind: AlertType, queries: nat)
    requires Ascending(table) && EndsAfter(Queries(Always(table), kind), queries)
    ensures Scan(Queries(Always(table), kind), queries).handled == Enabled(table, kind)
    ensures queries == |Enabled(table, kind)| / 100 + 1
  {
    LastBatch(table, kind);
    EndsOnce(Queries(Always(table), kind), queries, |Enabled(table, kind)| / USER_BATCH_SIZE + 1);
  }

  lemma EndsOnce(query: Query, a: nat, b: nat)
    requires EndsAfter(query, a) && EndsAfter(query, b)
    ensures a == b
  {
    if a < b {
      DoneStays(query, a, b - 1);
    } else if b < a {
      DoneStays(query, b, a - 1);
    }
  }

  lemma LastBatch(table: seq<Alert>, kind: AlertType)
    requires Ascending(table)
    ensures var query, rows := Queries(Always(table), kind), Enabled(table, kind);
      var last := |rows| / USER_BATCH_SIZE + 1;
      EndsAfter(query, last) && Scan(query, last).handled == rows
  {
    var query, rows := Queries(Always(table), kind), Enabled(table, kind);
    var full := |rows| / USER_BATCH_SIZE;
    var k := full * USER_BATCH_SIZE;
    FullBatches(table, kind, full);
    NextBatch(table, kind, k);
    AdvanceLast(rows, k);
    RunningStep(
      query, full, Progress(CursorAfter(rows, k), rows[..k], false), CursorAfter(rows, k),
      FindMany(table, kind, CursorAfter(rows, k)));
  }

  /** Every enabled alert of the type is handled exactly once, no other alert is, and always in id order. */
  lemma HandledExactlyOnce(table: seq<Alert>, kind: AlertType, a: Alert)
    requires Ascending(table)
    ensures a in table && a.enabled && a.kind == kind <==>
            exists i :: 0 <= i < |Enabled(table, kind)| && Enabled(table, kind)[i] == a
    ensures Ascending(Enabled(table, kind))
    ensures multiset(Enabled(table, kind))[a] <= 1
  {
    EnabledFacts(table, kind);
    EnabledAscending(table, kind);
    CountedOnce(Enabled(table, kind), a);
  }

  lemma {:induction false} CountedOnce(rows: seq<Alert>, a: Alert)
    requires Ascending(rows)
    ensures multiset(rows)[a] <= 1
  {
    if rows != [] {
      var init, last := rows[..|rows| - 1], rows[|rows| - 1];
      CountedOnce(init, a);
      assert rows == init + [last];
      assert forall b <- init :: b.id < last.id;
    }
  }
}
