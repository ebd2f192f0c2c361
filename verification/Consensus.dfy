/**
 * Crowd-sourced prices: submissions are created, and calls read a group of similar
 * pending ones, approve those that agree with the group's median, and apply it. The
 * three steps of different calls may interleave.
 */
module Consensus {
  import opened Sequences
  import opened Medians
  import opened Options

  datatype Status = PENDING | APPROVED | REJECTED | AUTO_APPROVED

  datatype SubmissionId = SubmissionId(text: string)

  datatype Pack = Pack(size: Option<real>, unit: Option<string>)

  /** What a shopper reports. */
  datatype Report = Report(storeCode: string, productName: string, priceCents: int, pack: Pack)

  datatype Submission = Submission(report: Report, status: Status)

  type Table = map<SubmissionId, Submission>

  /** A row of the similarity query. */
  datatype Row = Row(id: SubmissionId, report: Report)

  /** How far a call has come; from `Agreed` on it carries the rows its query returned. */
  datatype Call =
    | NoConsensus
    | Agreed(storeCode: string, group: seq<Row>)
    | Approved(storeCode: string, group: seq<Row>)
    | Applied(storeCode: string, group: seq<Row>)
    | NotApplied(storeCode: string, group: seq<Row>)

  /** `points` are the price points written, oldest first. */
  datatype State = State(submissions: Table, calls: map<nat, Call>, points: seq<Report>)

  datatype Step =
    | Create(id: SubmissionId, report: Report)
    | ReadGroup(call: nat, storeCode: string, group: seq<SubmissionId>)
    | Approve(call: nat)
    | ApplyPrice(call: nat, succeeds: bool)

  // ---- one group ----

  predicate DistinctIds(group: seq<Row>) {
    forall i, j :: 0 <= i < j < |group| ==> group[i].id != group[j].id
  }

  /** What the query may return: different pending submissions of the store, in any order. */
  predicate Eligible(t: Table, storeCode: string, ids: seq<SubmissionId>) {
    && (forall id <- ids :: id in t && t[id].status == PENDING && t[id].report.storeCode == storeCode)
    && (forall i, j :: 0 <= i < j < |ids| ==> ids[i] != ids[j])
  }

  function RowsOf(t: Table, ids: seq<SubmissionId>): seq<Row>
    requires forall id <- ids :: id in t
  {
    seq(|ids|, i requires 0 <= i < |ids| => Row(ids[i], t[ids[i]].report))
  }

  function Prices(group: seq<Row>): seq<int> {
    seq(|group|, i requires 0 <= i < |group| => group[i].report.priceCents)
  }

  /** The rows whose price agrees with the median, in the group's order. */
  function AgreeingWith(group: seq<Row>, median: int): seq<Row> {
    if group == [] then []
    else
      var init := AgreeingWith(group[..|group| - 1], median);
      var row := group[|group| - 1];
      if Agrees(row.report.priceCents, median) then init + [row] else init
  }

  function Agreeing(group: seq<Row>): seq<Row> {
    if group == [] then [] else AgreeingWith(group, Median(Prices(group)))
  }

  predicate HasConsensus(group: seq<Row>) {
    |group| >= CONSENSUS_MIN_SUBMISSIONS && |Agreeing(group)| >= CONSENSUS_MIN_SUBMISSIONS
  }

  function AgreeingIds(group: seq<Row>): set<SubmissionId> {
    set row <- Agreeing(group) :: row.id
  }

  function ApproveAll(t: Table, ids: set<SubmissionId>): Table {
    map id | id in t :: if id in ids then t[id].(status := AUTO_APPROVED) else t[id]
  }

  /** The price point: the first agreeing row's product and pack, at the median. */
  function PointOf(storeCode: string, group: seq<Row>): Report
    requires HasConsensus(group)
  {
    var first := Agreeing(group)[0].report;
    Report(storeCode, first.productName, Median(Prices(group)), first.pack)
  }

  // ---- steps ----

  /** One atomic step; a step that is not enabled does nothing. */
  function Apply(s: State, step: Step): State {
    match step
    case Create(id, report) =>
      if id in s.submissions then s
      else s.(submissions := s.submissions[id := Submission(report, PENDING)])
    case ReadGroup(c, storeCode, ids) =>
      if c in s.calls || !Eligible(s.submissions, storeCode, ids) then s
      else
        var group := RowsOf(s.submissions, ids);
        s.(calls := s.calls[c := if HasConsensus(group) then Agreed(storeCode, group) else NoConsensus])
    case Approve(c) =>
      if c in s.calls && s.calls[c].Agreed? then
        var call := s.calls[c];
        s.(submissions := ApproveAll(s.submissions, AgreeingIds(call.group)),
           calls := s.calls[c := Approved(call.storeCode, call.group)])
      else s
    case ApplyPrice(c, succeeds) =>
      if c in s.calls && s.calls[c].Approved? && HasConsensus(s.calls[c].group) then
        var call := s.calls[c];
        if succeeds then
          s.(calls := s.calls[c := Applied(call.storeCode, call.group)],
             points := s.points + [PointOf(call.storeCode, call.group)])
        else s.(calls := s.calls[c := NotApplied(call.storeCode, call.group)])
      else s
  }

  const NO_SUBMISSIONS := State(map[], map[], [])

  function Run(start: State, steps: seq<Step>): State {
    if steps == [] then start
    else Apply(Run(start, steps[..|steps| - 1]), steps[|steps| - 1])
  }

  // ---- facts about a group ----

  lemma {:induction false} AgreeingWithFacts(group: seq<Row>, median: int)
    ensures forall row :: row in AgreeingWith(group, median) <==> row in group && Agrees(row.report.priceCents, median)
    ensures DistinctIds(group) ==> DistinctIds(AgreeingWith(group, median))
  {
    if group != [] {
      var init := group[..|group| - 1];
      AgreeingWithFacts(init, median);
      assert group == init + [group[|group| - 1]];
      if DistinctIds(group) {
        forall row | row in init
          ensures row.id != group[|group| - 1].id
        {
        }
      }
    }
  }

  /** The approved submissions are the group's whose price is within 15% of its median. */
  lemma AgreeingExactly(group: seq<Row>, row: Row)
    requires group != []
    ensures row in Agreeing(group) <==> row in group && IsWithin(Median(Prices(group)))(row)
  {
    AgreeingWithFacts(group, Median(Prices(group)));
  }

  /** The row's price is at most 15% of the median away from it. */
  ghost function IsWithin(median: int): Row -> bool {
    (row: Row) => -3 * median <= 20 * (row.report.priceCents - median) <= 3 * median
  }

  ghost function Unchanged(): (Row, Row) -> bool {
    (a: Row, b: Row) => a == b
  }

  lemma {:induction false} AgreeingAreTaken(group: seq<Row>, median: int) returns (from: seq<nat>)
    ensures TakenFrom(AgreeingWith(group, median), from, group, IsWithin(median), Unchanged())
  {
    from := [];
    if group != [] {
      var init, row := group[..|group| - 1], group[|group| - 1];
      from := AgreeingAreTaken(init, median);
      InitAndLast(group);
      if Agrees(row.report.priceCents, median) {
        TakeNext(AgreeingWith(init, median), from, init, IsWithin(median), Unchanged(), row, row);
        from := from + [|init|];
      } else {
        DropNext(AgreeingWith(init, median), from, init, IsWithin(median), Unchanged(), row);
      }
    }
  }

  /** Three rows of the group, in its order, that are within 15% of its median. */
  ghost predicate ThreeWithin(group: seq<Row>, i: nat, j: nat, k: nat)
    requires group != []
  {
    var within := IsWithin(Median(Prices(group)));
    i < j < k < |group| && within(group[i]) && within(group[j]) && within(group[k])
  }

  /** There is consensus exactly when three rows of the group are within 15% of its median. */
  lemma ConsensusIffThree(group: seq<Row>)
    requires group != []
    ensures HasConsensus(group) <==> exists i, j, k :: ThreeWithin(group, i, j, k)
  {
    var from := AgreeingAreTaken(group, Median(Prices(group)));
    if HasConsensus(group) {
      assert ThreeWithin(group, from[0], from[1], from[2]);
    }
    if i, j, k :| ThreeWithin(group, i, j, k) {
      var a :| 0 <= a < |from| && from[a] == i;
      var b :| 0 <= b < |from| && from[b] == j;
      var c :| 0 <= c < |from| && from[c] == k;
      assert a != b && a != c && b != c;
    }
  }

  /** The point is at the median, with the product and pack of the first row that is within 15% of it. */
  lemma PointIsOfFirstWithin(storeCode: string, group: seq<Row>) returns (i: nat)
    requires HasConsensus(group)
    ensures var median := Median(Prices(group));
      && i < |group| && IsWithin(median)(group[i])
      && (forall j :: 0 <= j < i ==> !IsWithin(median)(group[j]))
      && PointOf(storeCode, group)
         == Report(storeCode, group[i].report.productName, median, group[i].report.pack)
  {
    var from := AgreeingAreTaken(group, Median(Prices(group)));
    i := from[0];
    forall j | 0 <= j < i
      ensures !IsWithin(Median(Prices(group)))(group[j])
    {
      assert j !in from;
    }
  }

  lemma {:induction false} IdsCount(rows: seq<Row>)
    requires DistinctIds(rows)
    ensures |set row <- rows :: row.id| == |rows|
  {
    if rows == [] {
      assert (set row <- rows :: row.id) == {};
    } else {
      var init, last := rows[..|rows| - 1], rows[|rows| - 1];
      IdsCount(init);
      assert rows == init + [last];
      assert (set row <- rows :: row.id) == (set row <- init :: row.id) + {last.id};
      assert last.id !in set row <- init :: row.id;
    }
  }

  lemma ConsensusIds(group: seq<Row>)
    requires DistinctIds(group) && HasConsensus(group)
    ensures |AgreeingIds(group)| >= CONSENSUS_MIN_SUBMISSIONS
  {
    AgreeingWithFacts(group, Median(Prices(group)));
    IdsCount(Agreeing(group));
  }

  // ---- what every interleaving keeps ----

  /** Call `c` has approved, and submission `id` was among those it approved. */
  predicate ApprovedBy(s: State, c: nat, id: SubmissionId) {
    c in s.calls && (s.calls[c].Approved? || s.calls[c].Applied? || s.calls[c].NotApplied?)
    && id in AgreeingIds(s.calls[c].group)
  }

  /** A group is a faithful, large enough picture of submissions of one store. */
  ghost predicate GroupRecorded(t: Table, storeCode: string, group: seq<Row>) {
    && HasConsensus(group) && DistinctIds(group)
    && forall row <- group ::
         row.id in t && t[row.id].report == row.report && row.report.storeCode == storeCode
  }

  ghost predicate CallsRecorded(s: State) {
    forall c <- s.calls :: !s.calls[c].NoConsensus? ==>
      GroupRecorded(s.submissions, s.calls[c].storeCode, s.calls[c].group)
  }

  /** A submission is auto-approved exactly when some call has approved it; else it is pending. */
  ghost predicate StatusesExplained(s: State) {
    forall id <- s.submissions ::
      && s.submissions[id].status in {PENDING, AUTO_APPROVED}
      && (s.submissions[id].status == AUTO_APPROVED <==> exists c :: ApprovedBy(s, c, id))
  }

  /** Steps only add submissions, and only ever turn one AUTO_APPROVED. */
  ghost predicate Follows(t: Table, t': Table) {
    forall id <- t ::
      && id in t' && t'[id].report == t[id].report
      && (t'[id].status == t[id].status || t'[id].status == AUTO_APPROVED)
  }

  lemma StepFollows(s: State, step: Step)
    ensures Follows(s.submissions, Apply(s, step).submissions)
  {
  }

  /** An approval is never taken back and a report never changes, in any run from any state. */
  lemma {:induction false} ApprovalsNeverRevert(start: State, steps: seq<Step>)
    ensures Follows(start.submissions, Run(start, steps).submissions)
  {
    if steps != [] {
      ApprovalsNeverRevert(start, steps[..|steps| - 1]);
      StepFollows(Run(start, steps[..|steps| - 1]), steps[|steps| - 1]);
    }
  }

  lemma FollowsKeepsGroup(t: Table, t': Table, storeCode: string, group: seq<Row>)
    requires Follows(t, t') && GroupRecorded(t, storeCode, group)
    ensures GroupRecorded(t', storeCode, group)
  {
  }

  lemma ReadRecords(t: Table, storeCode: string, ids: seq<SubmissionId>)
    requires Eligible(t, storeCode, ids) && HasConsensus(RowsOf(t, ids))
    ensures GroupRecorded(t, storeCode, RowsOf(t, ids))
    ensures forall id <- AgreeingIds(RowsOf(t, ids)) :: id in t && t[id].status == PENDING
  {
    AgreeingWithFacts(RowsOf(t, ids), Median(Prices(RowsOf(t, ids))));
  }

  lemma StepKeepsCalls(s: State, step: Step)
    requires CallsRecorded(s)
    ensures CallsRecorded(Apply(s, step))
  {
    var t := Apply(s, step);
    StepFollows(s, step);
    forall c | c in t.calls && !t.calls[c].NoConsensus?
      ensures GroupRecorded(t.submissions, t.calls[c].storeCode, t.calls[c].group)
    {
      if c in s.calls {
        FollowsKeepsGroup(s.submissions, t.submissions, s.calls[c].storeCode, s.calls[c].group);
      } else {
        ReadRecords(s.submissions, step.storeCode, step.group);
      }
    }
  }

  /** Whose approvals a step adds: those of the call it approves. */
  lemma ApprovedByStep(s: State, step: Step, c: nat, id: SubmissionId)
    ensures ApprovedBy(Apply(s, step), c, id) <==>
            ApprovedBy(s, c, id)
            || (step == Approve(c) && c in s.calls && s.calls[c].Agreed? && id in AgreeingIds(s.calls[c].group))
  {
  }

  lemma AgreeingIdsInTable(s: State, c: nat)
    requires CallsRecorded(s) && c in s.calls && !s.calls[c].NoConsensus?
    ensures forall id <- AgreeingIds(s.calls[c].group) :: id in s.submissions
  {
    var group := s.calls[c].group;
    AgreeingWithFacts(group, Median(Prices(group)));
  }

  lemma StepKeepsStatuses(s: State, step: Step)
    requires CallsRecorded(s) && StatusesExplained(s)
    ensures StatusesExplained(Apply(s, step))
  {
    var t := Apply(s, step);
    forall id | id in t.submissions
      ensures t.submissions[id].status in {PENDING, AUTO_APPROVED}
      ensures t.submissions[id].status == AUTO_APPROVED <==> exists c :: ApprovedBy(t, c, id)
    {
      StatusStep(s, step, id);
    }
  }

  /** The step is an update by a call whose group agrees on submission `id`. */
  ghost predicate StepApproves(s: State, step: Step, id: SubmissionId) {
    step.Approve? && step.call in s.calls && s.calls[step.call].Agreed? && id in AgreeingIds(s.calls[step.call].group)
  }

  lemma SomebodyApproved(s: State, step: Step, id: SubmissionId)
    ensures (exists c :: ApprovedBy(Apply(s, step), c, id)) <==>
            (exists c :: ApprovedBy(s, c, id)) || StepApproves(s, step, id)
  {
    forall c
      ensures ApprovedBy(Apply(s, step), c, id) <==>
              ApprovedBy(s, c, id) || (StepApproves(s, step, id) && c == step.call)
    {
      ApprovedByStep(s, step, c, id);
    }
    if StepApproves(s, step, id) {
      assert ApprovedBy(Apply(s, step), step.call, id);
    }
  }

  lemma StatusAfter(s: State, step: Step, id: SubmissionId)
    requires id in Apply(s, step).submissions
    ensures var status := Apply(s, step).submissions[id].status;
      if id !in s.submissions then status == PENDING
      else status == if StepApproves(s, step, id) then AUTO_APPROVED else s.submissions[id].status
    ensures id !in s.submissions ==> !step.Approve?
  {
  }

  lemma StatusStep(s: State, step: Step, id: SubmissionId)
    requires CallsRecorded(s) && StatusesExplained(s) && id in Apply(s, step).submissions
    ensures var t := Apply(s, step);
      && t.submissions[id].status in {PENDING, AUTO_APPROVED}
      && (t.submissions[id].status == AUTO_APPROVED <==> exists c :: ApprovedBy(t, c, id))
  {
    SomebodyApproved(s, step, id);
    StatusAfter(s, step, id);
    if id !in s.submissions {
      forall c | ApprovedBy(s, c, id)
        ensures false
      {
        AgreeingIdsInTable(s, c);
      }
    }
  }

  lemma {:induction false} EveryRunIsRecorded(steps: seq<Step>)
    ensures CallsRecorded(Run(NO_SUBMISSIONS, steps))
    ensures StatusesExplained(Run(NO_SUBMISSIONS, steps))
  {
    if steps != [] {
      var s, step := Run(NO_SUBMISSIONS, steps[..|steps| - 1]), steps[|steps| - 1];
      EveryRunIsRecorded(steps[..|steps| - 1]);
      StepKeepsCalls(s, step);
      StepKeepsStatuses(s, step);
    }
  }

  // ---- prices approved together ----

  /** Any two submissions one call approves are of one store and differ by at most 30% of the median. */
  lemma ApprovedTogetherAreClose(steps: seq<Step>, c: nat, i: SubmissionId, j: SubmissionId)
    requires ApprovedBy(Run(NO_SUBMISSIONS, steps), c, i) && ApprovedBy(Run(NO_SUBMISSIONS, steps), c, j)
    ensures var s := Run(NO_SUBMISSIONS, steps);
      && i in s.submissions && j in s.submissions
      && s.submissions[i].report.storeCode == s.submissions[j].report.storeCode
      && s.calls[c].group != []
      && 20 * Distance(s.submissions[i].report.priceCents, s.submissions[j].report.priceCents)
         <= 6 * Median(Prices(s.calls[c].group))
  {
    EveryRunIsRecorded(steps);
    var s := Run(NO_SUBMISSIONS, steps);
    var group := s.calls[c].group;
    AgreeingWithFacts(group, Median(Prices(group)));
    AgreeingPricesAreClose(
      s.submissions[i].report.priceCents, s.submissions[j].report.priceCents, Median(Prices(group)));
  }

  // ---- every price point comes from a call ----

  ghost function AppliedCalls(s: State): set<nat> {
    set c | c in s.calls && s.calls[c].Applied?
  }

  /** The calls that applied the price point `p`. */
  ghost function CallsFor(s: State, p: Report): set<nat> {
    set c | c in AppliedCalls(s) && PointFrom(s, p, c)
  }

  /** Each price point was written as often as calls applied it. */
  ghost predicate PointsExplained(s: State) {
    && |s.points| == |AppliedCalls(s)|
    && forall p :: multiset(s.points)[p] == |CallsFor(s, p)|
  }

  ghost predicate PointFrom(s: State, p: Report, c: nat) {
    c in AppliedCalls(s) && HasConsensus(s.calls[c].group) && p == PointOf(s.calls[c].storeCode, s.calls[c].group)
  }

  /** The step applies the price of a call. */
  ghost predicate Applies(s: State, step: Step) {
    step.ApplyPrice? && step.succeeds && step.call in s.calls && s.calls[step.call].Approved?
    && HasConsensus(s.calls[step.call].group)
  }

  lemma AppliedStep(s: State, step: Step)
    ensures var t := Apply(s, step);
      if Applies(s, step) then
        && AppliedCalls(t) == AppliedCalls(s) + {step.call} && step.call !in AppliedCalls(s)
        && t.points == s.points + [PointOf(s.calls[step.call].storeCode, s.calls[step.call].group)]
      else AppliedCalls(t) == AppliedCalls(s) && t.points == s.points
  {
  }

  lemma CallsForStep(s: State, step: Step, p: Report)
    ensures CallsFor(Apply(s, step), p) ==
            CallsFor(s, p)
            + (if Applies(s, step) && p == PointOf(s.calls[step.call].storeCode, s.calls[step.call].group)
               then {step.call} else {})
  {
  }

  lemma CountSnoc<T>(s: seq<T>, x: T, y: T)
    ensures multiset(s + [x])[y] == multiset(s)[y] + if x == y then 1 else 0
  {
  }

  /** One more call applied, one more point written. */
  lemma OneMorePoint(s: State, t: State, c: nat, p: Report)
    requires PointsExplained(s) && c !in AppliedCalls(s)
    requires AppliedCalls(t) == AppliedCalls(s) + {c} && t.points == s.points + [p]
    requires forall q :: CallsFor(t, q) == CallsFor(s, q) + if q == p then {c} else {}
    ensures PointsExplained(t)
  {
    forall q
      ensures multiset(t.points)[q] == |CallsFor(t, q)|
    {
      CountSnoc(s.points, p, q);
      assert multiset(s.points)[q] == |CallsFor(s, q)|;
      assert CallsFor(t, q) == CallsFor(s, q) + if q == p then {c} else {};
    }
  }

  lemma SamePoints(s: State, t: State)
    requires PointsExplained(s) && AppliedCalls(t) == AppliedCalls(s) && t.points == s.points
    requires forall q :: CallsFor(t, q) == CallsFor(s, q)
    ensures PointsExplained(t)
  {
  }

  lemma StepKeepsPoints(s: State, step: Step)
    requires PointsExplained(s)
    ensures PointsExplained(Apply(s, step))
  {
    AppliedStep(s, step);
    forall p {
      CallsForStep(s, step, p);
    }
    if Applies(s, step) {
      var call := s.calls[step.call];
      OneMorePoint(s, Apply(s, step), step.call, PointOf(call.storeCode, call.group));
    } else {
      SamePoints(s, Apply(s, step));
    }
  }

  lemma {:induction false} EveryRunExplainsPoints(steps: seq<Step>)
    ensures PointsExplained(Run(NO_SUBMISSIONS, steps))
  {
    if steps == [] {
      assert AppliedCalls(NO_SUBMISSIONS) == {};
      assert forall p :: CallsFor(NO_SUBMISSIONS, p) == {};
    } else {
      EveryRunExplainsPoints(steps[..|steps| - 1]);
      StepKeepsPoints(Run(NO_SUBMISSIONS, steps[..|steps| - 1]), steps[|steps| - 1]);
    }
  }

  ghost predicate PricesWithin(group: seq<Row>, least: int, greatest: int) {
    forall i :: 0 <= i < |group| ==> least <= group[i].report.priceCents <= greatest
  }

  /** In [least, greatest], with at least half the group's prices on either side. */
  ghost predicate Middling(group: seq<Row>, p: int, least: int, greatest: int) {
    && least <= p <= greatest
    && 2 * CountIn(Prices(group), least, p) >= |group|
    && 2 * CountIn(Prices(group), p, greatest) >= |group|
  }

  /** Every price point is in the middle of the prices its call read. */
  lemma PointIsMiddling(steps: seq<Step>, p: Report) returns (c: nat)
    requires p in Run(NO_SUBMISSIONS, steps).points
    ensures PointFrom(Run(NO_SUBMISSIONS, steps), p, c)
    ensures var group := Run(NO_SUBMISSIONS, steps).calls[c].group;
      forall least, greatest :: PricesWithin(group, least, greatest) ==> Middling(group, p.priceCents, least, greatest)
  {
    EveryRunExplainsPoints(steps);
    var s := Run(NO_SUBMISSIONS, steps);
    assert multiset(s.points)[p] == |CallsFor(s, p)|;
    c :| c in CallsFor(s, p);
    var group := Run(NO_SUBMISSIONS, steps).calls[c].group;
    forall least, greatest | PricesWithin(group, least, greatest)
      ensures Middling(group, p.priceCents, least, greatest)
    {
      MedianHalves(Prices(group), least, greatest);
    }
  }

  /** Call `c` approved submissions at most and at least as dear as `x`. */
  ghost predicate BetweenApproved(s: State, c: nat, x: int) {
    && (exists id <- s.submissions :: ApprovedBy(s, c, id) && s.submissions[id].report.priceCents <= x)
    && (exists id <- s.submissions :: ApprovedBy(s, c, id) && x <= s.submissions[id].report.priceCents)
  }

  /** The prices a call approved are those of its group that agree with the median. */
  lemma ApprovedPrices(s: State, c: nat, x: int)
    requires CallsRecorded(s) && c in AppliedCalls(s)
    ensures BetweenApproved(s, c, x) <==>
            BetweenAgreeing(Prices(s.calls[c].group), x, Median(Prices(s.calls[c].group)))
  {
    var group, prices := s.calls[c].group, Prices(s.calls[c].group);
    var median := Median(prices);
    AgreeingWithFacts(group, median);
    forall p | p in prices && Agrees(p, median)
      ensures exists id :: id in s.submissions && ApprovedBy(s, c, id) && s.submissions[id].report.priceCents == p
    {
      var i :| 0 <= i < |prices| && prices[i] == p;
      assert group[i] in Agreeing(group);
      assert ApprovedBy(s, c, group[i].id);
    }
    forall id | id in s.submissions && ApprovedBy(s, c, id)
      ensures s.submissions[id].report.priceCents in prices && Agrees(s.submissions[id].report.priceCents, median)
    {
      var row :| row in Agreeing(group) && row.id == id;
      var i :| 0 <= i < |group| && group[i] == row;
      assert prices[i] == s.submissions[id].report.priceCents;
    }
  }

  /**
   * An applied price lies between prices that were approved with it exactly when the lower
   * middle price of the group is within 15% of it or the upper middle price equals it.
   */
  lemma PointAmongApprovedIff(steps: seq<Step>, p: Report, c: nat)
    requires PointFrom(Run(NO_SUBMISSIONS, steps), p, c)
    ensures var s := Run(NO_SUBMISSIONS, steps);
      var prices := Prices(s.calls[c].group);
      BetweenApproved(s, c, p.priceCents) <==>
      Agrees(LowerMiddle(prices), p.priceCents) || UpperMiddle(prices) == p.priceCents
  {
    EveryRunIsRecorded(steps);
    var s := Run(NO_SUBMISSIONS, steps);
    var group := s.calls[c].group;
    AgreeingWithFacts(group, Median(Prices(group)));
    var row := Agreeing(group)[0];
    var i :| 0 <= i < |group| && group[i] == row;
    assert Prices(group)[i] == row.report.priceCents;
    ApprovedPrices(s, c, p.priceCents);
    MedianBetweenAgreeingIff(Prices(group));
  }

  // ---- approved once ----

  ghost predicate ApprovedOnce(s: State) {
    forall c, d, id :: ApprovedBy(s, c, id) && ApprovedBy(s, d, id) ==> c == d
  }

  ghost predicate AllPending(s: State, c: nat)
    requires c in s.calls && !s.calls[c].NoConsensus?
  {
    forall id <- AgreeingIds(s.calls[c].group) :: id in s.submissions && s.submissions[id].status == PENDING
  }

  /**
   * The status update has no guard on the old status: it keeps every submission approved
   * at most once exactly when all it approves are still pending.
   */
  lemma ApproveKeepsOnceIffPending(s: State, c: nat)
    requires CallsRecorded(s) && StatusesExplained(s) && ApprovedOnce(s)
    requires c in s.calls && s.calls[c].Agreed?
    ensures ApprovedOnce(Apply(s, Approve(c))) <==> AllPending(s, c)
  {
    if AllPending(s, c) {
      PendingApproveKeepsOnce(s, c);
    } else {
      AgreeingIdsInTable(s, c);
      var id :| id in AgreeingIds(s.calls[c].group) && s.submissions[id].status != PENDING;
      var d :| ApprovedBy(s, d, id);
      ApprovedByStep(s, Approve(c), d, id);
      ApprovedByStep(s, Approve(c), c, id);
    }
  }

  lemma PendingApproveKeepsOnce(s: State, c: nat)
    requires StatusesExplained(s) && ApprovedOnce(s)
    requires c in s.calls && s.calls[c].Agreed? && AllPending(s, c)
    ensures ApprovedOnce(Apply(s, Approve(c)))
  {
    var t := Apply(s, Approve(c));
    forall d, e, id | ApprovedBy(t, d, id) && ApprovedBy(t, e, id)
      ensures d == e
    {
      ApprovedByStep(s, Approve(c), d, id);
      ApprovedByStep(s, Approve(c), e, id);
    }
  }

  // ---- approved once, over whole runs ----

  /** The step is an update that some call is ready to make. */
  ghost predicate Updates(s: State, step: Step) {
    step.Approve? && step.call in s.calls && s.calls[step.call].Agreed?
  }

  /** Every update of the run found all it approved still pending. */
  ghost predicate UpdatesFindPending(steps: seq<Step>) {
    steps == []
    || (var s, step := Run(NO_SUBMISSIONS, steps[..|steps| - 1]), steps[|steps| - 1];
        UpdatesFindPending(steps[..|steps| - 1]) && (Updates(s, step) ==> AllPending(s, step.call)))
  }

  lemma StepKeepsApprovals(s: State, step: Step)
    ensures ApprovedOnce(Apply(s, step)) ==> ApprovedOnce(s)
    ensures !Updates(s, step) && ApprovedOnce(s) ==> ApprovedOnce(Apply(s, step))
  {
    forall c, id
      ensures ApprovedBy(s, c, id) ==> ApprovedBy(Apply(s, step), c, id)
      ensures !Updates(s, step) && ApprovedBy(Apply(s, step), c, id) ==> ApprovedBy(s, c, id)
    {
      ApprovedByStep(s, step, c, id);
    }
  }

  /** No submission is approved twice exactly when every update found its submissions still pending. */
  lemma {:induction false} OnceIffUpdatesFindPending(steps: seq<Step>)
    ensures ApprovedOnce(Run(NO_SUBMISSIONS, steps)) <==> UpdatesFindPending(steps)
  {
    if steps != [] {
      var init, step := steps[..|steps| - 1], steps[|steps| - 1];
      var s := Run(NO_SUBMISSIONS, init);
      OnceIffUpdatesFindPending(init);
      EveryRunIsRecorded(init);
      StepKeepsApprovals(s, step);
      if Updates(s, step) && ApprovedOnce(s) {
        ApproveKeepsOnceIffPending(s, step.call);
      }
    }
  }

  /** Calls between their query and their update agree on different submissions. */
  ghost predicate AgreedApart(s: State) {
    forall c <- s.calls, d <- s.calls :: s.calls[c].Agreed? && s.calls[d].Agreed? && c != d ==>
      AgreeingIds(s.calls[c].group) !! AgreeingIds(s.calls[d].group)
  }

  /** At every point of the run, calls that overlap agree on different submissions. */
  ghost predicate NeverContend(steps: seq<Step>) {
    AgreedApart(Run(NO_SUBMISSIONS, steps)) && (steps == [] || NeverContend(steps[..|steps| - 1]))
  }

  ghost predicate AgreedPending(s: State) {
    forall c <- s.calls :: s.calls[c].Agreed? ==> AllPending(s, c)
  }

  lemma StepKeepsPending(s: State, step: Step)
    requires AgreedApart(s) && AgreedPending(s)
    ensures AgreedPending(Apply(s, step))
  {
    var t := Apply(s, step);
    forall c | c in t.calls && t.calls[c].Agreed?
      ensures AllPending(t, c)
    {
      if c !in s.calls {
        ReadRecords(s.submissions, step.storeCode, step.group);
      } else {
        assert AllPending(s, c);
      }
    }
  }

  /** Calls may overlap harmlessly as long as they agree on different submissions. */
  lemma {:induction false} DisjointCallsApproveOnce(steps: seq<Step>)
    requires NeverContend(steps)
    ensures AgreedPending(Run(NO_SUBMISSIONS, steps))
    ensures UpdatesFindPending(steps) && ApprovedOnce(Run(NO_SUBMISSIONS, steps))
  {
    if steps != [] {
      var init, step := steps[..|steps| - 1], steps[|steps| - 1];
      DisjointCallsApproveOnce(init);
      StepKeepsPending(Run(NO_SUBMISSIONS, init), step);
    }
    OnceIffUpdatesFindPending(steps);
  }

  /** No call is between its query and its status update. */
  ghost predicate NoneAgreed(s: State) {
    forall c <- s.calls :: !s.calls[c].Agreed?
  }

  /** Calls do not overlap: nobody queries while another call is between its query and its update. */
  ghost predicate NotOverlapping(steps: seq<Step>) {
    steps == []
    || (NotOverlapping(steps[..|steps| - 1])
        && (steps[|steps| - 1].ReadGroup? ==> NoneAgreed(Run(NO_SUBMISSIONS, steps[..|steps| - 1]))))
  }

  ghost predicate OneAgreed(s: State) {
    forall c <- s.calls, d <- s.calls :: s.calls[c].Agreed? && s.calls[d].Agreed? ==> c == d
  }

  lemma StepKeepsOneAgreed(s: State, step: Step)
    requires OneAgreed(s) && (step.ReadGroup? ==> NoneAgreed(s))
    ensures OneAgreed(Apply(s, step)) && AgreedApart(Apply(s, step))
  {
  }

  /** In particular, when calls do not overlap every submission is approved at most once. */
  lemma {:induction false} SerialRunsApproveOnce(steps: seq<Step>)
    requires NotOverlapping(steps)
    ensures NeverContend(steps) && OneAgreed(Run(NO_SUBMISSIONS, steps))
    ensures UpdatesFindPending(steps) && ApprovedOnce(Run(NO_SUBMISSIONS, steps))
  {
    if steps != [] {
      SerialRunsApproveOnce(steps[..|steps| - 1]);
      StepKeepsOneAgreed(Run(NO_SUBMISSIONS, steps[..|steps| - 1]), steps[|steps| - 1]);
    }
    DisjointCallsApproveOnce(steps);
  }

  // ---- three submissions behind every price ----

  ghost function AutoApproved(s: State): set<SubmissionId> {
    set id | id in s.submissions && s.submissions[id].status == AUTO_APPROVED
  }

  /** Calls that share no submission have approved at least three each. */
  lemma {:induction false} ThreeEach(s: State, cs: set<nat>, ids: set<SubmissionId>)
    requires CallsRecorded(s) && ApprovedOnce(s) && cs <= AppliedCalls(s)
    requires forall c, id :: c in cs && ApprovedBy(s, c, id) ==> id in ids
    ensures 3 * |cs| <= |ids|
  {
    if cs != {} {
      var c :| c in cs;
      var own := AgreeingIds(s.calls[c].group);
      ConsensusIds(s.calls[c].group);
      assert forall id <- own :: ApprovedBy(s, c, id);
      assert own <= ids;
      forall d, id | d in cs - {c} && ApprovedBy(s, d, id)
        ensures id in ids - own
      {
      }
      ThreeEach(s, cs - {c}, ids - own);
    }
  }

  /** As long as updates find their submissions pending, each applied price has three of its own. */
  lemma EachPriceTakesThree(steps: seq<Step>)
    requires UpdatesFindPending(steps)
    ensures var s := Run(NO_SUBMISSIONS, steps); 3 * |s.points| <= |AutoApproved(s)|
  {
    var s := Run(NO_SUBMISSIONS, steps);
    EveryRunIsRecorded(steps);
    EveryRunExplainsPoints(steps);
    OnceIffUpdatesFindPending(steps);
    forall c, id | c in AppliedCalls(s) && ApprovedBy(s, c, id)
      ensures id in AutoApproved(s)
    {
      AgreeingIdsInTable(s, c);
    }
    ThreeEach(s, AppliedCalls(s), AutoApproved(s));
  }

  // ---- one call, uninterrupted ----

  lemma RunTwo(start: State, a: Step, b: Step)
    ensures Run(start, [a, b]) == Apply(Apply(start, a), b)
  {
    AppendInit([], a);
    AppendInit([a], b);
    assert [a] + [b] == [a, b];
    assert Run(start, [a]) == Apply(Run(start, []), a);
  }

  lemma RunThree(start: State, a: Step, b: Step, c: Step)
    ensures Run(start, [a, b, c]) == Apply(Apply(Apply(start, a), b), c)
  {
    RunTwo(start, a, b);
    AppendInit([a, b], c);
    assert [a, b] + [c] == [a, b, c];
  }

  /** What one uninterrupted call does to the tables. */
  lemma WholeCall(t: Table, points: seq<Report>, storeCode: string, ids: seq<SubmissionId>, succeeds: bool)
    requires Eligible(t, storeCode, ids)
    ensures var group := RowsOf(t, ids);
      var s := Run(State(t, map[], points), [ReadGroup(0, storeCode, ids), Approve(0), ApplyPrice(0, succeeds)]);
      && s.submissions == (if HasConsensus(group) then ApproveAll(t, AgreeingIds(group)) else t)
      && s.points == if HasConsensus(group) && succeeds then points + [PointOf(storeCode, group)] else points
  {
    RunThree(State(t, map[], points), ReadGroup(0, storeCode, ids), Approve(0), ApplyPrice(0, succeeds));
  }

  /** The submissions table and the price points. */
  class PriceSubmissionsService {
    var submissions: Table
    var points: seq<Report>

    constructor ()
      ensures submissions == map[] && points == []
    {
      submissions := map[];
      points := [];
    }

    /** Approves the given rows, whatever their status was. */
    method UpdateMany(ids: set<SubmissionId>)
      modifies this`submissions
      ensures submissions == ApproveAll(old(submissions), ids)
    {
      submissions := map id | id in submissions ::
        if id in ids then submissions[id].(status := AUTO_APPROVED) else submissions[id];
    }

    /** `group` is the similarity query's answer; `succeeds` says whether applying the price does not throw. */
    method TryAutoApprove(storeCode: string, group: seq<SubmissionId>, succeeds: bool)
      requires Eligible(submissions, storeCode, group)
      modifies this
      ensures var s := Run(State(old(submissions), map[], old(points)),
                           [ReadGroup(0, storeCode, group), Approve(0), ApplyPrice(0, succeeds)]);
        submissions == s.submissions && points == s.points
    {
      WholeCall(submissions, points, storeCode, group, succeeds);
      var rows := RowsOf(submissions, group);
      if |rows| < CONSENSUS_MIN_SUBMISSIONS {
        return;
      }
      var median := Median(Prices(rows));
      var consensus := AgreeingWith(rows, median);
      if |consensus| < CONSENSUS_MIN_SUBMISSIONS {
        return;
      }
      UpdateMany(set row <- consensus :: row.id);
      var representative := consensus[0].report;
      if succeeds {
        points := points + [Report(storeCode, representative.productName, median, representative.pack)];
      }
    }

    /** Stores the report as pending and looks for a consensus; a failure there is only logged. */
    method CreateSubmission(id: SubmissionId, report: Report, group: seq<SubmissionId>, succeeds: bool)
      requires id !in submissions
      requires Eligible(submissions[id := Submission(report, PENDING)], report.storeCode, group)
      modifies this
      ensures var created := Apply(State(old(submissions), map[], old(points)), Create(id, report));
        var s := Run(created, [ReadGroup(0, report.storeCode, group), Approve(0), ApplyPrice(0, succeeds)]);
        submissions == s.submissions && points == s.points
      ensures id in submissions && submissions[id].report == report
    {
      submissions := submissions[id := Submission(report, PENDING)];
      ApprovalsNeverRevert(State(submissions, map[], points),
                           [ReadGroup(0, report.storeCode, group), Approve(0), ApplyPrice(0, succeeds)]);
      TryAutoApprove(report.storeCode, group, succeeds);
    }
  }
}
