/** What goes wrong when two calls that look for a consensus overlap. */
module Overlaps {
  import opened Sequences
  import opened OrderedMaps
  import opened Medians
  import opened Options
  import opened Consensus

  function Stage(call: Call): nat {
    match call
    case NoConsensus => 0
    case Agreed(_, _) => 1
    case Approved(_, _) => 2
    case Applied(_, _) => 3
    case NotApplied(_, _) => 3
  }

  /** Call `c` got this answer from its query and has come at least to `stage`. */
  ghost predicate Reached(s: State, c: nat, storeCode: string, group: seq<Row>, stage: nat) {
    c in s.calls && !s.calls[c].NoConsensus? && s.calls[c].storeCode == storeCode && s.calls[c].group == group
    && stage <= Stage(s.calls[c])
  }

  lemma StepKeepsReached(s: State, step: Step, c: nat, storeCode: string, group: seq<Row>, stage: nat)
    requires Reached(s, c, storeCode, group, stage)
    ensures Reached(Apply(s, step), c, storeCode, group, stage)
    ensures step == Approve(c) ==> Reached(Apply(s, step), c, storeCode, group, 2)
    ensures step == ApplyPrice(c, true) && HasConsensus(group) && stage >= 2 ==>
              Reached(Apply(s, step), c, storeCode, group, 3)
  {
  }

  lemma {:induction false} RunKeepsReached(
    steps: seq<Step>, n: nat, c: nat, storeCode: string, group: seq<Row>, stage: nat)
    requires n <= |steps| && Reached(Run(NO_SUBMISSIONS, steps[..n]), c, storeCode, group, stage)
    ensures Reached(Run(NO_SUBMISSIONS, steps), c, storeCode, group, stage)
  {
    if n == |steps| {
      FullPrefix(steps);
    } else {
      var init := steps[..|steps| - 1];
      assert init[..n] == steps[..n];
      RunKeepsReached(init, n, c, storeCode, group, stage);
      StepKeepsReached(Run(NO_SUBMISSIONS, init), steps[|steps| - 1], c, storeCode, group, stage);
    }
  }

  lemma UpdateReached(steps: seq<Step>, n: nat, k: nat, c: nat, storeCode: string, group: seq<Row>)
    requires n <= k < |steps| && Reached(Run(NO_SUBMISSIONS, steps[..n]), c, storeCode, group, 1)
    requires steps[k] == Approve(c)
    ensures Reached(Run(NO_SUBMISSIONS, steps[..k + 1]), c, storeCode, group, 2)
  {
    assert steps[..k][..n] == steps[..n];
    RunKeepsReached(steps[..k], n, c, storeCode, group, 1);
    StepKeepsReached(Run(NO_SUBMISSIONS, steps[..k]), steps[k], c, storeCode, group, 1);
    PrefixStep(steps, k);
  }

  lemma PriceReached(steps: seq<Step>, n: nat, k: nat, c: nat, storeCode: string, group: seq<Row>)
    requires n <= k < |steps| && Reached(Run(NO_SUBMISSIONS, steps[..n]), c, storeCode, group, 2)
    requires steps[k] == ApplyPrice(c, true) && HasConsensus(group)
    ensures Reached(Run(NO_SUBMISSIONS, steps[..k + 1]), c, storeCode, group, 3)
  {
    assert steps[..k][..n] == steps[..n];
    RunKeepsReached(steps[..k], n, c, storeCode, group, 2);
    StepKeepsReached(Run(NO_SUBMISSIONS, steps[..k]), steps[k], c, storeCode, group, 2);
    PrefixStep(steps, k);
  }

  /** Applying a price never throws for a call that has no such step. */
  lemma {:induction false} NeverNotApplied(steps: seq<Step>, c: nat)
    requires ApplyPrice(c, false) !in steps
    ensures c in Run(NO_SUBMISSIONS, steps).calls ==> !Run(NO_SUBMISSIONS, steps).calls[c].NotApplied?
  {
    if steps != [] {
      NeverNotApplied(steps[..|steps| - 1], c);
      assert steps[|steps| - 1] in steps;
    }
  }

  /** At step `i` call `c` asks for this group, all still pending, and it has a consensus. */
  ghost predicate Queries(
    steps: seq<Step>, i: nat, c: nat, storeCode: string, ids: seq<SubmissionId>, group: seq<Row>)
  {
    && i < |steps| && steps[i] == ReadGroup(c, storeCode, ids)
    && var s := Run(NO_SUBMISSIONS, steps[..i]);
    && c !in s.calls && Eligible(s.submissions, storeCode, ids)
    && group == RowsOf(s.submissions, ids) && HasConsensus(group)
  }

  lemma QueryReaches(
    steps: seq<Step>, i: nat, c: nat, storeCode: string, ids: seq<SubmissionId>, group: seq<Row>)
    requires Queries(steps, i, c, storeCode, ids, group)
    ensures Reached(Run(NO_SUBMISSIONS, steps[..i + 1]), c, storeCode, group, 1)
  {
    PrefixStep(steps, i);
  }

  lemma AppliedPoint(s: State, c: nat, storeCode: string, group: seq<Row>)
    requires HasConsensus(group) && Reached(s, c, storeCode, group, 3) && !s.calls[c].NotApplied?
    ensures PointFrom(s, PointOf(storeCode, group), c)
    ensures forall id <- AgreeingIds(group) :: ApprovedBy(s, c, id)
  {
  }

  lemma UpdatedThenPriced(
    steps: seq<Step>, n: nat, k: nat, m: nat, c: nat, storeCode: string, group: seq<Row>)
    requires n <= k < m < |steps| && steps[k] == Approve(c) && steps[m] == ApplyPrice(c, true)
    requires Reached(Run(NO_SUBMISSIONS, steps[..n]), c, storeCode, group, 1) && HasConsensus(group)
    ensures Reached(Run(NO_SUBMISSIONS, steps[..m + 1]), c, storeCode, group, 3)
  {
    UpdateReached(steps, n, k, c, storeCode, group);
    PriceReached(steps, k + 1, m, c, storeCode, group);
  }

  lemma CallGoesThrough(
    steps: seq<Step>, n: nat, k: nat, m: nat, c: nat, storeCode: string, group: seq<Row>)
    requires n <= k < m < |steps| && steps[k] == Approve(c) && steps[m] == ApplyPrice(c, true)
    requires Reached(Run(NO_SUBMISSIONS, steps[..n]), c, storeCode, group, 1) && HasConsensus(group)
    ensures Reached(Run(NO_SUBMISSIONS, steps), c, storeCode, group, 3)
  {
    UpdatedThenPriced(steps, n, k, m, c, storeCode, group);
    RunKeepsReached(steps, m + 1, c, storeCode, group, 3);
  }

  /** One call that queried at `i` goes through with its update at `k` and its price at `m`. */
  lemma QueryGoesThrough(
    steps: seq<Step>, i: nat, k: nat, m: nat, c: nat, storeCode: string, ids: seq<SubmissionId>, group: seq<Row>)
    requires Queries(steps, i, c, storeCode, ids, group)
    requires i < k < m < |steps| && steps[k] == Approve(c) && steps[m] == ApplyPrice(c, true)
    requires ApplyPrice(c, false) !in steps
    ensures var s := Run(NO_SUBMISSIONS, steps);
      && PointFrom(s, PointOf(storeCode, group), c)
      && forall id <- AgreeingIds(group) :: ApprovedBy(s, c, id)
  {
    QueryReaches(steps, i, c, storeCode, ids, group);
    CallGoesThrough(steps, i + 1, k, m, c, storeCode, group);
    NeverNotApplied(steps, c);
    AppliedPoint(Run(NO_SUBMISSIONS, steps), c, storeCode, group);
  }

  lemma WrittenTwice(s: State, p: Report, c: nat, d: nat)
    requires PointsExplained(s) && c != d && PointFrom(s, p, c) && PointFrom(s, p, d)
    ensures multiset(s.points)[p] >= 2
  {
    SubsetCardinality({c, d}, CallsFor(s, p));
    assert multiset(s.points)[p] == |CallsFor(s, p)|;
  }

  /**
   * Overlap: when two calls get the same group with a consensus before either has updated
   * it, and both go on, both approve it and the same price is written twice, whatever
   * other steps come in between and in whatever order the two finish.
   */
  lemma OverlapAppliesTwice(
    steps: seq<Step>, i: nat, j: nat, k: nat, l: nat, m: nat, n: nat, c: nat, d: nat,
    storeCode: string, ids: seq<SubmissionId>, group: seq<Row>)
    requires c != d && Queries(steps, i, c, storeCode, ids, group) && Queries(steps, j, d, storeCode, ids, group)
    requires i < k && j < k && i < l && j < l
    requires k < m < |steps| && steps[k] == Approve(c) && steps[m] == ApplyPrice(c, true)
    requires l < n < |steps| && steps[l] == Approve(d) && steps[n] == ApplyPrice(d, true)
    requires ApplyPrice(c, false) !in steps && ApplyPrice(d, false) !in steps
    ensures var s := Run(NO_SUBMISSIONS, steps);
      && multiset(s.points)[PointOf(storeCode, group)] >= 2
      && forall id <- AgreeingIds(group) :: ApprovedBy(s, c, id) && ApprovedBy(s, d, id)
  {
    QueryGoesThrough(steps, i, k, m, c, storeCode, ids, group);
    QueryGoesThrough(steps, j, l, n, d, storeCode, ids, group);
    EveryRunExplainsPoints(steps);
    WrittenTwice(Run(NO_SUBMISSIONS, steps), PointOf(storeCode, group), c, d);
  }

  const NOODLES := Report("FAIRPRICE", "instant noodles", 100, Pack(None, None))

  function ThreeIds(): seq<SubmissionId> {
    [SubmissionId("a"), SubmissionId("b"), SubmissionId("c")]
  }

  function ThreeReports(): seq<Step> {
    [Create(ThreeIds()[0], NOODLES), Create(ThreeIds()[1], NOODLES), Create(ThreeIds()[2], NOODLES)]
  }

  function ThreePending(): Table {
    map id | id in ThreeIds() :: Submission(NOODLES, PENDING)
  }

  lemma ThreeReportsStored()
    ensures Run(NO_SUBMISSIONS, ThreeReports()) == State(ThreePending(), map[], [])
  {
    var ids := ThreeIds();
    RunThree(NO_SUBMISSIONS, Create(ids[0], NOODLES), Create(ids[1], NOODLES), Create(ids[2], NOODLES));
    assert Run(NO_SUBMISSIONS, ThreeReports()).submissions == ThreePending();
  }

  lemma ThreeReportsAgree()
    ensures Eligible(ThreePending(), NOODLES.storeCode, ThreeIds())
    ensures HasConsensus(RowsOf(ThreePending(), ThreeIds()))
  {
    var group := RowsOf(ThreePending(), ThreeIds());
    MedianHalves(Prices(group), 100, 100);
    AllAgree(group, 100);
  }

  lemma {:induction false} AllAgree(group: seq<Row>, median: int)
    requires forall i :: 0 <= i < |group| ==> Agrees(group[i].report.priceCents, median)
    ensures AgreeingWith(group, median) == group
  {
    if group != [] {
      AllAgree(group[..|group| - 1], median);
    }
  }

  lemma {:induction false} AtMostListed(ids: set<SubmissionId>, listed: seq<SubmissionId>)
    requires forall id <- ids :: id in listed
    ensures |ids| <= |listed|
  {
    if listed != [] {
      var init, last := listed[..|listed| - 1], listed[|listed| - 1];
      AtMostListed(ids - {last}, init);
      SubsetCardinality(ids, (ids - {last}) + {last});
    }
  }

  /** Submissions come from `Create` steps only. */
  lemma {:induction false} SubmissionsWereCreated(steps: seq<Step>, id: SubmissionId)
    requires id in Run(NO_SUBMISSIONS, steps).submissions
    ensures exists i :: 0 <= i < |steps| && steps[i].Create? && steps[i].id == id
  {
    var init, step := steps[..|steps| - 1], steps[|steps| - 1];
    if id in Run(NO_SUBMISSIONS, init).submissions {
      SubmissionsWereCreated(init, id);
      var i :| 0 <= i < |init| && init[i].Create? && init[i].id == id;
      assert steps[i].id == id;
    } else {
      assert step.Create? && step.id == id;
    }
  }

  /** Three reports, and two calls that both query before either updates. */
  function TwoCalls(): seq<Step> {
    ThreeReports()
    + [ReadGroup(0, NOODLES.storeCode, ThreeIds())] + [ReadGroup(1, NOODLES.storeCode, ThreeIds())]
    + [Approve(0), Approve(1), ApplyPrice(0, true), ApplyPrice(1, true)]
  }

  lemma BothQuery(group: seq<Row>)
    requires group == RowsOf(ThreePending(), ThreeIds())
    ensures Queries(TwoCalls(), 3, 0, NOODLES.storeCode, ThreeIds(), group)
    ensures Queries(TwoCalls(), 4, 1, NOODLES.storeCode, ThreeIds(), group)
  {
    ThreeReportsStored();
    ThreeReportsAgree();
    var read := ReadGroup(0, NOODLES.storeCode, ThreeIds());
    assert TwoCalls()[..3] == ThreeReports();
    assert TwoCalls()[..4] == ThreeReports() + [read];
    AppendInit(ThreeReports(), read);
    assert Run(NO_SUBMISSIONS, ThreeReports() + [read]) == Apply(Run(NO_SUBMISSIONS, ThreeReports()), read);
  }

  lemma NoneFails(c: nat)
    ensures ApplyPrice(c, false) !in TwoCalls()
  {
    forall k | 0 <= k < |TwoCalls()|
      ensures TwoCalls()[k] != ApplyPrice(c, false)
    {
      assert TwoCalls()[k].ApplyPrice? ==> k >= 7;
    }
  }

  lemma TwoPrices()
    ensures |Run(NO_SUBMISSIONS, TwoCalls()).points| >= 2
  {
    var group := RowsOf(ThreePending(), ThreeIds());
    ThreeReportsAgree();
    BothQuery(group);
    NoneFails(0);
    NoneFails(1);
    OverlapAppliesTwice(TwoCalls(), 3, 4, 5, 6, 7, 8, 0, 1, NOODLES.storeCode, ThreeIds(), group);
    var points := multiset(Run(NO_SUBMISSIONS, TwoCalls()).points);
    assert points[PointOf(NOODLES.storeCode, group)] <= |points|;
  }

  /** So overlapping calls can apply two prices on the strength of only three submissions. */
  lemma TwoPricesFromThree()
    ensures var s := Run(NO_SUBMISSIONS, TwoCalls()); |s.points| >= 2 && |AutoApproved(s)| <= 3
  {
    TwoPrices();
    var s := Run(NO_SUBMISSIONS, TwoCalls());
    forall id | id in AutoApproved(s)
      ensures id in ThreeIds()
    {
      CreatedAmongThree(id);
    }
    AtMostListed(AutoApproved(s), ThreeIds());
  }

  lemma CreatedAmongThree(id: SubmissionId)
    requires id in Run(NO_SUBMISSIONS, TwoCalls()).submissions
    ensures id in ThreeIds()
  {
    SubmissionsWereCreated(TwoCalls(), id);
  }
}
