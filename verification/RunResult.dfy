/** run_result.py: per-switch records, and the aggregate over them. */
module RunResult {
  import opened Options

  datatype Outcome =
    | SuccessNoChange | SuccessPrepared | SuccessChanged | AttentionDue
    | FailurePreAttempt | FailurePartial | FailureAmbiguous

  datatype Stage =
    | Startup | Configuration | Lock | Inspection | Decision | Preflight | CsrGeneration | CsrRetrieval
    | Signing | IssuedValidation | Installation | Activation | LiveVerification | Finalization | Completed

  datatype Milestone = NotAttempted | Confirmed | Failed | Uncertain | NotApplicable
  datatype Change = Unchanged | Changed | PossiblyChanged

  datatype Reason =
    | ConfigInvalid | LockBusy | LockFailed | PendingState | InspectionFailed | CsrFailed | SigningFailed
    | ValidationFailed | InstallationFailed | VerificationFailed | RecoveryRequired | UnexpectedFailure

  datatype Milestones = Milestones(
    csr: Milestone, issuance: Milestone, installation: Milestone, activation: Milestone, liveTls: Milestone)

  datatype Operation = Inspect | RenewDue | RenewNow | GenerateCsr | RetrieveCsr | SignCsr | Install

  const UNTOUCHED := Milestones(NotAttempted, NotAttempted, NotAttempted, NotAttempted, NotAttempted)
  const ALL_CONFIRMED := Milestones(Confirmed, Confirmed, Confirmed, Confirmed, Confirmed)

  function Severity(o: Outcome): nat {
    match o
    case SuccessNoChange => 0
    case SuccessPrepared => 1
    case SuccessChanged => 2
    case AttentionDue => 3
    case FailurePreAttempt => 4
    case FailurePartial => 5
    case FailureAmbiguous => 6
  }

  predicate IsFailure(o: Outcome) {
    o.FailurePreAttempt? || o.FailurePartial? || o.FailureAmbiguous?
  }

  class SwitchResult {
    var outcome: Outcome
    var stage: Stage
    var renewalDue: Option<bool>
    var change: Change
    var manualRecovery: bool
    var reason: Option<Reason>
    var pendingCsrObserved: bool
    var milestones: Milestones

    constructor ()
      ensures Fresh()
    {
      outcome, stage, renewalDue, change := FailurePreAttempt, Startup, None, Unchanged;
      manualRecovery, reason, pendingCsrObserved, milestones := false, None, false, UNTOUCHED;
    }

    /** Nothing has been reported about this switch. */
    predicate Fresh()
      reads this
    {
      && outcome == FailurePreAttempt && change == Unchanged && !manualRecovery && reason.None?
      && !pendingCsrObserved && milestones == UNTOUCHED && renewalDue.None?
    }
  }

  function Outcomes(items: seq<SwitchResult>): (outcomes: seq<Outcome>)
    reads items
    ensures |outcomes| == |items| && forall i | 0 <= i < |items| :: outcomes[i] == items[i].outcome
  {
    seq(|items|, i requires 0 <= i < |items| reads items => items[i].outcome)
  }

  /** The first outcome of the highest severity; a run without results keeps the
      default of a run that has not completed. */
  function Aggregated(outcomes: seq<Outcome>): Outcome {
    if outcomes == [] then FailurePreAttempt
    else if |outcomes| == 1 then outcomes[0]
    else
      var before, last := Aggregated(outcomes[..|outcomes| - 1]), outcomes[|outcomes| - 1];
      if Severity(last) > Severity(before) then last else before
  }

  lemma {:induction false} AggregatedIsWorst(outcomes: seq<Outcome>)
    requires outcomes != []
    ensures Aggregated(outcomes) in outcomes
    ensures forall o | o in outcomes :: Severity(o) <= Severity(Aggregated(outcomes))
  {
    var n := |outcomes| - 1;
    assert outcomes == outcomes[..n] + [outcomes[n]];
    if n > 0 {
      AggregatedIsWorst(outcomes[..n]);
    }
  }

  /** The worst outcome that occurs, from the worst on. */
  lemma AggregatedExactly(outcomes: seq<Outcome>)
    requires outcomes != []
    ensures Aggregated(outcomes) ==
      if FailureAmbiguous in outcomes then FailureAmbiguous else if FailurePartial in outcomes then FailurePartial
      else if FailurePreAttempt in outcomes then FailurePreAttempt else if AttentionDue in outcomes then AttentionDue
      else if SuccessChanged in outcomes then SuccessChanged else if SuccessPrepared in outcomes then SuccessPrepared
      else SuccessNoChange
  {
    AggregatedIsWorst(outcomes);
  }

  /** Entry k is the first of those with the highest severity. */
  ghost predicate Chosen(outcomes: seq<Outcome>, k: nat)
    requires k < |outcomes|
  {
    && (forall j | 0 <= j < |outcomes| :: Severity(outcomes[j]) <= Severity(outcomes[k]))
    && (forall j | 0 <= j < k :: Severity(outcomes[j]) < Severity(outcomes[k]))
  }

  lemma SeverityInjective(a: Outcome, b: Outcome)
    ensures Severity(a) == Severity(b) <==> a == b
  {
  }

  lemma ChosenIsAggregated(outcomes: seq<Outcome>, k: nat)
    requires k < |outcomes| && Chosen(outcomes, k)
    ensures outcomes[k] == Aggregated(outcomes)
  {
    AggregatedIsWorst(outcomes);
    SeverityInjective(outcomes[k], Aggregated(outcomes));
    assert outcomes[k] in outcomes;
  }

  /** max(items, key=severity): the first of the greatest. */
  method MostSerious(items: seq<SwitchResult>) returns (chosen: nat)
    requires items != []
    ensures chosen < |items| && Chosen(Outcomes(items), chosen)
  {
    ghost var outcomes := Outcomes(items);
    chosen := 0;
    for i := 1 to |items|
      invariant chosen < i
      invariant forall j | 0 <= j < i :: Severity(outcomes[j]) <= Severity(outcomes[chosen])
      invariant forall j | 0 <= j < chosen :: Severity(outcomes[j]) < Severity(outcomes[chosen])
    {
      if Severity(items[i].outcome) > Severity(items[chosen].outcome) { chosen := i; }
    }
  }

  class Run {
    const operation: Operation
    var outcome: Outcome
    var stage: Stage
    var manualRecovery: bool
    var reason: Option<Reason>
    var results: seq<SwitchResult>

    constructor (operation: Operation)
      ensures this.operation == operation && results == [] && outcome == FailurePreAttempt
      ensures !manualRecovery && reason.None? && stage == Startup
    {
      this.operation, outcome, stage := operation, FailurePreAttempt, Startup;
      manualRecovery, reason, results := false, None, [];
    }

    method Finish()
      modifies this`outcome, this`stage, this`manualRecovery, this`reason
      ensures results == [] ==>
                outcome == old(outcome) && stage == old(stage) && reason == old(reason)
                && manualRecovery == old(manualRecovery)
      ensures results != [] ==>
                exists k: nat | k < |results| ::
                  && Chosen(Outcomes(results), k)
                  && outcome == results[k].outcome && reason == results[k].reason
                  && stage == if Severity(outcome) >= Severity(AttentionDue) then results[k].stage else Completed
      ensures results != [] ==> outcome == Aggregated(Outcomes(results))
      ensures results != [] ==>
                (manualRecovery <==> old(manualRecovery) || exists item | item in results :: item.manualRecovery)
    {
      hide Aggregated, Chosen, Severity, Outcomes;
      if results != [] {
        var chosen := MostSerious(results);
        var any := exists item | item in results :: item.manualRecovery;
        ChosenIsAggregated(Outcomes(results), chosen);
        var item := results[chosen];
        outcome, reason, manualRecovery, stage := item.outcome, item.reason, manualRecovery || any,
          if Severity(item.outcome) >= Severity(AttentionDue) then item.stage else Completed;
      }
    }
  }

  const EXIT_OK := 0
  const EXIT_WARNING := 1
  const EXIT_ERROR := 2

  /** The exit code of a JSON run that reached its switches. */
  function ExitCode(operation: Operation, outcomes: seq<Outcome>): int {
    if exists o | o in outcomes :: IsFailure(o) then EXIT_ERROR
    else if operation.Inspect? && AttentionDue in outcomes then EXIT_WARNING
    else EXIT_OK
  }

  lemma ExitCodeExactly(operation: Operation, outcomes: seq<Outcome>)
    ensures ExitCode(operation, outcomes) ==
      if FailurePreAttempt in outcomes || FailurePartial in outcomes || FailureAmbiguous in outcomes then 2
      else if operation.Inspect? && AttentionDue in outcomes then 1 else 0
  {
  }

  /** What the exit code tells about the aggregate. */
  predicate Agrees(operation: Operation, code: int, aggregate: Outcome) {
    && (code == EXIT_ERROR <==> IsFailure(aggregate))
    && (code == EXIT_WARNING <==> aggregate == AttentionDue)
    && (code == EXIT_OK <==> !IsFailure(aggregate) && aggregate != AttentionDue)
  }

  /** What a caller can look up before the run: there is a result, and attention is only
      due in an inspection, or else some failure outweighs it. */
  predicate Comparable(operation: Operation, outcomes: seq<Outcome>) {
    outcomes != [] && (operation.Inspect? || AttentionDue !in outcomes || exists o | o in outcomes :: IsFailure(o))
  }

  /** Exit code and aggregate agree for exactly these lists. */
  lemma ExitCodeAgreesExactly(operation: Operation, outcomes: seq<Outcome>)
    ensures Agrees(operation, ExitCode(operation, outcomes), Aggregated(outcomes)) <==> Comparable(operation, outcomes)
  {
    if outcomes != [] {
      AggregatedIsWorst(outcomes);
      var worst := Aggregated(outcomes);
      if o :| o in outcomes && IsFailure(o) {
        assert Severity(o) <= Severity(worst) && IsFailure(worst);
      } else {
        assert !IsFailure(worst);
        assert AttentionDue in outcomes ==> worst == AttentionDue;
      }
    }
  }

  /** An empty list would exit with 0 beside a failure aggregate. */
  lemma EmptyRunDisagrees(operation: Operation)
    ensures ExitCode(operation, []) == EXIT_OK && Aggregated([]) == FailurePreAttempt
    ensures !Agrees(operation, ExitCode(operation, []), Aggregated([]))
  {
  }
}
