/** What the structured report says about one switch, and that it is true. */
module JsonReport {
  import opened Options
  import opened RunResult
  import opened RenewalWorld
  import opened InstallDialogue
  import opened Renewal
  import opened RenewalProgress

  datatype Verdict = Verdict(outcome: Outcome, manual: bool, milestones: Milestones, change: Change)

  function VerdictOf(item: SwitchResult): Verdict
    reads item
  {
    Verdict(item.outcome, item.manualRecovery, item.milestones, item.change)
  }

  /** _json_failure_outcome */
  function FailureOutcome(change: Change, m: Milestones): Outcome {
    if change.PossiblyChanged? || m.csr.Uncertain? || m.issuance.Uncertain? || m.installation.Uncertain? then
      FailureAmbiguous
    else if change.Changed? || m.issuance.Confirmed? || m.installation.Confirmed? || m.activation.Confirmed? then
      FailurePartial
    else FailurePreAttempt
  }

  /** Ambiguous as soon as the change or one of the three commands is uncertain; else partial as
      soon as something is known to have changed. */
  lemma FailureOutcomeExactly(change: Change, m: Milestones)
    ensures FailureOutcome(change, m).FailureAmbiguous? <==>
              change.PossiblyChanged? || Uncertain in [m.csr, m.issuance, m.installation]
    ensures FailureOutcome(change, m).FailurePreAttempt? <==>
              change.Unchanged? && Uncertain !in [m.csr, m.issuance, m.installation]
              && Confirmed !in [m.issuance, m.installation, m.activation]
    ensures IsFailure(FailureOutcome(change, m))
  {
  }

  /** _json_failure, as a function of the error and of the progress so far. */
  function Classified(e: Error, change: Change, m: Milestones, observed: bool): Verdict {
    var outcome := FailureOutcome(change, m);
    match e
    case PendingCsrPreflight => Verdict(FailurePreAttempt, true, m, change)
    case RenewalPreflight => Verdict(FailurePreAttempt, false, m, change)
    case CsrPreAttempt => Verdict(FailurePreAttempt, false, m, change)
    case CsrAttempt => Verdict(FailureAmbiguous, true, m.(csr := Uncertain), PossiblyChanged)
    case InstallAttempt(_) => Verdict(FailureAmbiguous, true, m.(installation := Uncertain), PossiblyChanged)
    case PreInstallation => Verdict(outcome, true, m, change)
    case LiveHttps => Verdict(outcome, true, m.(liveTls := Failed), change)
    case _ => Verdict(outcome, outcome != FailurePreAttempt || m.csr.Confirmed? || observed, m, change)
  }

  /** What the record gives as the reason; for signing it depends on how far it got. */
  function ReasonFor(e: Error, stage: Stage): Reason {
    match e
    case PendingCsrPreflight => PendingState
    case RenewalPreflight => InspectionFailed
    case CsrPreAttempt => CsrFailed
    case CsrAttempt => CsrFailed
    case CsrSigning =>
      if stage.IssuedValidation? then ValidationFailed else if stage.CsrRetrieval? then CsrFailed else SigningFailed
    case PreInstallation => ValidationFailed
    case InstallAttempt(_) => InstallationFailed
    case LiveHttps => VerificationFailed
    case Foreign(_) => UnexpectedFailure
  }

  /** Where a failed switch is said to stand; the last two leave it where it was. */
  function FailedStage(e: Error, before: Stage): Stage {
    match e
    case PendingCsrPreflight => Preflight
    case RenewalPreflight => Preflight
    case CsrPreAttempt => Stage.CsrGeneration
    case CsrAttempt => Stage.CsrGeneration
    case PreInstallation => Installation
    case InstallAttempt(_) => Installation
    case LiveHttps => LiveVerification
    case CsrSigning => before
    case Foreign(_) => before
  }

  method JsonFailure(item: SwitchResult, e: Error)
    modifies item`outcome, item`stage, item`manualRecovery, item`reason, item`milestones, item`change
    ensures VerdictOf(item) == Classified(e, old(item.change), old(item.milestones), item.pendingCsrObserved)
    ensures item.reason == Some(ReasonFor(e, old(item.stage))) && item.stage == FailedStage(e, old(item.stage))
  {
    item.manualRecovery := false;
    match e
    case PendingCsrPreflight =>
      item.outcome, item.stage := FailurePreAttempt, Preflight;
      item.reason := Some(PendingState);
      item.manualRecovery := true;
    case RenewalPreflight =>
      item.outcome, item.stage := FailurePreAttempt, Preflight;
      item.reason := Some(InspectionFailed);
    case CsrPreAttempt =>
      item.outcome, item.stage := FailurePreAttempt, CsrGeneration;
      item.reason := Some(CsrFailed);
    case CsrAttempt =>
      item.outcome, item.stage := FailureAmbiguous, CsrGeneration;
      item.reason := Some(CsrFailed);
      item.milestones := item.milestones.(csr := Uncertain);
      item.change := PossiblyChanged;
      item.manualRecovery := true;
    case CsrSigning =>
      item.outcome := FailureOutcome(item.change, item.milestones);
      item.reason := Some(if item.stage.IssuedValidation? then ValidationFailed
                          else if item.stage.CsrRetrieval? then CsrFailed else SigningFailed);
      item.manualRecovery := item.outcome != FailurePreAttempt || item.milestones.csr.Confirmed?
                             || item.pendingCsrObserved;
    case PreInstallation =>
      item.outcome, item.stage := FailureOutcome(item.change, item.milestones), Installation;
      item.reason := Some(ValidationFailed);
      item.manualRecovery := true;
    case InstallAttempt(_) =>
      item.outcome, item.stage := FailureAmbiguous, Installation;
      item.reason := Some(InstallationFailed);
      item.milestones := item.milestones.(installation := Uncertain);
      item.change := PossiblyChanged;
      item.manualRecovery := true;
    case LiveHttps =>
      item.outcome, item.stage := FailureOutcome(item.change, item.milestones), LiveVerification;
      item.reason := Some(VerificationFailed);
      item.milestones := item.milestones.(liveTls := Failed);
      item.manualRecovery := true;
    case Foreign(_) =>
      item.outcome := FailureOutcome(item.change, item.milestones);
      item.reason := Some(UnexpectedFailure);
      item.manualRecovery := item.outcome != FailurePreAttempt || item.milestones.csr.Confirmed?
                             || item.pendingCsrObserved;
  }

  // ---- Renewal, by how far it gets ----

  /** The attempt failed, and closing the connection failed as well. */
  predicate Concealed(env: Environment, n: nat, first: nat) {
    first <= n < first + 3 && env.fails(InstallClose).Some?
  }

  function OutcomeAt(env: Environment, n: nat): Outcome {
    if n < 2 then FailurePreAttempt
    else if n == 2 || n == 4 || (7 <= n <= 10 && !Concealed(env, n, 7)) then FailureAmbiguous
    else if n < 12 then FailurePartial
    else SuccessChanged
  }

  /** The whole record of a renewal that fails behind its first n stages, or succeeds after
      all twelve. */
  predicate RecordAt(env: Environment, n: nat, v: Verdict, sent: seq<Mutation>) {
    var unresolved := 7 <= n <= 10 && !Concealed(env, n, 7);
    && v.outcome == OutcomeAt(env, n) && sent == ALL_MUTATIONS[..CommandsBy(n)]
    && v.milestones.csr == (if n < 2 then NotAttempted else if n == 2 then Uncertain else Confirmed)
    && v.milestones.issuance == (if n < 4 then NotAttempted else if n == 4 then Uncertain else Confirmed)
    && v.milestones.installation
       == (if n > 10 then Confirmed else if unresolved then Uncertain else NotAttempted)
    && v.milestones.activation == (if n > 10 then Confirmed else NotAttempted)
    && (v.milestones.liveTls.Confirmed? <==> n == 12)
    && (v.milestones.liveTls.Failed? <==>
          n == 11 && (env.fails(LiveCheck) == Some(ValueFailure) || env.fails(LiveCheck) == Some(OSFailure)))
    && !v.milestones.liveTls.Uncertain?
    && v.change == (if n < 2 then Unchanged else if n == 2 || n == 4 || unresolved then PossiblyChanged else Changed)
    && (v.manual <==> 2 <= n < 12 || (n == 0 && env.fails(SnapshotCheck).None? && env.fails(PreflightRead).None?
                                      && env.pendingFound))
  }

  /** The reason code; an exception of a kind that no stage names is unexpected, except where an
      attempt is unresolved. */
  predicate ReasonAt(env: Environment, n: nat, reason: Reason) {
    if n == 2 then reason.CsrFailed?
    else if 7 <= n <= 10 then if Concealed(env, n, 7) then reason.ValidationFailed? else reason.InstallationFailed?
    else if n == 0 && env.fails(SnapshotCheck).None? && env.fails(PreflightRead).None? && env.pendingFound then
      reason.PendingState?
    else if n == 11 then
      var x := env.fails(LiveCheck);
      reason == if x == Some(ValueFailure) || x == Some(OSFailure) then VerificationFailed else UnexpectedFailure
    else
      || reason.UnexpectedFailure?
      || (n == 0 && env.fails(SnapshotCheck).None? && reason.InspectionFailed?)
      || (n == 1 && reason.CsrFailed?)
      || (3 <= n <= 5
          && var retrieved := AllHold(env, CSR_RETRIEVAL + [Passing(SignValidate)]);
             reason == if env.fails(SignArguments).None? && !retrieved then CsrFailed
                       else if n == 5 && env.fails(SignFetch).None? then ValidationFailed
                       else SigningFailed)
      || (n == 6 && reason.ValidationFailed?)
  }

  /** The stage the record gives; behind an unexpected failure it is where the last report
      left it. */
  predicate StageAt(env: Environment, n: nat, reason: Option<Reason>, stage: Stage) {
    if n == 0 then stage.Preflight?
    else if n == 1 then stage == if reason == Some(CsrFailed) then Stage.CsrGeneration else Preflight
    else if n == 2 then stage.CsrGeneration?
    else if n == 3 then
      stage == if env.fails(SignArguments).Some? then Stage.CsrGeneration
               else if !AllHold(env, CSR_RETRIEVAL + [Passing(SignValidate)]) then CsrRetrieval else Signing
    else if n < 6 then stage == if n == 4 || env.fails(SignFetch).Some? then Signing else IssuedValidation
    else if n == 6 then stage == if reason == Some(ValidationFailed) then Installation else IssuedValidation
    else if n < 11 then stage.Installation?
    else if n == 11 then stage == if reason == Some(VerificationFailed) then LiveVerification else Activation
    else stage.Completed?
  }

  lemma ConcealedIs(env: Environment)
    ensures var n := Progress(env, RENEWAL); SignDone(env) && AttemptHidden(env) <==> Concealed(env, n, 7)
  {
    RenewalThresholds(env);
    hide SignDone, InstallReached, InConfigMode, Installed, Progress;
  }

  lemma SuccessRecorded(env: Environment)
    requires RenewalWorks(env)
    ensures RecordAt(env, Progress(env, RENEWAL),
                     Verdict(SuccessChanged, false, RenewalMilestones(env), RenewalChange(env)), RenewalSent(env))
    ensures StageAt(env, Progress(env, RENEWAL), None, Completed)
  {
    RenewalThresholds(env);
    SentBy(env);
    hide RenewalSent, Progress, CsrDone, PostReached, PostSaved, InstallDone, RenewalWorks;
  }

  lemma FailureRecorded(env: Environment, e: Error, observed: bool)
    requires !RenewalWorks(env) && Names(env, e) && (observed ==> CsrDone(env))
    ensures RecordAt(env, Progress(env, RENEWAL),
                     Classified(e, RenewalChange(env), RenewalMilestones(env), observed), RenewalSent(env))
  {
    RenewalThresholds(env);
    SentBy(env);
    ConcealedIs(env);
    PendingAt(env);
    FirstStages(env);
    CsrStages(env);
    hide AllHold, CsrReached, CsrWorks;
    hide RenewalSent, Progress, CsrSent, CsrDone, SignDone, PostReached, PostSaved, InstallWorks,
      InstallReached, InConfigMode, Installed, CommandsBy;
  }

  lemma ReasonRecorded(env: Environment, e: Error)
    requires !RenewalWorks(env) && Names(env, e)
    ensures var n, stage := Progress(env, RENEWAL), RenewalStage(env, Preflight);
      && ReasonAt(env, n, ReasonFor(e, stage))
      && StageAt(env, n, Some(ReasonFor(e, stage)), FailedStage(e, stage))
  {
    RenewalThresholds(env);
    ConcealedIs(env);
    PendingAt(env);
    SigningAt(env);
    CsrBefore(env);
    FirstStages(env);
    CsrStages(env);
    hide Progress, CsrSent, CsrDone, PostReached, PostSaved, InstallWorks, InConfigMode,
      Installed, AllHold, CsrAtHand, CsrReached, CsrWorks;
  }

  lemma SigningAt(env: Environment)
    ensures CsrAtHand(env) <==> env.Passes(SignArguments) && AllHold(env, CSR_RETRIEVAL + [Passing(SignValidate)])
    ensures PostReached(env) <==> CsrAtHand(env) && env.Passes(SignResolve) && env.Passes(SignRequest)
    ensures PostSaved(env) ==> PostReached(env)
    ensures PostSaved(env) && env.Passes(SignFetch) && env.Passes(SignIssued) ==> SignWorks(env)
  {
    Eight(env, CSR_RETRIEVAL + [Passing(SignValidate)]);
    hide AllHold;
  }

  lemma PendingAt(env: Environment)
    ensures env.fails(SnapshotCheck).None? && env.fails(PreflightRead).None? && env.pendingFound ==>
              Progress(env, RENEWAL) == 0
  {
    FirstStages(env);
    CsrStages(env);
    hide Progress, AllHold;
  }

  // ---- Renewal ----

  /** A command went out and the run does not know what became of it. */
  predicate RenewalUnresolved(env: Environment) {
    || (CsrSent(env) && !CsrDone(env))
    || (CsrDone(env) && PostReached(env) && !PostSaved(env))
    || (SignDone(env) && InstallReached(env) && InConfigMode(env) && !InstallWorks(env))
  }

  predicate RenewalHidden(env: Environment) { SignDone(env) && AttemptHidden(env) }

  /** A confirmed milestone rests on something the run read back. */
  predicate Backed(m: Milestones, seen: set<Evidence>) {
    && (m.csr.Confirmed? ==> CsrValidated in seen)
    && (m.issuance.Confirmed? ==> Saved in seen)
    && (m.installation.Confirmed? || m.activation.Confirmed? ==> InstalledVerified in seen)
    && (m.liveTls.Confirmed? ==> LiveVerified in seen)
  }

  /** What makes the report of a renewal true of the world. It says "pre attempt" for
      exactly the runs that sent no command; it says "ambiguous" for exactly the runs
      that left a command unresolved, but for the attempt a failing close hides; success
      means five confirmed milestones, and a failure after any command asks for manual
      recovery. */
  predicate RenewalReported(env: Environment, v: Verdict, sent: seq<Mutation>, seen: set<Evidence>) {
    && (v.outcome.SuccessChanged? ==>
          v.milestones == ALL_CONFIRMED && sent == ALL_MUTATIONS && !v.manual && v.change.Changed?
          && forall e: Evidence :: e in seen)
    && (!v.outcome.SuccessChanged? ==> IsFailure(v.outcome))
    && (v.outcome.FailurePreAttempt? <==> sent == [])
    && (v.outcome.FailureAmbiguous? <==> RenewalUnresolved(env) && !RenewalHidden(env))
    && (IsFailure(v.outcome) && sent != [] ==> v.manual)
    && (v.change.Unchanged? <==> sent == [])
    && (v.milestones.issuance.NotAttempted? <==> PostSign !in sent)
    && (v.milestones.installation.NotAttempted? <==> InstallCommand !in sent || RenewalHidden(env))
    && Backed(v.milestones, seen)
  }

  predicate Witnessed(env: Environment, seen: set<Evidence>) {
    && (CsrDone(env) ==> CsrValidated in seen)
    && (Saved in seen <==> CsrDone(env) && PostSaved(env))
    && (InstallDone(env) ==> InstalledVerified in seen && IssuedValid in seen)
    && (LiveVerified in seen <==> RenewalWorks(env))
  }

  lemma RenewalSuccessReported(env: Environment, seen: set<Evidence>)
    requires RenewalWorks(env) && Witnessed(env, seen)
    ensures RenewalReported(env, Verdict(SuccessChanged, false, RenewalMilestones(env), RenewalChange(env)),
                            RenewalSent(env), seen)
  {
    RenewalSendsPrefix(env);
    forall e: Evidence ensures e in seen {
      match e case CsrValidated => case Saved => case IssuedValid => case InstalledVerified => case LiveVerified =>
    }
  }

  lemma RenewalFailureReported(env: Environment, e: Error, observed: bool, seen: set<Evidence>)
    requires !RenewalWorks(env) && Names(env, e) && (observed ==> CsrDone(env)) && Witnessed(env, seen)
    ensures var v := Classified(e, RenewalChange(env), RenewalMilestones(env), observed);
      && RenewalReported(env, v, RenewalSent(env), seen) && IsFailure(v.outcome)
      && (RenewalSent(env) == [] ==> (v.manual <==> e.PendingCsrPreflight?))
  {
    RenewalSendsPrefix(env);
  }

  lemma HandlerConfirms(env: Environment, e: Error, observed: bool)
    requires !RenewalWorks(env) && Names(env, e)
    ensures SameConfirmed(RenewalMilestones(env),
                          Classified(e, RenewalChange(env), RenewalMilestones(env), observed).milestones)
  {
  }

  /** _json_renew on a switch nothing was reported about yet. */
  method JsonRenew(item: SwitchResult, w: World)
    requires w.mutations == [] && w.seen == {} && w.events == [] && w.heard && w.Open()
    requires item.milestones == UNTOUCHED && item.change.Unchanged? && !item.pendingCsrObserved
    requires !item.manualRecovery && item.reason.None?
    requires w.Valid()
    modifies w`mutations, w`log, w`events, w`config, w`seen, item`outcome, item`stage, item`manualRecovery,
      item`reason, item`milestones, item`change, item`pendingCsrObserved
    ensures w.Valid() && ConfirmedBy(item.milestones, w.events)
    ensures item.outcome.SuccessChanged? <==> RenewalWorks(w.env)
    ensures RenewalReported(w.env, VerdictOf(item), w.mutations, w.seen)
    ensures RecordAt(w.env, Progress(w.env, RENEWAL), VerdictOf(item), w.mutations)
    ensures w.mutations == RenewalSent(w.env) <= ALL_MUTATIONS && EachOnce(w.log)
    ensures item.reason.Some? ==> ReasonAt(w.env, Progress(w.env, RENEWAL), item.reason.value)
    ensures StageAt(w.env, Progress(w.env, RENEWAL), item.reason, item.stage)
    ensures w.events == ALL_EVENTS[..EventsBy(w.env, Progress(w.env, RENEWAL))]
    ensures item.reason.Some? <==> !item.outcome.SuccessChanged?
  {
    hide Sound, Kept, AllRest, Locked, EachOnce, ConfirmedBy, AllMilestoned, RenewalReported, Names, RenewalSent,
      RenewalMilestones, RenewalChange, RenewalWorks, InstallDone, CsrDone, PostSaved, SignDone, Classified, RecordAt,
      ReasonAt, StageAt, RenewalStage, RenewalHeard, EventsBy, Progress;
    RenewalSendsPrefix(w.env);
    item.stage := Preflight;
    var failed := RenewCertificate(w, item);
    PrefixOnce(w.env, w.heard, w.log, w.mutations);
    assert Witnessed(w.env, w.seen);
    HeardBy(w.env);
    if failed.Some? {
      RenewalFailureReported(w.env, failed.value, item.pendingCsrObserved, w.seen);
      FailureRecorded(w.env, failed.value, item.pendingCsrObserved);
      ReasonRecorded(w.env, failed.value);
      HandlerConfirms(w.env, failed.value, item.pendingCsrObserved);
      JsonFailure(item, failed.value);
    } else {
      RenewalSuccessReported(w.env, w.seen);
      SuccessRecorded(w.env);
      item.outcome := SuccessChanged;
      item.stage := Completed;
    }
    ToldConfirmed(w.events, item.milestones);
  }
}
