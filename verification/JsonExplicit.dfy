/** The explicit staged operations in JSON mode, with the handler of the run loop. */
module JsonExplicit {
  import opened Options
  import opened RunResult
  import opened RenewalWorld
  import opened InstallDialogue
  import opened Renewal
  import opened JsonReport
  import opened RenewalProgress
  import opened Prompts

  predicate Staged(op: Operation) {
    op.GenerateCsr? || op.RetrieveCsr? || op.SignCsr? || op.Install?
  }

  function Success(op: Operation): Outcome {
    if op.RetrieveCsr? then SuccessNoChange else if op.Install? then SuccessChanged else SuccessPrepared
  }

  predicate ExplicitWorks(env: Environment, op: Operation) {
    match op
    case GenerateCsr => CsrWorks(env) && env.Passes(WriteCsr)
    case RetrieveCsr => RetrieveWorks(env) && env.Passes(WriteCsr)
    case SignCsr => SignWorks(env) && env.Passes(ReadCertificate) && env.Passes(WriteCertificate)
    case _ => InstallWorks(env) && env.Passes(LiveCheck)
  }

  function ExplicitSent(env: Environment, op: Operation): seq<Mutation> {
    match op
    case GenerateCsr => if CsrReached(env) then [CreateCsr] else []
    case RetrieveCsr => []
    case SignCsr => if PostReached(env) then [PostSign] else []
    case _ => if InstallReached(env) then Sent(env) else []
  }

  predicate ExplicitUnresolved(env: Environment, op: Operation) {
    match op
    case GenerateCsr => CsrReached(env) && !CsrWorks(env)
    case RetrieveCsr => false
    case SignCsr => PostReached(env) && !PostSaved(env)
    case _ => InstallReached(env) && InConfigMode(env) && !InstallWorks(env)
  }

  predicate Hidden(env: Environment, op: Operation) { op.Install? && AttemptHidden(env) }

  // ---- What the operation has reported when it ends ----

  function ExplicitMilestones(env: Environment, op: Operation): Milestones {
    match op
    case GenerateCsr => if CsrWorks(env) then UNTOUCHED.(csr := Confirmed) else UNTOUCHED
    case RetrieveCsr => UNTOUCHED.(csr := if RetrieveWorks(env) then Confirmed else Failed)
    case SignCsr => SignMilestones(env, UNTOUCHED)
    case _ => LateMilestones(env, InstallMilestones(env, UNTOUCHED))
  }

  function ExplicitChange(env: Environment, op: Operation): Change {
    match op
    case GenerateCsr => if CsrWorks(env) then Changed else Unchanged
    case RetrieveCsr => Unchanged
    case SignCsr => SignChange(env, Unchanged)
    case _ => if InstallWorks(env) then Changed else Unchanged
  }

  function ExplicitHeard(env: Environment, op: Operation): seq<Event> {
    match op
    case GenerateCsr => if CsrWorks(env) then [CsrConfirmed] else []
    case RetrieveCsr =>
      [CsrRetrievalStarted] + RetrievalHeard(env) + if RetrieveWorks(env) then [CsrRetrieved] else []
    case SignCsr => SignHeard(env)
    case _ => InstallHeard(env) + LateHeard(env)
  }

  /** Everything that an operation reports, in this order. */
  function ReportsOf(op: Operation): seq<Event> {
    match op
    case GenerateCsr => [CsrConfirmed]
    case RetrieveCsr => [CsrRetrievalStarted, PendingCsrObserved, CsrRetrieved]
    case SignCsr => ALL_EVENTS[2..10]
    case Install =>
      [PendingCsrObserved, CsrRetrievalStarted, CsrRetrieved, IssuedValidationStarted, IssuedValidated,
       InstallationPrepared, InstallationConfirmed, LiveTlsConfirmed]
    case _ => []
  }

  /** An installation, report by report. */
  lemma InstallationHeardBy(env: Environment)
    ensures InstallHeard(env) == ReportsOf(Install)[..
      if !(env.Passes(InstallArguments) && env.Passes(InstallOpen) && env.Passes(InstallSummary)) then 0
      else if !env.Passes(InstallRetrieve) then 2 else if !env.Passes(InstallIssued) then 4 else 6]
  {
  }

  lemma InstallationReports(env: Environment)
    ensures ExplicitHeard(env, Install) <= ReportsOf(Install)
    ensures ExplicitHeard(env, Install) == ReportsOf(Install) <==> InstallWorks(env) && env.Passes(LiveCheck)
  {
    InstallationHeardBy(env);
    assert InstallWorks(env) ==> InstallReached(env) && InstallOpened(env);
    hide InstallHeard, InstallWorks, Installed;
  }

  /** Whatever fails, a listener has heard the beginning of that list; all of it if and only if
      everything but the writing of a file has succeeded. */
  lemma ReportsInOrder(env: Environment, op: Operation)
    requires Staged(op)
    ensures ExplicitHeard(env, op) <= ReportsOf(op)
    ensures ExplicitHeard(env, op) == ReportsOf(op) <==>
      match op
      case GenerateCsr => CsrWorks(env)
      case RetrieveCsr => RetrieveWorks(env)
      case SignCsr => SignWorks(env)
      case _ => InstallWorks(env) && env.Passes(LiveCheck)
  {
    SigningHeardBy(env);
    SavedAfter(env);
    RetrievalStages(env);
    hide SignHeard, InstallHeard, LateHeard, CsrAtHand, CsrWorks, InstallWorks, PostReached, PostSaved, AllHold;
    if op.Install? {
      InstallationReports(env);
    }
  }

  predicate ExplicitNames(env: Environment, op: Operation, e: Error) {
    match op
    case GenerateCsr =>
      if CsrWorks(env) then e.Foreign? else (e.CsrAttempt? || e.Foreign?) && (e.CsrAttempt? <==> CsrReached(env))
    case RetrieveCsr => e.Foreign?
    case SignCsr => e.Foreign?
    case _ =>
      if InstallWorks(env) then !env.Passes(LiveCheck) && e == LiveError(env.fails(LiveCheck).value)
      else (e.InstallAttempt? || e.Foreign?)
           && (e.InstallAttempt? <==> InstallReached(env) && InConfigMode(env) && !AttemptHidden(env))
  }

  /** The one failure that is recorded where it happens: the certificate was issued, and the
      file could not be written. */
  predicate Unwritten(env: Environment, op: Operation) {
    op.SignCsr? && SignWorks(env) && env.Passes(ReadCertificate) && env.fails(WriteCertificate) == Some(OSFailure)
  }

  /** Where a staged operation stands when it fails. */
  function ExplicitStage(env: Environment, op: Operation): Stage {
    match op
    case GenerateCsr => Stage.CsrGeneration
    case RetrieveCsr => CsrRetrieval
    case SignCsr => if Unwritten(env, op) then Finalization else SignStage(env, Signing)
    case _ => if InstallWorks(env) then LiveVerification else InstallStage(env, Installation)
  }

  /** What the handlers name as the reason. */
  function ExplicitReason(op: Operation, e: Error, stage: Stage): Reason {
    if e.CsrAttempt? || e.InstallAttempt? || e.LiveHttps? then ReasonFor(e, stage)
    else if op.SignCsr? then ReasonFor(CsrSigning, stage)
    else if op.Install? then ValidationFailed else CsrFailed
  }

  /** The handlers of _json_explicit, and of the run loop for what they let through. */
  function ExplicitClassified(op: Operation, e: Error, change: Change, m: Milestones, observed: bool): Verdict {
    if e.CsrAttempt? || e.InstallAttempt? || e.LiveHttps? || !IsValueOrOS(e) then Classified(e, change, m, observed)
    else if op.GenerateCsr? && m.csr.Confirmed? then Verdict(FailurePartial, true, m, change)
    else if op.SignCsr? then Classified(CsrSigning, change, m, observed)
    else
      var outcome := FailureOutcome(change, m);
      Verdict(outcome, outcome != FailurePreAttempt || m.csr.Confirmed? || observed, m, change)
  }

  method Handle(item: SwitchResult, op: Operation, e: Error) returns (raised: bool)
    modifies item`outcome, item`stage, item`manualRecovery, item`reason, item`milestones, item`change
    ensures raised <==> !(e.CsrAttempt? || e.InstallAttempt? || e.LiveHttps?) && !IsValueOrOS(e)
    ensures raised ==> item.change == old(item.change) && item.milestones == old(item.milestones)
    ensures raised ==> item.stage == old(item.stage) && item.reason == old(item.reason)
    ensures raised ==> item.outcome == old(item.outcome) && item.manualRecovery == old(item.manualRecovery)
    ensures !raised ==>
      && item.reason == Some(ExplicitReason(op, e, old(item.stage)))
      && item.stage == if e.CsrAttempt? || e.InstallAttempt? || e.LiveHttps? then FailedStage(e, old(item.stage))
                       else old(item.stage)
    ensures !raised ==>
      VerdictOf(item) == ExplicitClassified(op, e, old(item.change), old(item.milestones), item.pendingCsrObserved)
  {
    raised := false;
    if e.CsrAttempt? || e.InstallAttempt? || e.LiveHttps? {
      JsonFailure(item, e);
    } else if IsValueOrOS(e) {
      if op.GenerateCsr? && item.milestones.csr.Confirmed? {
        item.outcome, item.reason, item.manualRecovery := FailurePartial, Some(CsrFailed), true;
      } else if op.SignCsr? {
        JsonFailure(item, CsrSigning);
      } else {
        item.outcome := FailureOutcome(item.change, item.milestones);
        item.reason := Some(if op.Install? then ValidationFailed else CsrFailed);
        item.manualRecovery :=
          if item.outcome.FailurePreAttempt? then item.milestones.csr.Confirmed? || item.pendingCsrObserved else true;
      }
    } else {
      raised := true;
    }
  }

  /** The try block of the four staged operations; settled is the one early return,
      after a certificate that was issued could not be written. */
  method Perform(item: SwitchResult, w: World, op: Operation) returns (settled: bool, failed: Option<Error>)
    requires Staged(op) && w.mutations == [] && w.seen == {} && w.events == [] && w.heard && item.Fresh()
    requires w.Valid() && (op.RetrieveCsr? || w.Open())
    modifies w`mutations, w`log, w`events, w`config, w`seen, item`outcome, item`stage, item`manualRecovery, item`reason,
      item`milestones, item`change, item`pendingCsrObserved
    ensures w.Valid() && (old(Told(w, item)) ==> Told(w, item))
    ensures w.events == old(w.events) + ExplicitHeard(w.env, op)
    ensures failed.None? && !settled <==> ExplicitWorks(w.env, op)
    ensures settled <==> Unwritten(w.env, op)
    ensures settled ==> op.SignCsr? && !ExplicitWorks(w.env, op) && failed.None?
    ensures item.stage == if ExplicitWorks(w.env, op) then Completed else ExplicitStage(w.env, op)
    ensures failed.Some? ==> item.reason.None?
    ensures failed.Some? ==> ExplicitNames(w.env, op, failed.value)
    ensures w.mutations == ExplicitSent(w.env, op)
    ensures item.milestones == ExplicitMilestones(w.env, op) && item.change == ExplicitChange(w.env, op)
    ensures failed.None? && !settled ==>
              item.outcome == Success(op) && !item.manualRecovery && item.reason.None?
    ensures settled ==> item.outcome == FailurePartial && item.manualRecovery && item.reason == Some(RecoveryRequired)
    ensures Backed(item.milestones, w.seen)
  {
    hide Sound, Kept, AllRest, Told, ExplicitWorks, ExplicitNames, ExplicitMilestones, ExplicitChange, ExplicitHeard,
      Backed;
    settled := false;
    if op.GenerateCsr? {
      failed := PerformGenerate(item, w);
    } else if op.RetrieveCsr? {
      failed := PerformRetrieve(item, w);
    } else if op.SignCsr? {
      settled, failed := PerformSign(item, w);
    } else {
      failed := PerformInstall(item, w);
    }
    if failed.None? && !settled { item.stage := Completed; }
  }

  method PerformGenerate(item: SwitchResult, w: World) returns (failed: Option<Error>)
    requires w.mutations == [] && w.seen == {} && w.heard && item.Fresh()
    requires w.Valid() && w.Open()
    modifies w`mutations, w`log, w`events, w`config, w`seen, item`outcome, item`stage, item`milestones, item`change,
      item`pendingCsrObserved
    ensures w.Valid() && (old(Told(w, item)) ==> Told(w, item))
    ensures w.events == old(w.events) + ExplicitHeard(w.env, GenerateCsr)
    ensures failed.None? <==> ExplicitWorks(w.env, GenerateCsr)
    ensures failed.Some? ==> item.stage == ExplicitStage(w.env, GenerateCsr)
    ensures failed.Some? ==> ExplicitNames(w.env, GenerateCsr, failed.value)
    ensures w.mutations == ExplicitSent(w.env, GenerateCsr)
    ensures item.milestones == ExplicitMilestones(w.env, GenerateCsr)
    ensures item.change == ExplicitChange(w.env, GenerateCsr)
    ensures failed.None? ==> item.outcome == SuccessPrepared
    ensures Backed(item.milestones, w.seen)
  {
    hide Sound, Kept, AllRest, Locked, AllMilestoned, CsrReached;
    item.stage := Stage.CsrGeneration;
    failed := Renewal.GenerateCsr(w);
    if failed.Some? { return; }
    Report(w, item, CsrConfirmed);
    failed := w.env.Try(WriteCsr);
    if failed.None? { item.outcome := SuccessPrepared; }
  }

  method PerformRetrieve(item: SwitchResult, w: World) returns (failed: Option<Error>)
    requires w.mutations == [] && w.seen == {} && w.heard && item.Fresh()
    requires w.Valid()
    modifies w`log, w`events, w`seen, item`outcome, item`stage, item`milestones, item`change, item`pendingCsrObserved
    ensures w.Valid() && (old(Told(w, item)) ==> Told(w, item))
    ensures w.events == old(w.events) + ExplicitHeard(w.env, RetrieveCsr)
    ensures failed.None? <==> ExplicitWorks(w.env, RetrieveCsr)
    ensures failed.Some? ==> item.stage == ExplicitStage(w.env, RetrieveCsr)
    ensures failed.Some? ==> ExplicitNames(w.env, RetrieveCsr, failed.value)
    ensures item.milestones == ExplicitMilestones(w.env, RetrieveCsr)
    ensures item.change == ExplicitChange(w.env, RetrieveCsr)
    ensures failed.None? ==> item.outcome == SuccessNoChange
    ensures Backed(item.milestones, w.seen)
  {
    hide Sound, Kept, AllRest, Locked, Told, AllMilestoned;
    Report(w, item, CsrRetrievalStarted);
    failed := Renewal.RetrieveCsr(w, item);
    if failed.Some? { return; }
    Report(w, item, CsrRetrieved);
    failed := w.env.Try(WriteCsr);
    if failed.None? { item.outcome := SuccessNoChange; }
  }

  /** The certificate file; only a failure of the file system is recorded where it happens. */
  method WriteSigned(item: SwitchResult, env: Environment) returns (settled: bool, failed: Option<Error>)
    requires SignWorks(env) && item.reason.None? && !item.manualRecovery
    modifies item`outcome, item`stage, item`manualRecovery, item`reason
    ensures settled <==> Unwritten(env, SignCsr)
    ensures settled ==> failed.None? && item.outcome == FailurePartial && item.stage == Finalization
    ensures settled ==> item.reason == Some(RecoveryRequired) && item.manualRecovery
    ensures !settled ==> item.stage == old(item.stage) && item.reason.None? && !item.manualRecovery
    ensures failed.None? <==> settled || ExplicitWorks(env, SignCsr)
    ensures failed.Some? ==> failed.value.Foreign?
    ensures failed.None? && !settled ==> item.outcome == SuccessPrepared
  {
    hide SignWorks;
    settled := false;
    failed := env.Try(ReadCertificate);
    if failed.Some? { return; }
    failed := env.Try(WriteCertificate);
    if failed == Some(Foreign(OSFailure)) {
      item.outcome, item.stage := FailurePartial, Finalization;
      item.reason, item.manualRecovery := Some(RecoveryRequired), true;
      return true, None;
    }
    if failed.None? { item.outcome := SuccessPrepared; }
  }

  method PerformSign(item: SwitchResult, w: World) returns (settled: bool, failed: Option<Error>)
    requires w.mutations == [] && w.seen == {} && w.heard && item.Fresh()
    requires w.Valid() && w.Open()
    modifies w`mutations, w`log, w`events, w`seen, item`outcome, item`stage, item`manualRecovery, item`reason,
      item`milestones, item`change, item`pendingCsrObserved
    ensures w.Valid() && (old(Told(w, item)) ==> Told(w, item))
    ensures w.events == old(w.events) + ExplicitHeard(w.env, SignCsr)
    ensures failed.None? && !settled <==> ExplicitWorks(w.env, SignCsr)
    ensures settled <==> Unwritten(w.env, SignCsr)
    ensures settled ==> !ExplicitWorks(w.env, SignCsr) && failed.None?
    ensures settled || failed.Some? ==> item.stage == ExplicitStage(w.env, SignCsr)
    ensures failed.Some? ==> item.reason.None?
    ensures failed.Some? ==> ExplicitNames(w.env, SignCsr, failed.value)
    ensures w.mutations == ExplicitSent(w.env, SignCsr)
    ensures item.milestones == ExplicitMilestones(w.env, SignCsr) && item.change == ExplicitChange(w.env, SignCsr)
    ensures failed.None? && !settled ==>
              item.outcome == SuccessPrepared && !item.manualRecovery && item.reason.None?
    ensures settled ==> item.outcome == FailurePartial && item.manualRecovery && item.reason == Some(RecoveryRequired)
    ensures Backed(item.milestones, w.seen)
  {
    hide Sound, Kept, AllRest, Locked, AllMilestoned, Told, SignHeard, CsrAtHand, PostReached, PostSaved, SignWorks;
    SavedAfter(w.env);
    settled := false;
    item.stage := Signing;
    failed := SignPendingCsr(w, item);
    if failed.Some? { return; }
    item.milestones := item.milestones.(csr := Confirmed);
    settled, failed := WriteSigned(item, w.env);
  }

  method PerformInstall(item: SwitchResult, w: World) returns (failed: Option<Error>)
    requires w.mutations == [] && w.seen == {} && w.heard && item.Fresh()
    requires w.Valid() && w.Open()
    modifies w`mutations, w`log, w`events, w`config, w`seen, item`outcome, item`stage, item`milestones, item`change,
      item`pendingCsrObserved
    ensures w.Valid() && (old(Told(w, item)) ==> Told(w, item))
    ensures w.events == old(w.events) + ExplicitHeard(w.env, Install)
    ensures failed.None? <==> ExplicitWorks(w.env, Install)
    ensures failed.Some? ==> item.stage == ExplicitStage(w.env, Install)
    ensures failed.Some? ==> ExplicitNames(w.env, Install, failed.value)
    ensures w.mutations == ExplicitSent(w.env, Install)
    ensures item.milestones == ExplicitMilestones(w.env, Install)
    ensures item.change == ExplicitChange(w.env, Install)
    ensures failed.None? ==> item.outcome == SuccessChanged
    ensures Backed(item.milestones, w.seen)
  {
    hide Sound, Kept, AllRest, Locked, Told, AllMilestoned, Sent, Installed, InConfigMode, AttemptHidden;
    item.stage := Installation;
    failed := InstallPending(w, item);
    if failed.Some? { return; }
    failed := ConfirmInstall(item, w);
  }

  method ConfirmInstall(item: SwitchResult, w: World) returns (failed: Option<Error>)
    requires w.Valid()
    modifies w`log, w`events, w`seen, item`outcome, item`stage, item`milestones, item`change, item`pendingCsrObserved
    ensures w.Valid() && (old(Told(w, item)) ==> Told(w, item))
    ensures w.events == old(w.events) + [InstallationConfirmed] + if failed.None? then [LiveTlsConfirmed] else []
    ensures failed.None? <==> w.env.Passes(LiveCheck)
    ensures failed.Some? ==> failed.value == LiveError(w.env.fails(LiveCheck).value) && item.stage == LiveVerification
    ensures w.seen == old(w.seen) + if failed.None? then {LiveVerified} else {}
    ensures item.change == Changed
    ensures item.milestones == old(item.milestones).(installation := Confirmed, activation := Confirmed,
              liveTls := if failed.None? then Confirmed else old(item.milestones).liveTls)
    ensures failed.None? ==> item.outcome == SuccessChanged
  {
    hide Sound, Kept, AllRest, Locked, Told, AllMilestoned;
    Report(w, item, InstallationConfirmed);
    item.stage := LiveVerification;
    failed := CheckLive(w, item);
    if failed.None? { item.outcome := SuccessChanged; }
  }

  // ---- The report is true, except where a close hides an attempt ----

  /** What makes the report of a staged operation true of the world, and the one way in
      which it is not: an installation whose failed attempt is hidden by a failing close
      is reported as if no attempt had been made. */
  predicate ExplicitReported(env: Environment, op: Operation, v: Verdict, sent: seq<Mutation>) {
    && (ExplicitWorks(env, op) ==> v.outcome == Success(op) && !v.manual)
    && (ExplicitWorks(env, op) && op.Install? ==>
          v.milestones == ALL_CONFIRMED.(issuance := NotAttempted)
          && sent == [InstallCommand, WritePem, ConfirmReplacement])
    && (!ExplicitWorks(env, op) ==> IsFailure(v.outcome))
    && (ExplicitWorks(env, op) ==> (FailureOutcome(v.change, v.milestones).FailurePreAttempt? <==> sent == []))
    && (v.outcome.FailurePreAttempt? <==> !ExplicitWorks(env, op) && (sent == [] || Hidden(env, op)))
    && (v.outcome.FailureAmbiguous? <==> ExplicitUnresolved(env, op) && !Hidden(env, op))
    && (IsFailure(v.outcome) && sent != [] ==> v.manual)
    && (v.change.Unchanged? <==> sent == [] || Hidden(env, op))
    && (v.milestones.issuance.NotAttempted? <==> PostSign !in sent)
    && (v.milestones.installation.NotAttempted? <==> InstallCommand !in sent || Hidden(env, op))
  }

  // ---- The same by how far the operation gets ----

  /** The outcome and the commands of a staged operation that fails behind its first n stages,
      or holds them all. */
  predicate ExplicitAt(env: Environment, op: Operation, n: nat, outcome: Outcome, sent: seq<Mutation>) {
    match op
    case GenerateCsr =>
      && sent == (if n >= 1 then [CreateCsr] else [])
      && outcome == (if n == 0 then FailurePreAttempt else if n == 1 then FailureAmbiguous
                     else if n == 2 then FailurePartial else SuccessPrepared)
    case RetrieveCsr => sent == [] && outcome == if n < 2 then FailurePreAttempt else SuccessNoChange
    case SignCsr =>
      && sent == (if n >= 1 then [PostSign] else [])
      && outcome == (if n == 0 then FailurePreAttempt else if n == 1 then FailureAmbiguous
                     else if n < 4 then FailurePartial else SuccessPrepared)
    case Install =>
      && sent == (if n == 0 then [] else if n == 1 then [InstallCommand] else if n == 2 then [InstallCommand, WritePem]
                  else [InstallCommand, WritePem, ConfirmReplacement])
      && outcome == (if n == 0 || Concealed(env, n, 1) then FailurePreAttempt else if n < 5 then FailureAmbiguous
                     else if n == 5 then FailurePartial else SuccessChanged)
    case _ => true
  }

  lemma GenerationAt(env: Environment)
    ensures var n := Progress(env, StagesOf(GenerateCsr));
      && (n > 0 <==> CsrReached(env)) && (n > 1 <==> CsrWorks(env)) && (n > 2 <==> ExplicitWorks(env, GenerateCsr))
      && n <= 3
  {
    var stages := StagesOf(GenerateCsr);
    ProgressStep(env, stages, 0);
    ProgressStep(env, stages, 1);
    ProgressStep(env, stages, 2);
    CsrStages(env);
    Four(env, stages[2]);
    hide Progress, AllHold, CsrReached, CsrWorks;
  }

  lemma RetrievalAt(env: Environment)
    ensures var n := Progress(env, StagesOf(RetrieveCsr)); (n > 1 <==> ExplicitWorks(env, RetrieveCsr)) && n <= 2
  {
    var stages := StagesOf(RetrieveCsr);
    ProgressStep(env, stages, 0);
    ProgressStep(env, stages, 1);
    RetrievalStage(env);
    Four(env, stages[1]);
    hide Progress, AllHold, RetrieveWorks;
  }

  lemma SigningAt(env: Environment)
    ensures var n := Progress(env, StagesOf(SignCsr));
      && (n > 0 <==> PostReached(env)) && (n > 1 <==> PostSaved(env)) && (n > 2 <==> SignWorks(env))
      && (n > 3 <==> ExplicitWorks(env, SignCsr)) && n <= 4
  {
    var stages := StagesOf(SignCsr);
    ProgressStep(env, stages, 0);
    ProgressStep(env, stages, 1);
    ProgressStep(env, stages, 2);
    ProgressStep(env, stages, 3);
    SigningStages(env);
    Four(env, stages[3]);
    hide Progress, AllHold, PostReached, PostSaved, SignWorks;
  }

  lemma InstallationAt(env: Environment)
    ensures var n := Progress(env, StagesOf(Install));
      && (n > 0 <==> InstallReached(env) && InConfigMode(env)) && (n > 1 <==> InstallReached(env) && PasteAsked(env))
      && (n > 2 <==> InstallReached(env) && ReplacementAsked(env))
      && (n > 3 <==> InstallReached(env) && Installed(env)) && (n > 4 <==> InstallWorks(env))
      && (n > 5 <==> ExplicitWorks(env, Install)) && n <= 6
  {
    var stages := StagesOf(Install);
    ProgressStep(env, stages, 0);
    ProgressStep(env, stages, 1);
    ProgressStep(env, stages, 2);
    ProgressStep(env, stages, 3);
    ProgressStep(env, stages, 4);
    ProgressStep(env, stages, 5);
    InstallStages(env);
    hide Progress, AllHold, InstallReached, InConfigMode, PasteAsked, ReplacementAsked, Installed, InstallWorks;
  }

  /** What a true report says is decided by how far the operation got. */
  lemma ExplicitDecided(env: Environment, op: Operation, v: Verdict, sent: seq<Mutation>)
    requires Staged(op) && ExplicitReported(env, op, v, sent) && sent == ExplicitSent(env, op)
    ensures ExplicitAt(env, op, Progress(env, StagesOf(op)), v.outcome, sent)
  {
    match op
    case GenerateCsr =>
      GenerationAt(env);
      hide Progress, ExplicitWorks, CsrReached, CsrWorks;
    case RetrieveCsr =>
      RetrievalAt(env);
      hide Progress, ExplicitWorks;
    case SignCsr =>
      SigningAt(env);
      hide Progress, ExplicitWorks, PostReached, PostSaved, SignWorks;
    case Install => InstallDecided(env, v, sent);
    case _ =>
  }

  lemma InstallDecided(env: Environment, v: Verdict, sent: seq<Mutation>)
    requires ExplicitReported(env, Install, v, sent) && sent == ExplicitSent(env, Install)
    ensures ExplicitAt(env, Install, Progress(env, StagesOf(Install)), v.outcome, sent)
  {
    InstallationAt(env);
    SentStages(env);
    hide Progress, ExplicitWorks, InstallReached, InConfigMode, PasteAsked, ReplacementAsked, Installed, InstallWorks,
      Sent;
  }

  /** No staged operation logs a command twice. */
  lemma ExplicitOnce(env: Environment, op: Operation, heard: bool, log: seq<LogEntry>)
    requires Staged(op) && Sound(env, heard, log, ExplicitSent(env, op))
    ensures EachOnce(log)
  {
    var sent := ExplicitSent(env, op);
    if op.Install? {
      ExplicitSentOnce(env, op);
      hide ExplicitSent, Commands, Guarded;
      var all: seq<Mutation> := [InstallCommand, WritePem, ConfirmReplacement];
      forall a, b | 0 <= a < b < |sent| ensures sent[a] != sent[b] {
        assert sent[a] == all[a] && sent[b] == all[b];
      }
    } else {
      assert |sent| <= 1;
    }
    hide Commands;
    OnceEach(log);
  }

  lemma ExplicitSentOnce(env: Environment, op: Operation)
    requires Staged(op)
    ensures op.Install? ==> ExplicitSent(env, op) <= [InstallCommand, WritePem, ConfirmReplacement]
    ensures InstallCommand in ExplicitSent(env, op) <==> op.Install? && InstallReached(env) && InConfigMode(env)
    ensures op.Install? ==> (ExplicitSent(env, op) == [] <==> !(InstallReached(env) && InConfigMode(env)))
    ensures op.Install? ==> PostSign !in ExplicitSent(env, op)
    ensures op.Install? && ExplicitWorks(env, op) ==>
              ExplicitSent(env, op) == [InstallCommand, WritePem, ConfirmReplacement]
  {
    SentInOrder(env);
    assert InConfigMode(env) ==> Sent(env) != [] && Sent(env)[0] == InstallCommand;
  }

  lemma ExplicitFailureReported(env: Environment, op: Operation, e: Error, observed: bool)
    requires Staged(op) && !ExplicitWorks(env, op) && ExplicitNames(env, op, e)
    ensures ExplicitReported(env, op,
              ExplicitClassified(op, e, ExplicitChange(env, op), ExplicitMilestones(env, op), observed),
              ExplicitSent(env, op))
  {
    if op.Install? {
      if InstallWorks(env) {
        LiveFailureReported(env, e, observed);
      } else {
        InstallFailureReported(env, e, observed);
      }
    }
  }

  lemma LiveFailureReported(env: Environment, e: Error, observed: bool)
    requires InstallWorks(env) && !env.Passes(LiveCheck) && e == LiveError(env.fails(LiveCheck).value)
    ensures ExplicitReported(env, Install,
              ExplicitClassified(Install, e, ExplicitChange(env, Install), ExplicitMilestones(env, Install), observed),
              ExplicitSent(env, Install))
  {
    ExplicitSentOnce(env, Install);
    hide Sent, Installed, InConfigMode;
  }

  lemma InstallFailureReported(env: Environment, e: Error, observed: bool)
    requires !InstallWorks(env) && ExplicitNames(env, Install, e)
    ensures ExplicitReported(env, Install,
              ExplicitClassified(Install, e, ExplicitChange(env, Install), ExplicitMilestones(env, Install), observed),
              ExplicitSent(env, Install))
  {
    ExplicitSentOnce(env, Install);
    hide Sent, Installed, InConfigMode;
  }

  lemma ExplicitOtherwiseReported(env: Environment, op: Operation)
    requires Staged(op)
    ensures ExplicitWorks(env, op) ==>
      ExplicitReported(env, op, Verdict(Success(op), false, ExplicitMilestones(env, op), ExplicitChange(env, op)),
                       ExplicitSent(env, op))
    ensures op.SignCsr? && SignWorks(env) && !ExplicitWorks(env, op) ==>
      ExplicitReported(env, op, Verdict(FailurePartial, true, ExplicitMilestones(env, op), ExplicitChange(env, op)),
                       ExplicitSent(env, op))
  {
    ExplicitSentOnce(env, op);
  }

  /** Failing never confirms a milestone. */
  lemma BackedKept(op: Operation, e: Error, change: Change, m: Milestones, observed: bool, seen: set<Evidence>)
    requires Backed(m, seen)
    ensures Backed(ExplicitClassified(op, e, change, m, observed).milestones, seen)
  {
  }

  lemma ExplicitConfirms(env: Environment, op: Operation, e: Error, observed: bool)
    requires Staged(op) && !ExplicitWorks(env, op) && ExplicitNames(env, op, e)
    ensures SameConfirmed(ExplicitMilestones(env, op),
              ExplicitClassified(op, e, ExplicitChange(env, op), ExplicitMilestones(env, op), observed).milestones)
  {
  }

  /** The reason of a failure that _json_explicit handles itself. */
  function ExplicitReasonIn(env: Environment, op: Operation): Reason {
    match op
    case GenerateCsr => CsrFailed
    case RetrieveCsr => CsrFailed
    case SignCsr =>
      if Unwritten(env, op) then RecoveryRequired
      else if env.Passes(SignArguments) && !CsrAtHand(env) then CsrFailed
      else if PostSaved(env) && env.Passes(SignFetch) then ValidationFailed else SigningFailed
    case _ =>
      if InstallWorks(env) then VerificationFailed
      else if InstallReached(env) && InConfigMode(env) && !AttemptHidden(env) then InstallationFailed
      else ValidationFailed
  }

  /** No handler moves the stage, and the reason depends on the environment alone. */
  lemma HandledAs(env: Environment, op: Operation, e: Error)
    requires Staged(op) && !ExplicitWorks(env, op) && !Unwritten(env, op) && ExplicitNames(env, op, e)
    ensures FailedStage(e, ExplicitStage(env, op)) == ExplicitStage(env, op)
    ensures e.CsrAttempt? || e.InstallAttempt? || e.LiveHttps? || IsValueOrOS(e) ==>
              ExplicitReason(op, e, ExplicitStage(env, op)) == ExplicitReasonIn(env, op)
  {
    SavedAfter(env);
    hide Installed, InConfigMode, CsrWorks;
  }

  /** _json_explicit: an exception none of its handlers names is for the run loop. */
  method Operate(item: SwitchResult, w: World, op: Operation) returns (raised: Option<Error>)
    requires Staged(op) && w.mutations == [] && w.seen == {} && w.events == [] && w.heard && item.Fresh()
    requires w.Valid() && (op.RetrieveCsr? || w.Open())
    modifies w`mutations, w`log, w`events, w`config, w`seen, item`outcome, item`stage, item`manualRecovery, item`reason,
      item`milestones, item`change, item`pendingCsrObserved
    ensures w.Valid() && ConfirmedBy(item.milestones, w.events)
    ensures w.mutations == ExplicitSent(w.env, op)
    ensures w.events == ExplicitHeard(w.env, op)
    ensures raised.Some? ==> raised.value.Foreign?
    ensures raised.None? ==> ExplicitAt(w.env, op, Progress(w.env, StagesOf(op)), item.outcome, w.mutations)
    ensures raised.Some? ==>
      ExplicitAt(w.env, op, Progress(w.env, StagesOf(op)),
                 Classified(raised.value, item.change, item.milestones, item.pendingCsrObserved).outcome, w.mutations)
    ensures raised.None? ==>
      ExplicitReported(w.env, op, VerdictOf(item), w.mutations)
      && (item.reason.Some? <==> !ExplicitWorks(w.env, op))
    ensures raised.Some? ==>
      ExplicitReported(w.env, op, Classified(raised.value, item.change, item.milestones, item.pendingCsrObserved),
                       w.mutations)
      && !ExplicitWorks(w.env, op)
    ensures Backed(item.milestones, w.seen) && EachOnce(w.log)
    ensures item.stage == if ExplicitWorks(w.env, op) then Completed else ExplicitStage(w.env, op)
    ensures raised.None? && !ExplicitWorks(w.env, op) ==> item.reason == Some(ExplicitReasonIn(w.env, op))
    ensures raised.Some? ==> item.reason.None?
  {
    hide Sound, Kept, AllRest, Locked, EachOnce, ConfirmedBy, AllMilestoned, ExplicitAt, ExplicitHeard, Progress;
    NothingTold(w, item);
    var settled, failed := Perform(item, w, op);
    ExplicitOnce(w.env, op, w.heard, w.log);
    raised := None;
    if failed.Some? {
      ExplicitFailureReported(w.env, op, failed.value, item.pendingCsrObserved);
      ExplicitConfirms(w.env, op, failed.value, item.pendingCsrObserved);
      HandledAs(w.env, op, failed.value);
      BackedKept(op, failed.value, item.change, item.milestones, item.pendingCsrObserved, w.seen);
      var passed := Handle(item, op, failed.value);
      if passed { raised := failed; }
    } else {
      ExplicitOtherwiseReported(w.env, op);
    }
    ToldConfirmed(w.events, item.milestones);
    ExplicitDecided(w.env, op,
      if raised.None? then VerdictOf(item)
      else Classified(raised.value, item.change, item.milestones, item.pendingCsrObserved), w.mutations);
  }

  /** The hidden attempt does happen: the switch answers the install command with an
      error, and closing the connection fails. */
  lemma HiddenAttempt() returns (env: Environment)
    ensures AttemptHidden(env) && ExplicitSent(env, Install) == [InstallCommand]
  {
    var fails := (s: Site) =>
      if s.DialogueCommand? then Some(ValueFailure) else if s.InstallClose? then Some(OSFailure) else None;
    env := Environment(fails, false, false, false, _ => false, "", "", "");
  }

  /** Such a run: the install command was sent, and the report says "pre attempt". */
  method HiddenRun() returns (item: SwitchResult, w: World)
    ensures w.mutations == [InstallCommand] && item.outcome.FailurePreAttempt? && item.manualRecovery
  {
    var fails := (s: Site) =>
      if s.DialogueCommand? then Some(ValueFailure) else if s.InstallClose? then Some(OSFailure) else None;
    var env := Environment(fails, false, false, false, _ => false, "", "", "");
    assert AttemptHidden(env) && ExplicitSent(env, Install) == [InstallCommand];
    hide Sound, Kept, AllRest, AttemptHidden, ExplicitSent, EachOnce, ConfirmedBy, Backed;
    w := new World(env, true);
    w.Mark(Taken);
    item := new SwitchResult();
    var raised := Operate(item, w, Install);
    if raised.Some? { JsonFailure(item, raised.value); }
  }

  /** An environment without failures in which the switch asks what it is expected to ask. */
  const UNTROUBLED :=
    Environment(_ => None, false, false, false, _ => false, PASTE_PROMPT, REPLACEMENT_PROMPT, "")

  lemma UntroubledWorks(env: Environment)
    requires (forall s: Site :: env.Passes(s)) && !env.pendingFound && !env.cliError(env.confirmOutput)
    requires ReplacementAsked(env)
    ensures ExplicitWorks(env, Install) && RenewalWorks(env)
  {
    hide Asks;
  }

  lemma Asked(env: Environment)
    requires (forall s: Site :: env.Passes(s)) && Asks(env.cliError, env.pasteOutput, PASTE_PROMPT)
    requires Asks(env.cliError, env.replacementOutput, REPLACEMENT_PROMPT)
    ensures ReplacementAsked(env)
  {
    hide Asks;
  }

  /** In it an explicit installation and a whole renewal succeed. */
  lemma NothingFails()
    ensures ExplicitWorks(UNTROUBLED, Install) && RenewalWorks(UNTROUBLED)
  {
    AsksItself(UNTROUBLED.cliError, PASTE_PROMPT);
    AsksItself(UNTROUBLED.cliError, REPLACEMENT_PROMPT);
    hide ReplacementAsked, Asks, ExplicitWorks, RenewalWorks;
    Asked(UNTROUBLED);
    UntroubledWorks(UNTROUBLED);
  }

  /** Such a run: everything but the issuance is confirmed. */
  method InstalledRun() returns (item: SwitchResult, w: World)
    ensures item.outcome.SuccessChanged? && w.mutations == [InstallCommand, WritePem, ConfirmReplacement]
    ensures item.milestones == ALL_CONFIRMED.(issuance := NotAttempted)
  {
    hide Sound, Kept, AllRest, Installed, InstallReached, Asks, EachOnce, ConfirmedBy, Backed;
    w := new World(UNTROUBLED, true);
    w.Mark(Taken);
    item := new SwitchResult();
    NothingFails();
    var raised := Operate(item, w, Install);
    assert raised.None?;
  }
}
