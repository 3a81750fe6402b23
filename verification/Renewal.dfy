/** The staged renewal operations and their composition. */
module Renewal {
  import opened Options
  import opened RunResult
  import opened RenewalWorld
  import opened InstallDialogue

  // ---- How far an environment lets a run get ----

  predicate PreflightWorks(env: Environment) {
    env.Passes(PreflightRead) && !env.pendingFound && env.Passes(PreflightSelect)
  }

  predicate CsrReached(env: Environment) {
    env.Passes(CsrArguments) && env.Passes(CsrOpen) && env.Passes(CsrSummary) && env.Passes(CsrConfig)
  }

  predicate CsrWorks(env: Environment) {
    && CsrReached(env) && env.Passes(CsrCreate) && (env.csrPoisoned || env.Passes(CsrExit))
    && env.Passes(CsrRetrieve) && env.Passes(CsrClose)
  }

  predicate PendingSeen(env: Environment) {
    env.Passes(RetrieveArguments) && env.Passes(RetrieveOpen) && env.Passes(RetrieveSummary)
  }

  predicate RetrieveWorks(env: Environment) {
    PendingSeen(env) && env.Passes(RetrieveRead) && env.Passes(RetrieveClose)
  }

  predicate CsrAtHand(env: Environment) {
    env.Passes(SignArguments) && RetrieveWorks(env) && env.Passes(SignValidate)
  }

  predicate PostReached(env: Environment) {
    CsrAtHand(env) && env.Passes(SignResolve) && env.Passes(SignRequest)
  }

  predicate PostSaved(env: Environment) { PostReached(env) && env.Passes(SignPost) }

  predicate SignWorks(env: Environment) {
    PostSaved(env) && env.Passes(SignFetch) && env.Passes(SignIssued)
  }

  predicate InstallOpened(env: Environment) { env.Passes(InstallArguments) && env.Passes(InstallOpen) }

  predicate InstallReached(env: Environment) {
    && InstallOpened(env) && env.Passes(InstallSummary) && env.Passes(InstallRetrieve)
    && env.Passes(InstallIssued)
  }

  predicate InstallWorks(env: Environment) {
    InstallReached(env) && Installed(env) && env.Passes(InstallClose)
  }

  /** The installation was attempted and failed, and closing the connection raised over
      the attempt error. */
  predicate AttemptHidden(env: Environment) {
    InstallReached(env) && InConfigMode(env) && !Installed(env) && !env.Passes(InstallClose)
  }

  /** except NetmikoAuthenticationException / NetmikoTimeoutException: raise ValueError */
  function SshNamed(e: Error): Error {
    if e.Foreign? && (e.exc.AuthenticationFailure? || e.exc.SshTimeout?) then Foreign(ValueFailure) else e
  }

  /** Leaving a with block: an exception of the exit replaces that of the body. */
  function Closed(body: Option<Error>, close: Option<Exc>): Option<Error> {
    if close.Some? then Some(Foreign(close.value)) else body
  }

  // ---- What is reported ----

  function RetrievalHeard(env: Environment): seq<Event> { if PendingSeen(env) then [PendingCsrObserved] else [] }

  function CollectionHeard(env: Environment): seq<Event> {
    if !env.Passes(SignFetch) then []
    else [CertificateRetrieved] + if env.Passes(SignIssued) then [IssuedValidated] else []
  }

  function IssueHeard(env: Environment): seq<Event> {
    [SigningPreparation]
    + (if PostReached(env) then [IssuanceDispatched] else [])
    + (if PostSaved(env) then [IssuanceConfirmed] + CollectionHeard(env) else [])
  }

  function SignHeard(env: Environment): seq<Event> {
    if !env.Passes(SignArguments) then []
    else
      [CsrRetrievalStarted] + RetrievalHeard(env)
      + (if CsrAtHand(env) then [CsrRetrieved] + IssueHeard(env) else [])
  }

  function JudgementHeard(env: Environment): seq<Event> {
    [IssuedValidationStarted] + if env.Passes(InstallIssued) then [IssuedValidated, InstallationPrepared] else []
  }

  function PendingHeard(env: Environment): seq<Event> {
    [CsrRetrievalStarted] + if env.Passes(InstallRetrieve) then [CsrRetrieved] + JudgementHeard(env) else []
  }

  function InstallHeard(env: Environment): seq<Event> {
    if !InstallOpened(env) || !env.Passes(InstallSummary) then [] else [PendingCsrObserved] + PendingHeard(env)
  }

  function StartHeard(env: Environment): seq<Event> {
    (if env.Passes(SnapshotCheck) && PreflightWorks(env) then [PreflightConfirmed] else [])
    + (if CsrDone(env) then [CsrConfirmed] else [])
  }

  function LateHeard(env: Environment): seq<Event> {
    if !InstallWorks(env) then []
    else [InstallationConfirmed] + if env.Passes(LiveCheck) then [LiveTlsConfirmed] else []
  }

  function RenewalHeard(env: Environment): seq<Event> {
    StartHeard(env) + (if CsrDone(env) then SignHeard(env) else []) + if SignDone(env) then LateHeard(env) else []
  }

  /** Where an installation stands when it ends, if somebody listens. */
  function InstallStage(env: Environment, before: Stage): Stage {
    if !InstallOpened(env) || !env.Passes(InstallSummary) then before
    else if !env.Passes(InstallRetrieve) then CsrRetrieval
    else if !env.Passes(InstallIssued) then IssuedValidation
    else Installation
  }

  /** Where a renewal stands when it ends. */
  function RenewalStage(env: Environment, before: Stage): Stage {
    if RenewalWorks(env) then LiveVerification
    else if InstallDone(env) then Activation
    else if CsrDone(env) then SignStage(env, Stage.CsrGeneration)
    else if env.Passes(SnapshotCheck) && PreflightWorks(env) then Preflight
    else before
  }

  lemma SigningHeard(env: Environment)
    ensures !env.Passes(SignArguments) ==> SignHeard(env) == []
    ensures env.Passes(SignArguments) && !CsrAtHand(env) ==>
              SignHeard(env) == [CsrRetrievalStarted] + RetrievalHeard(env)
    ensures CsrAtHand(env) ==>
              SignHeard(env) == [CsrRetrievalStarted] + RetrievalHeard(env) + [CsrRetrieved] + IssueHeard(env)
  {
    hide RetrievalHeard, IssueHeard, RetrieveWorks;
  }

  // ---- renewal_preflight ----

  method PreflightRenewal(w: World) returns (failed: Option<Error>)
    ensures failed.None? <==> PreflightWorks(w.env)
    ensures failed == Some(PendingCsrPreflight) <==> w.env.Passes(PreflightRead) && w.env.pendingFound
    ensures failed.Some? ==> failed.value.PendingCsrPreflight? || failed.value.RenewalPreflight?
                             || failed == Some(Foreign(OtherFailure))
  {
    failed := w.env.Try(PreflightRead);
    if failed.None? {
      if w.env.pendingFound { return Some(PendingCsrPreflight); }
      failed := w.env.Try(PreflightSelect);
      if failed.None? { return; }
    }
    if !failed.value.exc.OtherFailure? { failed := Some(RenewalPreflight); }
  }

  // ---- generate_csr ----

  /** The body of the with block. */
  method GenerateConnected(w: World) returns (attempted: bool, failed: Option<Error>)
    requires w.Valid() && w.Open()
    modifies w`mutations, w`log, w`config, w`seen
    ensures w.Valid()
    ensures attempted <==> w.env.Passes(CsrSummary) && w.env.Passes(CsrConfig)
    ensures failed.None? <==>
              && attempted && w.env.Passes(CsrCreate) && (w.env.csrPoisoned || w.env.Passes(CsrExit))
              && w.env.Passes(CsrRetrieve)
    ensures failed.Some? ==> failed.value.Foreign? || (failed.value.CsrAttempt? && attempted)
    ensures w.mutations == old(w.mutations) + if attempted then [CreateCsr] else []
    ensures w.seen == old(w.seen) + if failed.None? then {CsrValidated} else {}
    ensures w.config == old(w.config) + (if attempted then [Entered(|old(w.mutations)|)] else [])
                        + (if attempted && !w.env.csrPoisoned then [Exited(|w.mutations|)] else [])
  {
    attempted := false;
    failed := w.env.TryBoth(CsrSummary, CsrConfig);
    if failed.Some? { return; }
    w.config := w.config + [Entered(|w.mutations|)];
    attempted := true;
    MayAlways(w.env, w.heard, w.log, CreateCsr);
    w.Send(CreateCsr);
    failed := w.env.Try(CsrCreate);
    if !w.env.csrPoisoned {
      w.config := w.config + [Exited(|w.mutations|)];
      failed := Closed(failed, w.env.fails(CsrExit));
    }
    if failed.Some? { return; }
    failed := w.env.Try(CsrRetrieve);
    if failed.None? {
      w.See(CsrValidated);
    } else if failed.value.exc.ValueFailure? {
      failed := Some(CsrAttempt);
    }
  }

  /** Once CSR creation was attempted every exception is an attempt error, the one
      raised by closing the connection included. */
  method GenerateCsr(w: World) returns (failed: Option<Error>)
    requires w.Valid() && w.Open()
    modifies w`mutations, w`log, w`config, w`seen
    ensures w.Valid()
    ensures failed.None? <==> CsrWorks(w.env)
    ensures failed.Some? ==> (failed.value.CsrAttempt? <==> CsrReached(w.env))
    ensures failed.Some? && !CsrReached(w.env) ==> failed.value.Foreign?
    ensures failed.Some? && !CsrReached(w.env) && w.env.Passes(CsrArguments) ==> failed.value == SshNamed(failed.value)
    ensures w.mutations == old(w.mutations) + if CsrReached(w.env) then [CreateCsr] else []
    ensures old(w.seen) <= w.seen <= old(w.seen) + {CsrValidated}
    ensures failed.None? ==> CsrValidated in w.seen
    ensures CsrValidated in w.seen - old(w.seen) ==> CsrReached(w.env)
    ensures w.env.Passes(CsrArguments) && !w.env.Passes(CsrOpen) ==>
      var x := w.env.fails(CsrOpen).value;
      failed == Some(Foreign(if x.AuthenticationFailure? || x.SshTimeout? then ValueFailure else x))
  {
    failed := w.env.Try(CsrArguments);
    if failed.Some? { return; }
    var attempted := false;
    failed := w.env.Try(CsrOpen);
    if failed.None? {
      attempted, failed := GenerateConnected(w);
      failed := Closed(failed, w.env.fails(CsrClose));
    }
    if failed.Some? {
      failed := Some(if attempted then CsrAttempt else SshNamed(failed.value));
    }
  }

  // ---- retrieve_csr and sign_pending_csr ----

  method RetrieveCsr(w: World, item: SwitchResult?) returns (failed: Option<Error>)
    requires w.Valid()
    modifies w`log, w`seen, Telling(w, item)`events,
      Heard(item)`stage, Heard(item)`pendingCsrObserved, Heard(item)`milestones, Heard(item)`change
    ensures w.Valid() && (old(Told(w, item)) ==> Told(w, item))
    ensures item != null ==> w.events == old(w.events) + RetrievalHeard(w.env)
    ensures failed.None? <==> RetrieveWorks(w.env)
    ensures failed.Some? ==> failed.value.Foreign?
    ensures failed.None? ==> CsrValidated in w.seen
    ensures old(w.seen) <= w.seen <= old(w.seen) + {CsrValidated}
    ensures item != null ==>
      && item.pendingCsrObserved == (old(item.pendingCsrObserved) || PendingSeen(w.env))
      && item.milestones == old(item.milestones) && item.change == old(item.change)
      && item.stage == old(item.stage)
    ensures w.env.Passes(RetrieveArguments) && !w.env.Passes(RetrieveOpen) ==>
      var x := w.env.fails(RetrieveOpen).value;
      failed == Some(Foreign(if x.AuthenticationFailure? || x.SshTimeout? then ValueFailure else x))
  {
    hide Sound, Kept, AllRest, Locked, Answers, Told, AllMilestoned;
    failed := w.env.Try(RetrieveArguments);
    if failed.Some? { return; }
    failed := w.env.Try(RetrieveOpen);
    if failed.None? {
      failed := w.env.Try(RetrieveSummary);
      if failed.None? {
        Report(w, item, PendingCsrObserved);
        failed := w.env.Try(RetrieveRead);
        if failed.None? { w.See(CsrValidated); }
      }
      failed := Closed(failed, w.env.fails(RetrieveClose));
    }
    if failed.Some? { failed := Some(SshNamed(failed.value)); }
  }

  /** What signing leaves of the milestones. */
  function SignMilestones(env: Environment, m: Milestones): Milestones {
    m.(csr := if CsrAtHand(env) then Confirmed
              else if env.Passes(SignArguments) && m.csr.NotAttempted? then Failed else m.csr,
       issuance := if PostSaved(env) then Confirmed else if PostReached(env) then Uncertain else m.issuance)
  }

  function SignChange(env: Environment, c: Change): Change {
    if PostSaved(env) then Changed else if PostReached(env) then PossiblyChanged else c
  }

  /** Where signing stands when it ends. */
  function SignStage(env: Environment, before: Stage): Stage {
    if !env.Passes(SignArguments) then before
    else if !CsrAtHand(env) then CsrRetrieval
    else if !PostSaved(env) || !env.Passes(SignFetch) then Signing
    else IssuedValidation
  }

  function SignEvidence(env: Environment): set<Evidence> {
    (if PostSaved(env) then {Saved} else {}) + if SignWorks(env) then {IssuedValid} else {}
  }

  method CollectIssued(w: World, item: SwitchResult?) returns (failed: Option<Error>)
    requires w.Valid()
    modifies w`log, w`seen, Telling(w, item)`events,
      Heard(item)`stage, Heard(item)`pendingCsrObserved, Heard(item)`milestones, Heard(item)`change
    ensures w.Valid() && (old(Told(w, item)) ==> Told(w, item))
    ensures item != null ==> w.events == old(w.events) + CollectionHeard(w.env)
    ensures failed.None? <==> w.env.Passes(SignFetch) && w.env.Passes(SignIssued)
    ensures failed.Some? ==> failed.value.Foreign?
    ensures w.seen == old(w.seen) + if failed.None? then {IssuedValid} else {}
    ensures item != null ==>
      && item.pendingCsrObserved == old(item.pendingCsrObserved)
      && item.milestones == old(item.milestones) && item.change == old(item.change)
    ensures item != null ==> item.stage == if w.env.Passes(SignFetch) then IssuedValidation else old(item.stage)
  {
    hide Sound, Kept, AllRest, Locked, Answers, Told, AllMilestoned;
    failed := w.env.Try(SignFetch);
    if failed.Some? { return; }
    Report(w, item, CertificateRetrieved);
    failed := w.env.Try(SignIssued);
    if failed.Some? { return; }
    w.See(IssuedValid);
    Report(w, item, IssuedValidated);
  }

  /** The dispatch is reported before the POST, which is sent once. */
  method PostRequest(w: World, item: SwitchResult?) returns (failed: Option<Error>)
    requires w.Valid() && w.Open() && w.heard == (item != null) && w.env.Passes(SignRequest)
    modifies w`mutations, w`log, w`seen, Telling(w, item)`events,
      Heard(item)`stage, Heard(item)`pendingCsrObserved, Heard(item)`milestones, Heard(item)`change
    ensures w.Valid() && (old(Told(w, item)) ==> Told(w, item))
    ensures item != null ==>
      w.events == old(w.events) + [IssuanceDispatched] + if w.env.Passes(SignPost) then [IssuanceConfirmed] else []
    ensures failed.None? <==> w.env.Passes(SignPost)
    ensures failed.Some? ==> failed.value.Foreign?
    ensures w.mutations == old(w.mutations) + [PostSign]
    ensures w.seen == old(w.seen) + if failed.None? then {Saved} else {}
    ensures item != null ==>
      && item.pendingCsrObserved == old(item.pendingCsrObserved)
      && item.change == (if failed.None? then Changed else PossiblyChanged)
      && item.milestones == old(item.milestones).(issuance := if failed.None? then Confirmed else Uncertain)
    ensures item != null ==> item.stage == Signing
  {
    hide Sound, Kept, AllRest, Locked, Answers, Told, AllMilestoned;
    Report(w, item, IssuanceDispatched);
    MayPost(w.env, w.heard, w.log);
    w.Send(PostSign);
    failed := w.env.Try(SignPost);
    if failed.Some? { return; }
    w.See(Saved);
    Report(w, item, IssuanceConfirmed);
  }

  method IssueCertificate(w: World, item: SwitchResult?) returns (failed: Option<Error>)
    requires CsrAtHand(w.env) && w.heard == (item != null)
    requires w.Valid() && w.Open()
    modifies w`mutations, w`log, w`seen, Telling(w, item)`events,
      Heard(item)`stage, Heard(item)`pendingCsrObserved, Heard(item)`milestones, Heard(item)`change
    ensures w.Valid() && (old(Told(w, item)) ==> Told(w, item))
    ensures item != null ==> w.events == old(w.events) + IssueHeard(w.env)
    ensures failed.None? <==> SignWorks(w.env)
    ensures failed.Some? ==> failed.value.Foreign?
    ensures w.mutations == old(w.mutations) + if PostReached(w.env) then [PostSign] else []
    ensures w.seen == old(w.seen) + SignEvidence(w.env)
    ensures item != null ==>
      && item.pendingCsrObserved == old(item.pendingCsrObserved)
      && item.change == SignChange(w.env, old(item.change))
      && item.milestones == old(item.milestones).(issuance :=
           if PostSaved(w.env) then Confirmed else if PostReached(w.env) then Uncertain
           else old(item.milestones).issuance)
    ensures item != null ==> item.stage == SignStage(w.env, old(item.stage))
  {
    hide Sound, Kept, AllRest, Locked, Answers, Told, AllMilestoned;
    Report(w, item, SigningPreparation);
    failed := w.env.TryBoth(SignResolve, SignRequest);
    if failed.Some? { return; }
    failed := PostRequest(w, item);
    if failed.Some? { return; }
    failed := CollectIssued(w, item);
  }

  method SignPendingCsr(w: World, item: SwitchResult?) returns (failed: Option<Error>)
    requires w.heard == (item != null)
    requires w.Valid() && w.Open()
    modifies w`mutations, w`log, w`seen, Telling(w, item)`events,
      Heard(item)`stage, Heard(item)`pendingCsrObserved, Heard(item)`milestones, Heard(item)`change
    ensures w.Valid() && (old(Told(w, item)) ==> Told(w, item))
    ensures item != null ==> w.events == old(w.events) + SignHeard(w.env)
    ensures failed.None? <==> SignWorks(w.env)
    ensures failed.Some? ==> failed.value.Foreign?
    ensures w.mutations == old(w.mutations) + if PostReached(w.env) then [PostSign] else []
    ensures old(w.seen) + SignEvidence(w.env) <= w.seen
         <= old(w.seen) + SignEvidence(w.env) + {CsrValidated}
    ensures CsrAtHand(w.env) ==> CsrValidated in w.seen
    ensures item != null ==>
      && item.milestones == SignMilestones(w.env, old(item.milestones))
      && item.change == SignChange(w.env, old(item.change))
      && item.pendingCsrObserved
         == (old(item.pendingCsrObserved) || (w.env.Passes(SignArguments) && PendingSeen(w.env)))
    ensures item != null ==> item.stage == SignStage(w.env, old(item.stage))
  {
    hide Sound, Kept, AllRest, Locked, Answers, Told, AllMilestoned;
    hide SignHeard, RetrievalHeard, IssueHeard;
    SigningHeard(w.env);
    failed := w.env.Try(SignArguments);
    if failed.Some? { return; }
    Report(w, item, CsrRetrievalStarted);
    failed := RetrieveCsr(w, item);
    if failed.Some? { return; }
    failed := w.env.Try(SignValidate);
    if failed.Some? { return; }
    Report(w, item, CsrRetrieved);
    failed := IssueCertificate(w, item);
  }

  // ---- install_pending_certificate ----

  method JudgeIssued(w: World, item: SwitchResult?) returns (failed: Option<Error>)
    requires w.Valid()
    modifies w`log, w`seen, Telling(w, item)`events,
      Heard(item)`stage, Heard(item)`pendingCsrObserved, Heard(item)`milestones, Heard(item)`change
    ensures w.Valid() && (old(Told(w, item)) ==> Told(w, item))
    ensures item != null ==> w.events == old(w.events) + JudgementHeard(w.env)
    ensures failed.None? <==> w.env.Passes(InstallIssued)
    ensures failed.Some? ==> failed.value.Foreign?
    ensures w.seen == old(w.seen) + if failed.None? then {IssuedValid} else {}
    ensures item != null ==>
      && item.pendingCsrObserved == old(item.pendingCsrObserved)
      && item.milestones == old(item.milestones) && item.change == old(item.change)
      && item.stage == if w.env.Passes(InstallIssued) then Installation else IssuedValidation
  {
    hide Sound, Kept, AllRest, Locked, Answers, Told, AllMilestoned, Milestoned, ChangeAfter, StageAfter;
    OnlyStageMoves(IssuedValidationStarted);
    OnlyStageMoves(IssuedValidated);
    OnlyStageMoves(InstallationPrepared);
    Report(w, item, IssuedValidationStarted);
    failed := w.env.Try(InstallIssued);
    if failed.Some? { return; }
    w.See(IssuedValid);
    Report(w, item, IssuedValidated);
    Report(w, item, InstallationPrepared);
  }

  method JudgePending(w: World, item: SwitchResult?) returns (failed: Option<Error>)
    requires w.Valid()
    modifies w`log, w`seen, Telling(w, item)`events,
      Heard(item)`stage, Heard(item)`pendingCsrObserved, Heard(item)`milestones, Heard(item)`change
    ensures w.Valid() && (old(Told(w, item)) ==> Told(w, item))
    ensures item != null ==> w.events == old(w.events) + PendingHeard(w.env)
    ensures failed.None? <==> w.env.Passes(InstallRetrieve) && w.env.Passes(InstallIssued)
    ensures failed.Some? ==> failed.value.Foreign?
    ensures w.seen == old(w.seen) + (if w.env.Passes(InstallRetrieve) then {CsrValidated} else {})
                      + (if failed.None? then {IssuedValid} else {})
    ensures item != null ==>
      && item.milestones == PendingMilestones(w.env, old(item.milestones))
      && item.pendingCsrObserved == old(item.pendingCsrObserved) && item.change == old(item.change)
      && item.stage == if !w.env.Passes(InstallRetrieve) then CsrRetrieval
                       else if w.env.Passes(InstallIssued) then Installation else IssuedValidation
  {
    hide Sound, Kept, AllRest, Locked, Answers, Told, AllMilestoned, JudgementHeard;
    Report(w, item, CsrRetrievalStarted);
    failed := w.env.Try(InstallRetrieve);
    if failed.Some? { return; }
    w.See(CsrValidated);
    Report(w, item, CsrRetrieved);
    failed := JudgeIssued(w, item);
  }

  /** Reading the pending CSR and judging the certificate against it. */
  method JudgeCertificate(w: World, item: SwitchResult?) returns (failed: Option<Error>)
    requires InstallOpened(w.env)
    requires w.Valid()
    modifies w`log, w`seen, Telling(w, item)`events,
      Heard(item)`stage, Heard(item)`pendingCsrObserved, Heard(item)`milestones, Heard(item)`change
    ensures w.Valid() && (old(Told(w, item)) ==> Told(w, item))
    ensures item != null ==> w.events == old(w.events) + InstallHeard(w.env)
    ensures failed.None? <==> InstallReached(w.env)
    ensures failed.Some? ==> failed.value.Foreign?
    ensures old(w.seen) <= w.seen <= old(w.seen) + {CsrValidated, IssuedValid}
    ensures failed.None? ==> CsrValidated in w.seen && IssuedValid in w.seen
    ensures w.env.Passes(InstallSummary) && w.env.Passes(InstallRetrieve) ==> CsrValidated in w.seen
    ensures item != null ==> InstallReport(w.env, item)
  {
    hide Sound, Kept, AllRest, Locked, Answers, Told, AllMilestoned, PendingHeard, PendingMilestones;
    failed := w.env.Try(InstallSummary);
    if failed.Some? { return; }
    Report(w, item, PendingCsrObserved);
    failed := JudgePending(w, item);
  }

  /** The body of the with block; completed is set after the dialogue returned. */
  method InstallConnected(w: World, item: SwitchResult?) returns (completed: bool, failed: Option<Error>)
    requires InstallOpened(w.env)
    requires w.Valid() && w.Open()
    modifies w`mutations, w`log, w`config, w`seen, Telling(w, item)`events,
      Heard(item)`stage, Heard(item)`pendingCsrObserved, Heard(item)`milestones, Heard(item)`change
    ensures w.Valid() && (old(Told(w, item)) ==> Told(w, item))
    ensures item != null ==> w.events == old(w.events) + InstallHeard(w.env)
    ensures failed.None? == completed == (InstallReached(w.env) && Installed(w.env))
    ensures failed.Some? ==> failed.value.Foreign? || failed.value.InstallAttempt?
    ensures failed.Some? ==> (failed.value.InstallAttempt? <==> InstallReached(w.env) && InConfigMode(w.env))
    ensures w.mutations == old(w.mutations) + if InstallReached(w.env) then Sent(w.env) else []
    ensures old(w.seen) <= w.seen <= old(w.seen) + {CsrValidated, IssuedValid, InstalledVerified}
    ensures w.env.Passes(InstallSummary) && w.env.Passes(InstallRetrieve) ==> CsrValidated in w.seen
    ensures completed ==> CsrValidated in w.seen && IssuedValid in w.seen && InstalledVerified in w.seen
    ensures item != null ==> InstallReport(w.env, item)
  {
    hide Sound, Kept, AllRest, Locked, Answers, Told, AllMilestoned;
    completed := false;
    failed := JudgeCertificate(w, item);
    if failed.Some? { return; }
    failed := InstallSigned(w);
    completed := failed.None?;
  }

  /** What an installation reports by itself: the CSR, and nothing it changed. */
  twostate predicate InstallReport(env: Environment, item: SwitchResult)
    reads item
  {
    && item.milestones == InstallMilestones(env, old(item.milestones))
    && item.pendingCsrObserved == (old(item.pendingCsrObserved) || (InstallOpened(env) && env.Passes(InstallSummary)))
    && item.change == old(item.change) && item.stage == InstallStage(env, old(item.stage))
  }

  function InstallMilestones(env: Environment, m: Milestones): Milestones {
    if !InstallOpened(env) || !env.Passes(InstallSummary) then m else PendingMilestones(env, m)
  }

  function PendingMilestones(env: Environment, m: Milestones): Milestones {
    if env.Passes(InstallRetrieve) then m.(csr := Confirmed)
    else if m.csr.NotAttempted? then m.(csr := Failed) else m
  }

  /** The handlers ask whether the installation completed, not whether it was
      attempted: an attempt error over which closing the connection raises leaves as an
      ordinary error. */
  method InstallPending(w: World, item: SwitchResult?) returns (failed: Option<Error>)
    requires w.Valid() && w.Open()
    modifies w`mutations, w`log, w`config, w`seen, Telling(w, item)`events,
      Heard(item)`stage, Heard(item)`pendingCsrObserved, Heard(item)`milestones, Heard(item)`change
    ensures w.Valid() && (old(Told(w, item)) ==> Told(w, item))
    ensures item != null ==> w.events == old(w.events) + InstallHeard(w.env)
    ensures failed.None? <==> InstallWorks(w.env)
    ensures failed.Some? ==> failed.value.Foreign? || failed.value.InstallAttempt?
    ensures failed.Some? ==>
      (failed.value.InstallAttempt? <==>
         InstallReached(w.env) && InConfigMode(w.env) && !AttemptHidden(w.env))
    ensures failed.Some? && failed.value.Foreign? && w.env.Passes(InstallArguments) ==> IsValueOrOS(failed.value)
    ensures w.mutations == old(w.mutations) + if InstallReached(w.env) then Sent(w.env) else []
    ensures old(w.seen) <= w.seen && (Saved in w.seen <==> Saved in old(w.seen))
    ensures LiveVerified in w.seen <==> LiveVerified in old(w.seen)
    ensures failed.None? ==> CsrValidated in w.seen && IssuedValid in w.seen && InstalledVerified in w.seen
    ensures InstallOpened(w.env) && w.env.Passes(InstallSummary) && w.env.Passes(InstallRetrieve) ==>
              CsrValidated in w.seen
    ensures item != null ==> InstallReport(w.env, item)
  {
    hide Sound, Kept, AllRest, Locked, Answers, Told, AllMilestoned;
    failed := w.env.Try(InstallArguments);
    if failed.Some? { return; }
    var completed := false;
    failed := w.env.Try(InstallOpen);
    if failed.None? {
      completed, failed := InstallConnected(w, item);
      failed := Closed(failed, w.env.fails(InstallClose));
    }
    if failed.None? || failed.value.InstallAttempt? { return; }
    if completed { return Some(InstallAttempt(failed.value.exc)); }
    if !IsValueOrOS(failed.value) { failed := Some(Foreign(ValueFailure)); }
  }

  // ---- renew_certificate ----

  predicate CsrSent(env: Environment) {
    env.Passes(SnapshotCheck) && PreflightWorks(env) && CsrReached(env)
  }

  predicate CsrDone(env: Environment) {
    env.Passes(SnapshotCheck) && PreflightWorks(env) && CsrWorks(env)
  }

  predicate SignDone(env: Environment) { CsrDone(env) && SignWorks(env) }
  predicate InstallDone(env: Environment) { SignDone(env) && InstallWorks(env) }
  predicate RenewalWorks(env: Environment) { InstallDone(env) && env.Passes(LiveCheck) }

  /** What a renewal sends. */
  function RenewalSent(env: Environment): seq<Mutation> {
    (if CsrSent(env) then [CreateCsr] else [])
    + (if CsrDone(env) && PostReached(env) then [PostSign] else [])
    + (if SignDone(env) && InstallReached(env) then Sent(env) else [])
  }

  function RenewalMilestones(env: Environment): Milestones {
    Milestones(
      if CsrDone(env) then Confirmed else NotAttempted,
      if !CsrDone(env) || !PostReached(env) then NotAttempted
      else if PostSaved(env) then Confirmed else Uncertain,
      if InstallDone(env) then Confirmed else NotAttempted,
      if InstallDone(env) then Confirmed else NotAttempted,
      if RenewalWorks(env) then Confirmed else NotAttempted)
  }

  function RenewalChange(env: Environment): Change {
    if !CsrDone(env) then Unchanged
    else if PostReached(env) && !PostSaved(env) then PossiblyChanged
    else Changed
  }

  /** The class of the error names the stage that failed, except that an attempt hidden
      by a failing close looks like an installation that never began. */
  predicate Names(env: Environment, e: Error) {
    if !env.Passes(SnapshotCheck) then e.Foreign?
    else if !PreflightWorks(env) then
      && (e.PendingCsrPreflight? || e.RenewalPreflight? || e.Foreign?)
      && (e.PendingCsrPreflight? <==> env.Passes(PreflightRead) && env.pendingFound)
    else if !CsrSent(env) then e.CsrPreAttempt? || e.Foreign?
    else if !CsrDone(env) then e.CsrAttempt?
    else if !SignDone(env) then e.CsrSigning? || e.Foreign?
    else NamesLate(env, e)
  }

  predicate NamesLate(env: Environment, e: Error) {
    if !InstallWorks(env) then
      && (e.PreInstallation? || e.InstallAttempt? || e.Foreign?)
      && (e.InstallAttempt? <==> InstallReached(env) && InConfigMode(env) && !AttemptHidden(env))
      && (e.Foreign? ==> !env.Passes(InstallArguments))
    else !env.Passes(LiveCheck) && e == LiveError(env.fails(LiveCheck).value)
  }

  /** except (ValueError, OSError): raise LiveHTTPSVerificationError */
  function LiveError(x: Exc): (e: Error)
    ensures e.Foreign? ==> !IsValueOrOS(e)
  {
    if x.ValueFailure? || x.OSFailure? then LiveHttps else Foreign(x)
  }

  method StartRenewal(w: World, item: SwitchResult?) returns (failed: Option<Error>)
    requires w.mutations == [] && w.seen == {}
    requires w.Valid() && w.Open()
    modifies w`mutations, w`log, w`config, w`seen, Telling(w, item)`events,
      Heard(item)`stage, Heard(item)`pendingCsrObserved, Heard(item)`milestones, Heard(item)`change
    ensures w.Valid() && (old(Told(w, item)) ==> Told(w, item))
    ensures item != null ==> w.events == old(w.events) + StartHeard(w.env)
    ensures failed.None? <==> CsrDone(w.env)
    ensures failed.Some? ==> Names(w.env, failed.value)
    ensures failed.Some? && w.env.Passes(SnapshotCheck) && failed.value.Foreign? ==> !IsValueOrOS(failed.value)
    ensures w.mutations == if CsrSent(w.env) then [CreateCsr] else []
    ensures w.seen <= {CsrValidated} && (CsrDone(w.env) ==> CsrValidated in w.seen)
    ensures CsrValidated in w.seen ==> CsrSent(w.env)
    ensures item != null ==>
      && item.milestones == (if CsrDone(w.env) then old(item.milestones).(csr := Confirmed) else old(item.milestones))
      && item.change == (if CsrDone(w.env) then Changed else old(item.change))
      && item.pendingCsrObserved == old(item.pendingCsrObserved)
    ensures item != null ==>
      item.stage == if CsrDone(w.env) then Stage.CsrGeneration
                    else if w.env.Passes(SnapshotCheck) && PreflightWorks(w.env) then Preflight
                    else old(item.stage)
  {
    hide Sound, Kept, AllRest, Locked, Answers, Told, AllMilestoned;
    failed := w.env.Try(SnapshotCheck);
    if failed.Some? { return; }
    failed := PreflightRenewal(w);
    if failed.Some? { return; }
    Report(w, item, PreflightConfirmed);
    failed := GenerateCsr(w);
    if failed.Some? {
      if !failed.value.CsrAttempt? && IsValueOrOS(failed.value) { failed := Some(CsrPreAttempt); }
      return;
    }
    Report(w, item, CsrConfirmed);
  }

  function LateMilestones(env: Environment, m: Milestones): Milestones {
    if !InstallWorks(env) then m
    else m.(installation := Confirmed, activation := Confirmed,
            liveTls := if env.Passes(LiveCheck) then Confirmed else m.liveTls)
  }

  method CheckLive(w: World, item: SwitchResult?) returns (failed: Option<Error>)
    requires w.Valid()
    modifies w`log, w`seen, Telling(w, item)`events,
      Heard(item)`stage, Heard(item)`pendingCsrObserved, Heard(item)`milestones, Heard(item)`change
    ensures w.Valid() && (old(Told(w, item)) ==> Told(w, item))
    ensures item != null ==> w.events == old(w.events) + if failed.None? then [LiveTlsConfirmed] else []
    ensures failed.None? <==> w.env.Passes(LiveCheck)
    ensures failed.Some? ==> failed.value == LiveError(w.env.fails(LiveCheck).value)
    ensures w.seen == old(w.seen) + if failed.None? then {LiveVerified} else {}
    ensures item != null ==>
      && item.change == old(item.change)
      && item.stage == (if failed.None? then LiveVerification else old(item.stage))
      && item.milestones == (if failed.None? then old(item.milestones).(liveTls := Confirmed) else old(item.milestones))
  {
    hide Sound, Kept, AllRest, Locked, Answers, Told, AllMilestoned;
    failed := w.env.Try(LiveCheck);
    if failed.Some? {
      if IsValueOrOS(failed.value) { failed := Some(LiveHttps); }
      return;
    }
    w.See(LiveVerified);
    Report(w, item, LiveTlsConfirmed);
  }

  lemma LiveNames(env: Environment)
    requires InstallWorks(env) && !env.Passes(LiveCheck)
    ensures NamesLate(env, LiveError(env.fails(LiveCheck).value))
  {
    hide InstallWorks, InstallReached;
  }

  lemma InstallationTold(m: Milestones, c: Change, s: Stage)
    ensures Milestoned(m, InstallationConfirmed) == m.(installation := Confirmed, activation := Confirmed)
    ensures ChangeAfter(c, InstallationConfirmed) == Changed && StageAfter(s, InstallationConfirmed) == Activation
  {
  }

  method InstallUnreported(w: World) returns (failed: Option<Error>)
    requires w.Valid() && w.Open()
    modifies w`mutations, w`log, w`config, w`seen
    ensures w.Valid()
    ensures failed.None? <==> InstallWorks(w.env)
    ensures failed.Some? ==> NamesLate(w.env, failed.value)
    ensures failed.Some? && failed.value.Foreign? ==> !IsValueOrOS(failed.value)
    ensures w.mutations == old(w.mutations) + if InstallReached(w.env) then Sent(w.env) else []
    ensures forall e: Evidence | e in old(w.seen) :: e in w.seen
    ensures Saved in w.seen <==> Saved in old(w.seen)
    ensures LiveVerified in w.seen <==> LiveVerified in old(w.seen)
    ensures failed.None? ==> InstalledVerified in w.seen && IssuedValid in w.seen
  {
    failed := InstallPending(w, null);
    if failed.Some? && !failed.value.InstallAttempt? && IsValueOrOS(failed.value) {
      failed := Some(PreInstallation);
    }
  }

  /** The installation runs without progress; its success is reported afterwards. */
  method InstallAndCheck(w: World, item: SwitchResult?) returns (failed: Option<Error>)
    requires w.Valid() && w.Open()
    modifies w`mutations, w`log, w`config, w`seen, Telling(w, item)`events,
      Heard(item)`stage, Heard(item)`pendingCsrObserved, Heard(item)`milestones, Heard(item)`change
    ensures w.Valid() && (old(Told(w, item)) ==> Told(w, item))
    ensures item != null ==> w.events == old(w.events) + LateHeard(w.env)
    ensures failed.None? <==> InstallWorks(w.env) && w.env.Passes(LiveCheck)
    ensures failed.Some? ==> NamesLate(w.env, failed.value)
    ensures failed.Some? && failed.value.Foreign? ==> !IsValueOrOS(failed.value)
    ensures w.mutations == old(w.mutations) + if InstallReached(w.env) then Sent(w.env) else []
    ensures forall e: Evidence | e in old(w.seen) :: e in w.seen
    ensures Saved in w.seen <==> Saved in old(w.seen)
    ensures InstallWorks(w.env) ==> InstalledVerified in w.seen && IssuedValid in w.seen
    ensures LiveVerified in w.seen <==> failed.None? || LiveVerified in old(w.seen)
    ensures item != null ==>
      && item.change == (if InstallWorks(w.env) then Changed else old(item.change))
      && item.milestones == LateMilestones(w.env, old(item.milestones))
      && item.stage == if !InstallWorks(w.env) then old(item.stage)
                       else if w.env.Passes(LiveCheck) then LiveVerification else Activation
  {
    hide Sound, Kept, AllRest, Locked, Answers, Told, AllMilestoned;
    hide InstallWorks, InstallReached, Sent, NamesLate, LiveError, Milestoned, ChangeAfter, StageAfter;
    if item != null { InstallationTold(item.milestones, item.change, item.stage); }
    failed := InstallUnreported(w);
    if failed.Some? { return; }
    if !w.env.Passes(LiveCheck) { LiveNames(w.env); }
    Report(w, item, InstallationConfirmed);
    failed := CheckLive(w, item);
  }

  /** What a renewal amounts to when it ends before it signs. */
  lemma EndsBefore(env: Environment, before: Stage)
    requires !CsrDone(env)
    ensures !SignDone(env) && !InstallDone(env) && !RenewalWorks(env)
    ensures RenewalHeard(env) == StartHeard(env) && RenewalSent(env) == if CsrSent(env) then [CreateCsr] else []
    ensures RenewalMilestones(env) == UNTOUCHED && RenewalChange(env) == Unchanged
    ensures RenewalStage(env, before)
         == if env.Passes(SnapshotCheck) && PreflightWorks(env) then Preflight else before
  {
    hide StartHeard, SignHeard, PreflightWorks, CsrReached, CsrWorks;
    assert CsrDone(env) ==> CsrSent(env) by { CsrBefore(env); }
  }

  lemma CsrBefore(env: Environment)
    ensures CsrDone(env) ==> CsrSent(env)
  {
  }

  /** ... when it ends while it signs ... */
  lemma EndsSigning(env: Environment, before: Stage)
    requires CsrDone(env) && !SignWorks(env)
    ensures !SignDone(env) && !InstallDone(env) && !RenewalWorks(env)
    ensures RenewalHeard(env) == StartHeard(env) + SignHeard(env)
    ensures RenewalSent(env) == [CreateCsr] + if PostReached(env) then [PostSign] else []
    ensures RenewalMilestones(env) == SignMilestones(env, UNTOUCHED.(csr := Confirmed))
    ensures RenewalChange(env) == SignChange(env, Changed)
    ensures RenewalStage(env, before) == SignStage(env, Stage.CsrGeneration)
    ensures forall e: Error :: e.CsrSigning? || e.Foreign? ==> Names(env, e)
  {
    CsrBefore(env);
    hide StartHeard, SignHeard, CsrDone, CsrSent, CsrAtHand, Sent, NamesLate, SignStage, InstallReached;
    assert PostReached(env) ==> CsrAtHand(env) by { SavedAfter(env); }
  }

  lemma SavedAfter(env: Environment)
    ensures SignWorks(env) ==> PostSaved(env) && SignStage(env, Stage.CsrGeneration) == IssuedValidation
    ensures PostSaved(env) ==> PostReached(env)
    ensures PostReached(env) ==> CsrAtHand(env)
  {
  }

  /** ... and afterwards. */
  lemma EndsAfter(env: Environment, before: Stage)
    requires CsrDone(env) && SignWorks(env)
    ensures SignDone(env) && InstallDone(env) == InstallWorks(env)
    ensures RenewalWorks(env) == (InstallWorks(env) && env.Passes(LiveCheck))
    ensures RenewalHeard(env) == StartHeard(env) + SignHeard(env) + LateHeard(env)
    ensures RenewalSent(env) == [CreateCsr, PostSign] + if InstallReached(env) then Sent(env) else []
    ensures RenewalMilestones(env) == LateMilestones(env, SignMilestones(env, UNTOUCHED.(csr := Confirmed)))
    ensures RenewalChange(env) == Changed && SignChange(env, Changed) == Changed
    ensures PostReached(env) && PostSaved(env) && SignStage(env, Stage.CsrGeneration) == IssuedValidation
    ensures RenewalStage(env, before)
         == if InstallWorks(env) then if env.Passes(LiveCheck) then LiveVerification else Activation
            else IssuedValidation
    ensures forall e: Error :: NamesLate(env, e) ==> Names(env, e)
  {
    CsrBefore(env);
    SavedAfter(env);
    hide StartHeard, SignHeard, LateHeard, CsrDone, CsrSent, CsrAtHand, PostReached, PostSaved, SignWorks, InstallWorks,
      InstallReached, Sent, NamesLate, SignStage;
  }

  method RenewCertificate(w: World, item: SwitchResult?) returns (failed: Option<Error>)
    requires w.mutations == [] && w.seen == {} && w.events == [] && w.heard == (item != null)
    requires item != null ==> item.milestones == UNTOUCHED && item.change == Unchanged
    requires w.Valid() && w.Open()
    modifies w`mutations, w`log, w`config, w`seen, Telling(w, item)`events,
      Heard(item)`stage, Heard(item)`pendingCsrObserved, Heard(item)`milestones, Heard(item)`change
    ensures w.Valid() && Told(w, item)
    ensures item != null ==> w.events == RenewalHeard(w.env)
    ensures failed.None? <==> RenewalWorks(w.env)
    ensures failed.Some? ==> Names(w.env, failed.value)
    ensures failed.Some? && w.env.Passes(SnapshotCheck) && failed.value.Foreign? ==> !IsValueOrOS(failed.value)
    ensures w.mutations == RenewalSent(w.env)
    ensures CsrDone(w.env) ==> CsrValidated in w.seen
    ensures Saved in w.seen <==> CsrDone(w.env) && PostSaved(w.env)
    ensures InstallDone(w.env) ==> InstalledVerified in w.seen && IssuedValid in w.seen
    ensures LiveVerified in w.seen <==> RenewalWorks(w.env)
    ensures item != null ==> item.milestones == RenewalMilestones(w.env)
    ensures item != null ==> item.change == RenewalChange(w.env)
    ensures item != null && !CsrDone(w.env) ==> item.pendingCsrObserved == old(item.pendingCsrObserved)
    ensures item != null ==> item.stage == RenewalStage(w.env, old(item.stage))
  {
    hide Sound, Kept, AllRest, Locked, Answers, Told, AllMilestoned;
    hide RenewalHeard, StartHeard, SignHeard, LateHeard, InstallReached, Installed, InConfigMode, Sent, SignDone,
      InstallDone, InstallWorks, RenewalWorks, CsrDone, CsrSent, PostReached, PostSaved, CsrAtHand, SignWorks,
      RenewalSent, RenewalMilestones, RenewalChange, RenewalStage, SignStage, SignMilestones, SignChange,
      LateMilestones, Names, NamesLate;
    NothingTold(w, item);
    ghost var before := if item == null then Preflight else item.stage;
    failed := StartRenewal(w, item);
    if failed.Some? {
      EndsBefore(w.env, before);
      return;
    }
    failed := SignPendingCsr(w, item);
    if failed.Some? {
      EndsSigning(w.env, before);
      if IsValueOrOS(failed.value) { failed := Some(CsrSigning); }
      return;
    }
    EndsAfter(w.env, before);
    failed := InstallAndCheck(w, item);
  }

  /** Every run sends a prefix of the one renewal, so no command is ever repeated, and a
      later command needs the evidence of the earlier stage. */
  lemma RenewalSendsPrefix(env: Environment)
    ensures RenewalSent(env) <= ALL_MUTATIONS
    ensures RenewalSent(env) == [] <==> !CsrSent(env)
    ensures PostSign in RenewalSent(env) <==> CsrDone(env) && PostReached(env)
    ensures InstallCommand in RenewalSent(env) <==> SignDone(env) && InstallReached(env) && InConfigMode(env)
    ensures RenewalWorks(env) ==> RenewalSent(env) == ALL_MUTATIONS
  {
    SentInOrder(env);
    var sent := Sent(env);
    assert InConfigMode(env) ==> sent != [] && sent[0] == InstallCommand;
  }
}
