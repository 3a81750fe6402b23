/** A renewal as one chain of requirements: how far it gets decides everything it sends and
    everything its record says. */
module RenewalProgress {
  import opened Options
  import opened RunResult
  import opened RenewalWorld
  import opened InstallDialogue
  import opened Renewal
  import opened Prompts

  /** What has to go well: a step, leaving config mode unless the connection is poisoned, no
      pending CSR, and the answers of the switch. */
  datatype Requirement =
    | Passing(site: Site)
    | CsrModeLeft | InstallModeLeft
    | NonePending
    | PemAsked | ReplacementOffered | ConfirmationClean

  predicate Holds(env: Environment, r: Requirement) {
    match r
    case Passing(site) => env.fails(site).None?
    case CsrModeLeft => env.csrPoisoned || env.fails(CsrExit).None?
    case InstallModeLeft => env.installPoisoned || env.fails(DialogueExit).None?
    case NonePending => !env.pendingFound
    case PemAsked => Asks(env.cliError, env.pasteOutput, PASTE_PROMPT)
    case ReplacementOffered => Asks(env.cliError, env.replacementOutput, REPLACEMENT_PROMPT)
    case ConfirmationClean => !env.cliError(env.confirmOutput)
  }

  const PREFLIGHT: seq<Requirement> :=
    [Passing(SnapshotCheck), Passing(PreflightRead), NonePending, Passing(PreflightSelect)]

  /** Up to the command that creates the CSR. */
  const CSR_REQUEST: seq<Requirement> :=
    [Passing(CsrArguments), Passing(CsrOpen), Passing(CsrSummary), Passing(CsrConfig)]

  const CSR_CREATION: seq<Requirement> := [Passing(CsrCreate), CsrModeLeft, Passing(CsrRetrieve), Passing(CsrClose)]

  const CSR_RETRIEVAL: seq<Requirement> :=
    [Passing(RetrieveArguments), Passing(RetrieveOpen), Passing(RetrieveSummary), Passing(RetrieveRead),
     Passing(RetrieveClose)]

  /** Up to the POST. */
  const SUBMISSION: seq<Requirement> :=
    [Passing(SignArguments)] + CSR_RETRIEVAL + [Passing(SignValidate), Passing(SignResolve), Passing(SignRequest)]

  const ISSUANCE: seq<Requirement> := [Passing(SignPost)]
  const COLLECTION: seq<Requirement> := [Passing(SignFetch), Passing(SignIssued)]

  /** Up to the install command. */
  const JUDGEMENT: seq<Requirement> :=
    [Passing(InstallArguments), Passing(InstallOpen), Passing(InstallSummary), Passing(InstallRetrieve),
     Passing(InstallIssued), Passing(DialogueSummary), Passing(DialogueConfig)]

  /** Up to the PEM, and up to the confirmation. */
  const FIRST_PROMPT: seq<Requirement> := [Passing(DialogueCommand), PemAsked]
  const SECOND_PROMPT: seq<Requirement> := [Passing(DialoguePem), ReplacementOffered]

  const VERIFICATION: seq<Requirement> :=
    [Passing(DialogueConfirm), ConfirmationClean, InstallModeLeft, Passing(VerifySummary), Passing(VerifyDetail)]

  const DISCONNECTION: seq<Requirement> := [Passing(InstallClose)]
  const LIVE: seq<Requirement> := [Passing(LiveCheck)]

  const RENEWAL: seq<seq<Requirement>> :=
    [PREFLIGHT, CSR_REQUEST, CSR_CREATION, SUBMISSION, ISSUANCE, COLLECTION, JUDGEMENT, FIRST_PROMPT, SECOND_PROMPT,
     VERIFICATION, DISCONNECTION, LIVE]

  /** The stages of an explicit operation, each up to its command or to its end. */
  function StagesOf(op: Operation): seq<seq<Requirement>> {
    match op
    case GenerateCsr => [CSR_REQUEST, CSR_CREATION, [Passing(WriteCsr)]]
    case RetrieveCsr => [CSR_RETRIEVAL, [Passing(WriteCsr)]]
    case SignCsr => [SUBMISSION, ISSUANCE, COLLECTION, [Passing(ReadCertificate), Passing(WriteCertificate)]]
    case Install => [JUDGEMENT, FIRST_PROMPT, SECOND_PROMPT, VERIFICATION, DISCONNECTION, LIVE]
    case _ => []
  }

  /** How many stages hold before the first that does not. */
  function Progress(env: Environment, stages: seq<seq<Requirement>>): (n: nat)
    ensures n <= |stages|
  {
    if stages == [] || !AllHold(env, stages[0]) then 0 else 1 + Progress(env, stages[1..])
  }

  predicate AllHold(env: Environment, chain: seq<Requirement>) {
    forall i | 0 <= i < |chain| :: Holds(env, chain[i])
  }

  lemma {:induction false} ProgressIs(env: Environment, stages: seq<seq<Requirement>>, k: nat)
    requires k <= |stages|
    ensures Progress(env, stages) >= k <==> forall i | 0 <= i < k :: AllHold(env, stages[i])
  {
    hide AllHold;
    if k > 0 {
      ProgressIs(env, stages[1..], k - 1);
      assert forall i | 0 < i < k :: stages[i] == stages[1..][i - 1];
      assert forall i | 0 <= i < k - 1 :: stages[1..][i] == stages[i + 1];
    }
  }

  lemma Both(env: Environment, chain: seq<Requirement>, k: nat)
    requires k <= |chain|
    ensures AllHold(env, chain) <==> AllHold(env, chain[..k]) && AllHold(env, chain[k..])
  {
    if AllHold(env, chain[..k]) && AllHold(env, chain[k..]) {
      forall i | 0 <= i < |chain| ensures Holds(env, chain[i]) {
        assert i < k ==> chain[i] == chain[..k][i];
        assert i >= k ==> chain[i] == chain[k..][i - k];
      }
    }
  }

  predicate At(env: Environment, chain: seq<Requirement>, i: nat) { i < |chain| ==> Holds(env, chain[i]) }

  lemma Four(env: Environment, chain: seq<Requirement>)
    requires |chain| <= 4
    ensures AllHold(env, chain) <==> At(env, chain, 0) && At(env, chain, 1) && At(env, chain, 2) && At(env, chain, 3)
  {
    hide Holds;
  }

  lemma Eight(env: Environment, chain: seq<Requirement>)
    requires |chain| <= 8
    ensures AllHold(env, chain) <==>
      && At(env, chain, 0) && At(env, chain, 1) && At(env, chain, 2) && At(env, chain, 3)
      && At(env, chain, 4) && At(env, chain, 5) && At(env, chain, 6) && At(env, chain, 7)
  {
    hide AllHold, Holds;
    var k := if |chain| < 4 then |chain| else 4;
    Both(env, chain, k);
    Four(env, chain[..k]);
    Four(env, chain[k..]);
  }

  // ---- The stages, by their requirements ----

  lemma CsrStages(env: Environment)
    ensures env.Passes(SnapshotCheck) && PreflightWorks(env) <==> AllHold(env, PREFLIGHT)
    ensures CsrReached(env) <==> AllHold(env, CSR_REQUEST)
    ensures CsrWorks(env) <==> AllHold(env, CSR_REQUEST) && AllHold(env, CSR_CREATION)
  {
    Four(env, PREFLIGHT);
    Four(env, CSR_REQUEST);
    Four(env, CSR_CREATION);
    hide AllHold;
  }

  lemma RetrievalStage(env: Environment)
    ensures RetrieveWorks(env) <==> AllHold(env, CSR_RETRIEVAL)
  {
    Eight(env, CSR_RETRIEVAL);
    hide AllHold;
  }

  lemma SigningStages(env: Environment)
    ensures PostReached(env) <==> AllHold(env, SUBMISSION)
    ensures PostSaved(env) <==> AllHold(env, SUBMISSION) && AllHold(env, ISSUANCE)
    ensures SignWorks(env) <==> AllHold(env, SUBMISSION) && AllHold(env, ISSUANCE) && AllHold(env, COLLECTION)
  {
    Both(env, SUBMISSION, 1);
    Both(env, SUBMISSION[1..], 5);
    assert SUBMISSION[1..][..5] == CSR_RETRIEVAL;
    RetrievalStage(env);
    Four(env, SUBMISSION[..1]);
    Four(env, SUBMISSION[1..][5..]);
    Four(env, ISSUANCE);
    Four(env, COLLECTION);
    hide AllHold, RetrieveWorks;
  }

  lemma InstallStages(env: Environment)
    ensures InstallReached(env) && InConfigMode(env) <==> AllHold(env, JUDGEMENT)
    ensures PasteAsked(env) <==> InConfigMode(env) && AllHold(env, FIRST_PROMPT)
    ensures ReplacementAsked(env) <==> PasteAsked(env) && AllHold(env, SECOND_PROMPT)
    ensures Installed(env) <==> ReplacementAsked(env) && AllHold(env, VERIFICATION)
    ensures InstallWorks(env) <==> InstallReached(env) && Installed(env) && AllHold(env, DISCONNECTION)
    ensures env.Passes(LiveCheck) <==> AllHold(env, LIVE)
  {
    JudgementStage(env);
    VerificationStage(env);
    Four(env, FIRST_PROMPT);
    Four(env, SECOND_PROMPT);
    Four(env, DISCONNECTION);
    Four(env, LIVE);
    hide AllHold, Asks, InConfigMode, InstallReached, Installed;
  }

  lemma JudgementStage(env: Environment)
    ensures InstallReached(env) && InConfigMode(env) <==> AllHold(env, JUDGEMENT)
  {
    Eight(env, JUDGEMENT);
    hide AllHold;
  }

  lemma VerificationStage(env: Environment)
    ensures Installed(env) <==> ReplacementAsked(env) && AllHold(env, VERIFICATION)
  {
    Eight(env, VERIFICATION);
    hide AllHold, ReplacementAsked;
  }

  lemma ProgressStep(env: Environment, stages: seq<seq<Requirement>>, k: nat)
    requires k < |stages|
    ensures Progress(env, stages) > k <==> Progress(env, stages) >= k && AllHold(env, stages[k])
  {
    ProgressIs(env, stages, k);
    ProgressIs(env, stages, k + 1);
    hide AllHold, Progress;
  }

  lemma FirstStages(env: Environment)
    ensures var n := Progress(env, RENEWAL);
      && (n > 0 <==> AllHold(env, PREFLIGHT))
      && (n > 1 <==> n > 0 && AllHold(env, CSR_REQUEST)) && (n > 2 <==> n > 1 && AllHold(env, CSR_CREATION))
      && (n > 3 <==> n > 2 && AllHold(env, SUBMISSION)) && (n > 4 <==> n > 3 && AllHold(env, ISSUANCE))
      && (n > 5 <==> n > 4 && AllHold(env, COLLECTION))
  {
    ProgressStep(env, RENEWAL, 0);
    ProgressStep(env, RENEWAL, 1);
    ProgressStep(env, RENEWAL, 2);
    ProgressStep(env, RENEWAL, 3);
    ProgressStep(env, RENEWAL, 4);
    ProgressStep(env, RENEWAL, 5);
    hide AllHold, Progress;
  }

  lemma LastStages(env: Environment)
    ensures var n := Progress(env, RENEWAL);
      && (n > 6 <==> n > 5 && AllHold(env, JUDGEMENT)) && (n > 7 <==> n > 6 && AllHold(env, FIRST_PROMPT))
      && (n > 8 <==> n > 7 && AllHold(env, SECOND_PROMPT)) && (n > 9 <==> n > 8 && AllHold(env, VERIFICATION))
      && (n > 10 <==> n > 9 && AllHold(env, DISCONNECTION)) && (n > 11 <==> n > 10 && AllHold(env, LIVE))
      && n <= 12
  {
    ProgressStep(env, RENEWAL, 6);
    ProgressStep(env, RENEWAL, 7);
    ProgressStep(env, RENEWAL, 8);
    ProgressStep(env, RENEWAL, 9);
    ProgressStep(env, RENEWAL, 10);
    ProgressStep(env, RENEWAL, 11);
    hide AllHold, Progress;
  }

  /** The predicates of the staged operations, by the number of stages that hold. */
  lemma RenewalThresholds(env: Environment)
    ensures var n := Progress(env, RENEWAL);
      && (CsrSent(env) <==> n >= 2) && (CsrDone(env) <==> n >= 3)
      && (CsrDone(env) && PostReached(env) <==> n >= 4) && (CsrDone(env) && PostSaved(env) <==> n >= 5)
      && (SignDone(env) <==> n >= 6)
      && (SignDone(env) && InstallReached(env) && InConfigMode(env) <==> n >= 7)
      && (SignDone(env) && InstallReached(env) && PasteAsked(env) <==> n >= 8)
      && (SignDone(env) && InstallReached(env) && ReplacementAsked(env) <==> n >= 9)
      && (SignDone(env) && InstallReached(env) && Installed(env) <==> n >= 10)
      && (InstallDone(env) <==> n >= 11) && (RenewalWorks(env) <==> n == 12)
  {
    hide *;
    ThresholdsBefore(env);
    ThresholdsAfter(env);
  }

  lemma ThresholdsBefore(env: Environment)
    ensures var n := Progress(env, RENEWAL);
      && (CsrSent(env) <==> n >= 2) && (CsrDone(env) <==> n >= 3)
      && (CsrDone(env) && PostReached(env) <==> n >= 4) && (CsrDone(env) && PostSaved(env) <==> n >= 5)
      && (SignDone(env) <==> n >= 6)
  {
    CsrStages(env);
    SigningStages(env);
    FirstStages(env);
    hide Progress, AllHold, PreflightWorks, CsrReached, CsrWorks, PostReached, PostSaved, SignWorks;
  }

  lemma ThresholdsAfter(env: Environment)
    ensures var n := Progress(env, RENEWAL);
      && (SignDone(env) && InstallReached(env) && InConfigMode(env) <==> n >= 7)
      && (SignDone(env) && InstallReached(env) && PasteAsked(env) <==> n >= 8)
      && (SignDone(env) && InstallReached(env) && ReplacementAsked(env) <==> n >= 9)
      && (SignDone(env) && InstallReached(env) && Installed(env) <==> n >= 10)
      && (InstallDone(env) <==> n >= 11) && (RenewalWorks(env) <==> n == 12)
  {
    ThresholdsBefore(env);
    InstallStages(env);
    LastStages(env);
    hide Progress, AllHold, SignDone, InstallReached, InConfigMode, PasteAsked, ReplacementAsked, Installed,
      InstallWorks;
  }

  /** Commands that a renewal has sent when it fails behind its first n stages. */
  function CommandsBy(n: nat): nat {
    if n < 2 then 0 else if n < 4 then 1 else if n < 7 then 2 else if n < 8 then 3 else if n < 9 then 4 else 5
  }

  lemma SentBy(env: Environment)
    ensures RenewalSent(env) == ALL_MUTATIONS[..CommandsBy(Progress(env, RENEWAL))]
  {
    RenewalThresholds(env);
    SentStages(env);
    hide Progress, CsrSent, CsrDone, SignDone, PostReached, InstallReached, InConfigMode, PasteAsked, ReplacementAsked,
      Sent;
  }

  // ---- What a listener hears ----

  /** Everything that a renewal reports, in this order. */
  const ALL_EVENTS: seq<Event> :=
    [PreflightConfirmed, CsrConfirmed, CsrRetrievalStarted, PendingCsrObserved, CsrRetrieved, SigningPreparation,
     IssuanceDispatched, IssuanceConfirmed, CertificateRetrieved, IssuedValidated, InstallationConfirmed,
     LiveTlsConfirmed]

  /** How much of it has been reported when a renewal fails behind its first n stages. */
  function EventsBy(env: Environment, n: nat): nat {
    if n == 0 then 0
    else if n < 3 then 1
    else if n == 3 then
      if env.fails(SignArguments).Some? then 2
      else if !AllHold(env, CSR_RETRIEVAL[..3]) then 3
      else if !AllHold(env, CSR_RETRIEVAL + [Passing(SignValidate)]) then 4 else 6
    else if n == 4 then 7
    else if n == 5 then if env.fails(SignFetch).Some? then 8 else 9
    else if n < 11 then 10
    else if n == 11 then 11 else 12
  }

  lemma RetrievalStages(env: Environment)
    ensures PendingSeen(env) <==> AllHold(env, CSR_RETRIEVAL[..3])
    ensures CsrAtHand(env) <==> env.Passes(SignArguments) && AllHold(env, CSR_RETRIEVAL + [Passing(SignValidate)])
    ensures CsrAtHand(env) ==> PendingSeen(env)
  {
    Four(env, CSR_RETRIEVAL[..3]);
    Eight(env, CSR_RETRIEVAL + [Passing(SignValidate)]);
    hide AllHold;
  }

  /** What signing reports, between the CSR and the installation. */
  lemma SigningHeardBy(env: Environment)
    ensures SignHeard(env) == ALL_EVENTS[2..
      if !env.Passes(SignArguments) then 2
      else if !PendingSeen(env) then 3
      else if !CsrAtHand(env) then 4
      else if !PostReached(env) then 6
      else if !PostSaved(env) then 7
      else if !env.Passes(SignFetch) then 8
      else if !env.Passes(SignIssued) then 9 else 10]
  {
    RetrievalStages(env);
    SavedAfter(env);
    SigningHeard(env);
    hide CsrAtHand, PendingSeen, PostReached, PostSaved, SignHeard;
  }

  /** Whatever fails, a listener has heard the beginning of one list, and how much of it is
      decided by how far the renewal got; all of it if and only if the renewal succeeds. */
  lemma HeardBy(env: Environment)
    ensures RenewalHeard(env) == ALL_EVENTS[..EventsBy(env, Progress(env, RENEWAL))]
    ensures RenewalHeard(env) == ALL_EVENTS <==> RenewalWorks(env)
  {
    RenewalThresholds(env);
    RetrievalStages(env);
    SavedAfter(env);
    SigningHeardBy(env);
    FirstStages(env);
    CsrStages(env);
    hide Progress, AllHold, SignHeard, CsrAtHand, PendingSeen, PostReached, PostSaved, RenewalHeard, CsrReached,
      CsrWorks, PreflightWorks, InstallWorks, RenewalWorks, CsrDone, CsrSent;
    if !CsrDone(env) {
      EndsBefore(env, Preflight);
    } else if !SignWorks(env) {
      EndsSigning(env, Preflight);
    } else {
      EndsAfter(env, Preflight);
    }
  }
}
