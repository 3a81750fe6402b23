/** Switch, CA and live endpoint as the renewal sees them: every call may fail with
    any exception, and every command that could change something is recorded. */
module RenewalWorld {
  import opened Options
  import opened RunResult
  import opened Prompts

  /** Netmiko's two exceptions are neither ValueError nor OSError. */
  datatype Exc = AuthenticationFailure | SshTimeout | ValueFailure | OSFailure | OtherFailure

  /** Foreign is an exception no staged function has named; all others are ValueErrors. */
  datatype Error =
    | Foreign(exc: Exc)
    | PendingCsrPreflight | RenewalPreflight | CsrPreAttempt | CsrAttempt | CsrSigning
    | PreInstallation | InstallAttempt(cause: Exc) | LiveHttps

  /** except (ValueError, OSError) */
  predicate IsValueOrOS(e: Error) {
    !e.Foreign? || e.exc.ValueFailure? || e.exc.OSFailure?
  }

  /** One step that may raise. A site that checks an answer raises when it is wrong. */
  datatype Site =
    | SnapshotCheck | PreflightRead | PreflightSelect
    | CsrArguments | CsrOpen | CsrSummary | CsrConfig | CsrCreate | CsrExit | CsrRetrieve | CsrClose
    | SignArguments | RetrieveArguments | RetrieveOpen | RetrieveSummary | RetrieveRead | RetrieveClose
    | SignValidate | SignResolve | SignRequest | SignPost | SignFetch | SignIssued
    | InstallArguments | InstallOpen | InstallSummary | InstallRetrieve | InstallIssued | InstallClose
    | DialogueSummary | DialogueConfig | DialogueCommand | DialoguePem | DialogueConfirm | DialogueExit
    | VerifySummary | VerifyDetail | LiveCheck
    | WriteCsr | ReadCertificate | WriteCertificate

  datatype Environment = Environment(
    fails: Site -> Option<Exc>,
    pendingFound: bool,
    csrPoisoned: bool,
    installPoisoned: bool,
    cliError: string -> bool,
    pasteOutput: string,
    replacementOutput: string,
    confirmOutput: string)
  {
    predicate Passes(s: Site) { fails(s).None? }

    /** What reaching a site raises. */
    function Try(s: Site): Option<Error> {
      if fails(s).Some? then Some(Foreign(fails(s).value)) else None
    }

    function TryBoth(s: Site, t: Site): Option<Error> {
      if fails(s).Some? then Try(s) else Try(t)
    }
  }

  datatype Mutation = CreateCsr | PostSign | InstallCommand | WritePem | ConfirmReplacement

  /** Facts the run has read back. */
  datatype Evidence = CsrValidated | Saved | IssuedValid | InstalledVerified | LiveVerified

  /** Config mode entered or left, and how many mutations had been sent by then. */
  datatype ConfigStep = Entered(after: nat) | Exited(after: nat)

  /** What a run reports to its caller. */
  datatype Event =
    | PreflightConfirmed | PendingCsrObserved | CsrRetrievalStarted | CsrRetrieved | SigningPreparation
    | CsrConfirmed | IssuanceDispatched | IssuanceConfirmed | CertificateRetrieved
    | IssuedValidationStarted | IssuedValidated | InstallationPrepared | InstallationConfirmed
    | LiveTlsConfirmed

  /** The lifecycle lock of the switch is taken and released; a renewal is put on record
      before it starts. */
  datatype Mark = Taken | Started | Returned

  /** What passes between the run and its surroundings, in order: commands that could
      change something, replies of the switch, progress reported to the caller, and the
      steps around the lock. */
  datatype LogEntry =
    | Command(mutation: Mutation) | Reply(text: string) | Reported(event: Event) | Marked(mark: Mark)

  function Commands(log: seq<LogEntry>): seq<Mutation> {
    if log == [] then []
    else Commands(log[..|log| - 1])
         + if log[|log| - 1].Command? then [log[|log| - 1].mutation] else []
  }

  function Events(log: seq<LogEntry>): seq<Event> {
    if log == [] then []
    else Events(log[..|log| - 1])
         + if log[|log| - 1].Reported? then [log[|log| - 1].event] else []
  }

  function Marks(log: seq<LogEntry>): seq<Mark> {
    if log == [] then []
    else Marks(log[..|log| - 1])
         + if log[|log| - 1].Marked? then [log[|log| - 1].mark] else []
  }

  /** The lock is held, whether for a renewal or not. */
  predicate Locked(marks: seq<Mark>) { marks == [Taken] || marks == [Taken, Started] }

  predicate MayMark(before: seq<Mark>, sent: seq<Mutation>, mark: Mark) {
    match mark
    case Taken => before == []
    case Started => before == [Taken] && sent == []
    case Returned => Locked(before)
  }

  /** Entry k comes in its place: a command while the lock is held, a renewal under the lock
      and before any command. */
  ghost predicate InPlace(log: seq<LogEntry>, k: nat)
    requires k < |log|
  {
    && (log[k].Command? ==> Locked(Marks(log[..k])))
    && (log[k].Marked? ==> MayMark(Marks(log[..k]), Commands(log[..k]), log[k].mark))
  }

  ghost predicate InOrder(log: seq<LogEntry>) {
    forall k | 0 <= k < |log| :: InPlace(log, k)
  }

  /** Entry k answers to what was asked right before it: the PEM to an error-free paste
      prompt after the install command, the confirmation to an error-free replacement
      prompt after the PEM, and the POST to the report of its dispatch if anyone listens. */
  ghost predicate Answers(env: Environment, heard: bool, log: seq<LogEntry>, k: nat)
    requires k < |log|
  {
    && (log[k] == Command(WritePem) ==>
          k >= 2 && log[k - 2] == Command(InstallCommand)
          && log[k - 1].Reply? && Asks(env.cliError, log[k - 1].text, PASTE_PROMPT))
    && (log[k] == Command(ConfirmReplacement) ==>
          k >= 2 && log[k - 2] == Command(WritePem)
          && log[k - 1].Reply? && Asks(env.cliError, log[k - 1].text, REPLACEMENT_PROMPT))
    && (log[k] == Command(PostSign) && heard ==> k >= 1 && log[k - 1] == Reported(IssuanceDispatched))
  }

  ghost predicate Guarded(env: Environment, heard: bool, log: seq<LogEntry>) {
    forall k | 0 <= k < |log| :: Answers(env, heard, log, k)
  }

  lemma GuardedSnoc(env: Environment, heard: bool, log: seq<LogEntry>, e: LogEntry)
    requires Guarded(env, heard, log) && Answers(env, heard, log + [e], |log|)
    ensures Guarded(env, heard, log + [e])
    ensures Commands(log + [e]) == Commands(log) + if e.Command? then [e.mutation] else []
  {
    hide Answers, Commands;
    CommandsSnoc(log, e);
    forall k | 0 <= k < |log + [e]| ensures Answers(env, heard, log + [e], k) {
      if k < |log| { AnswersKept(env, heard, log, e, k); }
    }
  }

  lemma CommandsSnoc(log: seq<LogEntry>, e: LogEntry)
    ensures Commands(log + [e]) == Commands(log) + if e.Command? then [e.mutation] else []
  {
    assert (log + [e])[..|log|] == log;
  }

  /** What lets the three guarded commands be sent. */
  lemma MayPaste(env: Environment, heard: bool, log: seq<LogEntry>, text: string)
    requires |log| >= 1 && log[|log| - 1] == Command(InstallCommand) && Asks(env.cliError, text, PASTE_PROMPT)
    ensures var read := log + [Reply(text)]; Answers(env, heard, read + [Command(WritePem)], |read|)
  {
    hide Asks;
  }

  lemma MayConfirm(env: Environment, heard: bool, log: seq<LogEntry>, text: string)
    requires |log| >= 1 && log[|log| - 1] == Command(WritePem) && Asks(env.cliError, text, REPLACEMENT_PROMPT)
    ensures var read := log + [Reply(text)]; Answers(env, heard, read + [Command(ConfirmReplacement)], |read|)
  {
    hide Asks;
  }

  lemma MayPost(env: Environment, heard: bool, log: seq<LogEntry>)
    requires heard ==> |log| >= 1 && log[|log| - 1] == Reported(IssuanceDispatched)
    ensures Answers(env, heard, log + [Command(PostSign)], |log|)
  {
  }

  lemma MayAlways(env: Environment, heard: bool, log: seq<LogEntry>, m: Mutation)
    requires m.CreateCsr? || m.InstallCommand?
    ensures Answers(env, heard, log + [Command(m)], |log|)
  {
  }

  /** Only commands answer to anything. */
  lemma AnswersFreely(env: Environment, heard: bool, log: seq<LogEntry>, e: LogEntry)
    requires !e.Command?
    ensures Answers(env, heard, log + [e], |log|)
  {
    hide Asks;
  }

  lemma AnswersKept(env: Environment, heard: bool, log: seq<LogEntry>, e: LogEntry, k: nat)
    requires k < |log| && Answers(env, heard, log, k)
    ensures Answers(env, heard, log + [e], k)
  {
    hide Asks;
  }

  /** The log is guarded and holds exactly the commands sent. */
  ghost predicate Sound(env: Environment, heard: bool, log: seq<LogEntry>, mutations: seq<Mutation>) {
    Guarded(env, heard, log) && Commands(log) == mutations
  }

  /** The log is in order and holds exactly these marks and events. */
  ghost predicate Kept(log: seq<LogEntry>, marks: seq<Mark>, events: seq<Event>) {
    InOrder(log) && Marks(log) == marks && Events(log) == events
  }

  /** The checks that a piece of evidence rests on. */
  predicate Rests(env: Environment, e: Evidence) {
    match e
    case CsrValidated =>
      env.fails(CsrRetrieve).None? || env.fails(RetrieveRead).None? || env.fails(InstallRetrieve).None?
    case Saved => env.fails(SignRequest).None? && env.fails(SignPost).None?
    case IssuedValid =>
      (env.fails(SignFetch).None? && env.fails(SignIssued).None?) || env.fails(InstallIssued).None?
    case InstalledVerified => env.fails(VerifySummary).None? && env.fails(VerifyDetail).None?
    case LiveVerified => env.fails(LiveCheck).None?
  }

  ghost predicate AllRest(env: Environment, seen: set<Evidence>) { forall e | e in seen :: Rests(env, e) }

  lemma KeptSnoc(log: seq<LogEntry>, marks: seq<Mark>, events: seq<Event>, mutations: seq<Mutation>, e: LogEntry)
    requires Kept(log, marks, events) && Commands(log) == mutations
    requires e.Command? ==> Locked(marks)
    requires e.Marked? ==> MayMark(marks, mutations, e.mark)
    ensures Kept(log + [e], marks + (if e.Marked? then [e.mark] else []),
                 events + if e.Reported? then [e.event] else [])
  {
    var whole := log + [e];
    assert whole[..|log|] == log;
    hide Locked, MayMark;
    forall k | 0 <= k < |whole| ensures InPlace(whole, k) {
      if k < |log| {
        assert InPlace(log, k) && whole[..k] == log[..k];
      }
    }
  }

  class World {
    const env: Environment
    /** Whether the caller listens to progress. */
    const heard: bool
    var mutations: seq<Mutation>
    var log: seq<LogEntry>
    var marks: seq<Mark>
    var events: seq<Event>
    var config: seq<ConfigStep>
    var seen: set<Evidence>

    constructor (env: Environment, heard: bool)
      ensures this.env == env && this.heard == heard && mutations == [] && log == [] && config == [] && seen == {}
      ensures marks == [] && events == [] && Valid()
    {
      this.env, this.heard, mutations, log, config, seen, marks, events := env, heard, [], [], [], {}, [], [];
    }

    ghost predicate Valid()
      reads this`mutations, this`log, this`marks, this`events, this`seen
    {
      Sound(env, heard, log, mutations) && Kept(log, marks, events) && AllRest(env, seen)
    }

    /** Evidence is taken only where its checks have passed. */
    method See(e: Evidence)
      requires Valid() && Rests(env, e)
      modifies this`seen
      ensures Valid() && seen == old(seen) + {e}
    {
      seen := seen + {e};
    }

    predicate Open()
      reads this`marks
    {
      Locked(marks)
    }

    method Mark(mark: Mark)
      requires Valid() && MayMark(marks, mutations, mark)
      modifies this`log, this`marks
      ensures Valid() && log == old(log) + [Marked(mark)] && marks == old(marks) + [mark]
    {
      Extended(Marked(mark));
      log, marks := log + [Marked(mark)], marks + [mark];
    }

    /** What one more entry needs, and what it leaves. */
    lemma Extended(e: LogEntry)
      requires Valid() && (e.Command? ==> Open() && Answers(env, heard, log + [e], |log|))
      requires e.Marked? ==> MayMark(marks, mutations, e.mark)
      ensures Sound(env, heard, log + [e], mutations + if e.Command? then [e.mutation] else [])
      ensures Kept(log + [e], marks + (if e.Marked? then [e.mark] else []),
                   events + if e.Reported? then [e.event] else [])
    {
      KeptSnoc(log, marks, events, mutations, e);
      hide Kept, Locked, MayMark;
      if !e.Command? { AnswersFreely(env, heard, log, e); }
      GuardedSnoc(env, heard, log, e);
    }

    method Send(m: Mutation)
      requires Valid() && Open() && Answers(env, heard, log + [Command(m)], |log|)
      modifies this`mutations, this`log
      ensures Valid() && log == old(log) + [Command(m)] && mutations == old(mutations) + [m]
    {
      Extended(Command(m));
      mutations, log := mutations + [m], log + [Command(m)];
    }

    method Read(text: string)
      requires Valid()
      modifies this`log
      ensures Valid() && log == old(log) + [Reply(text)]
    {
      Extended(Reply(text));
      log := log + [Reply(text)];
    }

    method Note(event: Event)
      requires Valid()
      modifies this`log, this`events
      ensures Valid() && log == old(log) + [Reported(event)] && events == old(events) + [event]
    {
      Extended(Reported(event));
      log, events := log + [Reported(event)], events + [event];
    }
  }

  /** A confirmation comes at the end of the whole dialogue, each prompt read between the
      command before it and the answer to it. */
  lemma WholeDialogue(env: Environment, heard: bool, log: seq<LogEntry>, k: nat)
    requires Guarded(env, heard, log) && k < |log| && log[k] == Command(ConfirmReplacement)
    ensures k >= 4 && log[k - 3].Reply? && log[k - 1].Reply?
    ensures log[k - 4..k + 1] == [Command(InstallCommand), Reply(log[k - 3].text), Command(WritePem),
                                  Reply(log[k - 1].text), Command(ConfirmReplacement)]
    ensures Asks(env.cliError, log[k - 3].text, PASTE_PROMPT)
    ensures Asks(env.cliError, log[k - 1].text, REPLACEMENT_PROMPT)
  {
    assert Answers(env, heard, log, k);
    assert Answers(env, heard, log, k - 2);
    hide Asks;
  }

  lemma {:induction false} MarkAt(log: seq<LogEntry>, a: nat, b: nat)
    requires a < b <= |log| && log[a].Marked?
    ensures |Marks(log[..a])| < |Marks(log[..b])| && Marks(log[..b])[|Marks(log[..a])|] == log[a].mark
    decreases b
  {
    assert log[..b][..b - 1] == log[..b - 1];
    if a < b - 1 { MarkAt(log, a, b - 1); }
  }

  /** The lock of the switch is around the command: it was taken before, is released after,
      and a renewal has been put on record before. */
  ghost predicate Sheltered(log: seq<LogEntry>, k: nat) {
    && (exists i | 0 <= i < k < |log| :: log[i] == Marked(Taken))
    && (forall i | 0 <= i < |log| && log[i] == Marked(Started) :: i < k)
    && (forall i | 0 <= i < |log| && log[i] == Marked(Returned) :: k < i)
  }

  ghost predicate AllSheltered(log: seq<LogEntry>) {
    forall k | 0 <= k < |log| && log[k].Command? :: Sheltered(log, k)
  }

  lemma {:induction false} TakenAt(log: seq<LogEntry>) returns (i: nat)
    requires Taken in Marks(log)
    ensures i < |log| && log[i] == Marked(Taken)
  {
    i := |log| - 1;
    if log[i] != Marked(Taken) { i := TakenAt(log[..i]); }
  }

  /** In a log that is in order every command is sheltered. */
  lemma CommandsSheltered(log: seq<LogEntry>)
    requires InOrder(log)
    ensures AllSheltered(log)
  {
    forall k | 0 <= k < |log| && log[k].Command? ensures Sheltered(log, k) {
      assert InPlace(log, k);
      var t := TakenAt(log[..k]);
      assert log[t] == Marked(Taken);
      forall i | 0 <= i < |log| && log[i] == Marked(Started) ensures i < k {
        StartedFirst(log, i, k);
      }
      forall i | 0 <= i < |log| && log[i] == Marked(Returned) ensures k < i {
        ReturnedLast(log, k, i);
      }
    }
  }

  lemma StartedFirst(log: seq<LogEntry>, i: nat, k: nat)
    requires InOrder(log) && i < |log| && k < |log| && log[k].Command? && log[i] == Marked(Started)
    ensures i < k
  {
    assert InPlace(log, i);
    if k < i {
      assert log[..i][k] == log[k];
      CommandAt(log[..i], k);
    }
  }

  lemma ReturnedLast(log: seq<LogEntry>, k: nat, i: nat)
    requires InOrder(log) && i < |log| && k < |log| && log[k].Command? && log[i] == Marked(Returned)
    ensures k < i
  {
    assert InPlace(log, k) && InPlace(log, i);
    if i < k {
      MarkAt(log, i, k);
    }
  }

  ghost predicate EachOnce(log: seq<LogEntry>) {
    forall i, j | 0 <= i < j < |log| && log[i].Command? :: log[i] != log[j]
  }

  lemma {:induction false} CommandAt(log: seq<LogEntry>, i: nat)
    requires i < |log| && log[i].Command?
    ensures |Commands(log[..i])| < |Commands(log)| && Commands(log)[|Commands(log[..i])|] == log[i].mutation
    ensures Commands(log[..i + 1]) == Commands(log[..i]) + [log[i].mutation]
    ensures Commands(log[..i + 1]) <= Commands(log)
    decreases |log|
  {
    assert log[..i + 1][..i] == log[..i];
    if i < |log| - 1 {
      CommandAt(log[..|log| - 1], i);
      assert log[..|log| - 1][..i] == log[..i] && log[..|log| - 1][..i + 1] == log[..i + 1];
    } else {
      assert log[..i + 1] == log;
    }
  }

  /** If no command repeats, none is logged twice. */
  lemma OnceEach(log: seq<LogEntry>)
    requires forall a, b | 0 <= a < b < |Commands(log)| :: Commands(log)[a] != Commands(log)[b]
    ensures EachOnce(log)
  {
    forall i, j | 0 <= i < j < |log| && log[i].Command? ensures log[i] != log[j] {
      if log[j].Command? {
        CommandAt(log, j);
        CommandAt(log[..j], i);
        assert log[..j][..i] == log[..i];
        CommandAt(log, i);
        assert |Commands(log[..i])| < |Commands(log[..j])|;
      }
    }
  }


  const ALL_MUTATIONS: seq<Mutation> := [CreateCsr, PostSign, InstallCommand, WritePem, ConfirmReplacement]

  /** A run that has sent a prefix of the one renewal has logged no command twice. */
  lemma PrefixOnce(env: Environment, heard: bool, log: seq<LogEntry>, mutations: seq<Mutation>)
    requires Sound(env, heard, log, mutations) && mutations <= ALL_MUTATIONS
    ensures EachOnce(log)
  {
    forall a, b | 0 <= a < b < |mutations| ensures mutations[a] != mutations[b] {
      assert mutations[a] == ALL_MUTATIONS[a] && mutations[b] == ALL_MUTATIONS[b];
    }
    OnceEach(log);
  }

  // ---- What progress does to the record of a switch ----

  /** _json_progress on the milestones. */
  function Milestoned(m: Milestones, event: Event): Milestones {
    match event
    case CsrRetrievalStarted => if m.csr.NotAttempted? then m.(csr := Failed) else m
    case CsrRetrieved => m.(csr := Confirmed)
    case CsrConfirmed => m.(csr := Confirmed)
    case IssuanceDispatched => m.(issuance := Uncertain)
    case IssuanceConfirmed => m.(issuance := Confirmed)
    case InstallationConfirmed => m.(installation := Confirmed, activation := Confirmed)
    case LiveTlsConfirmed => m.(liveTls := Confirmed)
    case _ => m
  }

  function AllMilestoned(m: Milestones, events: seq<Event>): Milestones {
    if events == [] then m else Milestoned(AllMilestoned(m, events[..|events| - 1]), events[|events| - 1])
  }

  function ChangeAfter(c: Change, event: Event): Change {
    match event
    case CsrConfirmed => Changed
    case IssuanceDispatched => PossiblyChanged
    case IssuanceConfirmed => Changed
    case InstallationConfirmed => Changed
    case _ => c
  }

  /** Events that tell only where a run stands. */
  predicate OnlyStage(event: Event) {
    event.PreflightConfirmed? || event.SigningPreparation? || event.CertificateRetrieved?
    || event.IssuedValidationStarted? || event.IssuedValidated? || event.InstallationPrepared?
  }

  lemma OnlyStageMoves(event: Event)
    requires OnlyStage(event)
    ensures forall m: Milestones :: Milestoned(m, event) == m
    ensures forall c: Change :: ChangeAfter(c, event) == c
    ensures forall s: Stage :: StageAfter(s, event) ==
              if event.PreflightConfirmed? then Preflight else if event.SigningPreparation? then Signing
              else if event.InstallationPrepared? then Installation else IssuedValidation
  {
  }

  function StageAfter(s: Stage, event: Event): Stage {
    match event
    case PreflightConfirmed => Preflight
    case CsrRetrievalStarted => CsrRetrieval
    case SigningPreparation => Signing
    case CsrConfirmed => CsrGeneration
    case IssuanceDispatched => Signing
    case CertificateRetrieved => IssuedValidation
    case IssuedValidationStarted => IssuedValidation
    case IssuedValidated => IssuedValidation
    case InstallationPrepared => Installation
    case InstallationConfirmed => Activation
    case LiveTlsConfirmed => LiveVerification
    case _ => s
  }

  /** The items a progress callback writes to. */
  function Heard(item: SwitchResult?): set<SwitchResult> {
    if item == null then {} else {item}
  }

  /** The world in which somebody is told of events. */
  function Telling(w: World, item: SwitchResult?): set<World> {
    if item == null then {} else {w}
  }

  /** The milestones of the record are those of exactly the events reported. */
  ghost predicate Told(w: World, item: SwitchResult?)
    reads w`events, Heard(item)`milestones
  {
    item != null ==> item.milestones == AllMilestoned(UNTOUCHED, w.events)
  }

  /** The progress callback; no item is a run without one. */
  method Report(w: World, item: SwitchResult?, event: Event)
    requires w.Valid()
    modifies w`log, Telling(w, item)`events,
      Heard(item)`stage, Heard(item)`pendingCsrObserved, Heard(item)`milestones, Heard(item)`change
    ensures w.Valid() && w.log == old(w.log) + (if item != null then [Reported(event)] else [])
    ensures old(Told(w, item)) ==> Told(w, item)
    ensures item != null ==> w.events == old(w.events) + [event]
    ensures item != null ==>
      && item.milestones == Milestoned(old(item.milestones), event)
      && item.change == ChangeAfter(old(item.change), event)
      && item.stage == StageAfter(old(item.stage), event)
      && item.pendingCsrObserved == (old(item.pendingCsrObserved) || event.PendingCsrObserved?)
  {
    if item != null {
      item.stage := StageAfter(item.stage, event);
      if event.PendingCsrObserved? { item.pendingCsrObserved := true; }
      item.milestones := Milestoned(item.milestones, event);
      item.change := ChangeAfter(item.change, event);
      assert (w.events + [event])[..|w.events|] == w.events;
      w.Note(event);
    }
  }

  // ---- What a run of reports can do ----

  /** The last word on issuance: a dispatch makes it uncertain, a confirmation certain. */
  function LastIssuance(before: Milestone, events: seq<Event>): Milestone {
    if events == [] then before
    else
      match events[|events| - 1]
      case IssuanceDispatched => Uncertain
      case IssuanceConfirmed => Confirmed
      case _ => LastIssuance(before, events[..|events| - 1])
  }

  /** Over any run of reports: a milestone is confirmed if and only if it was before or an
      event that confirms it was reported, whatever else was reported and in whatever
      order; only a dispatch can take a confirmation back, and only that of issuance. */
  lemma {:induction false} ConfirmedByEvents(m: Milestones, events: seq<Event>)
    ensures var after := AllMilestoned(m, events);
      && (after.csr.Confirmed? <==> m.csr.Confirmed? || CsrConfirmed in events || CsrRetrieved in events)
      && (after.installation.Confirmed? <==> m.installation.Confirmed? || InstallationConfirmed in events)
      && (after.activation.Confirmed? <==> m.activation.Confirmed? || InstallationConfirmed in events)
      && (after.liveTls.Confirmed? <==> m.liveTls.Confirmed? || LiveTlsConfirmed in events)
      && after.issuance == LastIssuance(m.issuance, events)
  {
    if events != [] {
      var n := |events| - 1;
      ConfirmedByEvents(m, events[..n]);
      assert events == events[..n] + [events[n]];
    }
  }

  /** What is confirmed is what the events have confirmed. */
  ghost predicate ConfirmedBy(m: Milestones, events: seq<Event>) {
    && (m.csr.Confirmed? <==> CsrConfirmed in events || CsrRetrieved in events)
    && (m.installation.Confirmed? <==> InstallationConfirmed in events)
    && (m.activation.Confirmed? <==> InstallationConfirmed in events)
    && (m.liveTls.Confirmed? <==> LiveTlsConfirmed in events)
    && m.issuance == LastIssuance(NotAttempted, events)
  }

  predicate SameConfirmed(m: Milestones, n: Milestones) {
    && m.csr.Confirmed? == n.csr.Confirmed? && m.issuance == n.issuance
    && m.installation.Confirmed? == n.installation.Confirmed? && m.activation.Confirmed? == n.activation.Confirmed?
    && m.liveTls.Confirmed? == n.liveTls.Confirmed?
  }

  /** A handler that confirms and retracts nothing leaves a record that the events confirm. */
  lemma ToldConfirmed(events: seq<Event>, m: Milestones)
    requires SameConfirmed(AllMilestoned(UNTOUCHED, events), m)
    ensures ConfirmedBy(m, events)
  {
    ConfirmedByEvents(UNTOUCHED, events);
  }

  lemma NothingConfirmed()
    ensures ConfirmedBy(UNTOUCHED, [])
  {
    ToldConfirmed([], UNTOUCHED);
  }

  lemma NothingTold(w: World, item: SwitchResult?)
    requires w.events == [] && (item != null ==> item.milestones == UNTOUCHED)
    ensures Told(w, item)
  {
  }
}
