/** install_signed_certificate: the guarded prompts, and the check afterwards. */
module InstallDialogue {
  import opened Options
  import opened RenewalWorld
  import opened Prompts

  // ---- What each stage of the dialogue needs, in terms of the environment ----

  predicate InConfigMode(env: Environment) { env.Passes(DialogueSummary) && env.Passes(DialogueConfig) }

  predicate PasteAsked(env: Environment) {
    InConfigMode(env) && env.Passes(DialogueCommand) && Asks(env.cliError, env.pasteOutput, PASTE_PROMPT)
  }

  predicate ReplacementAsked(env: Environment) {
    PasteAsked(env) && env.Passes(DialoguePem) && Asks(env.cliError, env.replacementOutput, REPLACEMENT_PROMPT)
  }

  predicate Dialogued(env: Environment) {
    ReplacementAsked(env) && env.Passes(DialogueConfirm) && !env.cliError(env.confirmOutput)
  }

  predicate LeftConfigMode(env: Environment) {
    Dialogued(env) && (env.installPoisoned || env.Passes(DialogueExit))
  }

  predicate Installed(env: Environment) {
    LeftConfigMode(env) && env.Passes(VerifySummary) && env.Passes(VerifyDetail)
  }

  /** The install command is sent once config mode is entered, the PEM only after an
      error-free paste prompt, the confirmation only after an error-free replacement
      prompt; nothing is sent twice. */
  function Sent(env: Environment): seq<Mutation> {
    (if InConfigMode(env) then [InstallCommand] else [])
    + (if PasteAsked(env) then [WritePem] else [])
    + (if ReplacementAsked(env) then [ConfirmReplacement] else [])
  }

  lemma SentStages(env: Environment)
    ensures !InConfigMode(env) ==> Sent(env) == []
    ensures InConfigMode(env) && !PasteAsked(env) ==> Sent(env) == [InstallCommand]
    ensures PasteAsked(env) && !ReplacementAsked(env) ==> Sent(env) == [InstallCommand, WritePem]
    ensures ReplacementAsked(env) ==> Sent(env) == [InstallCommand, WritePem, ConfirmReplacement]
  {
  }

  /** The first exception of the dialogue, unless it completes. */
  function DialogueError(env: Environment): Option<Exc> {
    if !env.Passes(DialogueSummary) then env.fails(DialogueSummary)
    else if !env.Passes(DialogueConfig) then env.fails(DialogueConfig)
    else if !env.Passes(DialogueCommand) then env.fails(DialogueCommand)
    else if !PasteAsked(env) then Some(ValueFailure)
    else if !env.Passes(DialoguePem) then env.fails(DialoguePem)
    else if !ReplacementAsked(env) then Some(ValueFailure)
    else if !env.Passes(DialogueConfirm) then env.fails(DialogueConfirm)
    else if !Dialogued(env) then Some(ValueFailure)
    else None
  }

  /** The try block, up to the confirmation. */
  method Dialogue(w: World) returns (attempted: bool, completed: bool, entered: bool, failed: Option<Exc>)
    requires w.Valid() && w.Open()
    modifies w`mutations, w`log, w`config
    ensures w.Valid()
    ensures attempted == entered == InConfigMode(w.env) && completed == Dialogued(w.env)
    ensures failed == DialogueError(w.env) && (failed.None? <==> completed)
    ensures w.mutations == old(w.mutations) + Sent(w.env)
    ensures w.config == old(w.config) + if entered then [Entered(|old(w.mutations)|)] else []
    ensures completed ==> w.log != [] && w.log[|w.log| - 1] == Reply(w.env.confirmOutput)
  {
    hide Sound, Kept, AllRest, Locked, Answers, Asks, Sent;
    SentStages(w.env);
    attempted, completed, entered := false, false, false;
    var env := w.env;
    failed := env.fails(DialogueSummary);
    if failed.Some? { return; }
    failed := env.fails(DialogueConfig);
    if failed.Some? { return; }
    w.config := w.config + [Entered(|w.mutations|)];
    entered := true;
    attempted := true;
    MayAlways(env, w.heard, w.log, InstallCommand);
    w.Send(InstallCommand);
    ghost var asked := w.log;
    failed := env.fails(DialogueCommand);
    if failed.Some? { return; }
    w.Read(env.pasteOutput);
    if !Asks(env.cliError, env.pasteOutput, PASTE_PROMPT) {
      failed := Some(ValueFailure);
      return;
    }
    MayPaste(env, w.heard, asked, env.pasteOutput);
    w.Send(WritePem);
    asked := w.log;
    failed := env.fails(DialoguePem);
    if failed.Some? { return; }
    w.Read(env.replacementOutput);
    if !Asks(env.cliError, env.replacementOutput, REPLACEMENT_PROMPT) {
      failed := Some(ValueFailure);
      return;
    }
    MayConfirm(env, w.heard, asked, env.replacementOutput);
    w.Send(ConfirmReplacement);
    failed := env.fails(DialogueConfirm);
    if failed.Some? { return; }
    w.Read(env.confirmOutput);
    if env.cliError(env.confirmOutput) {
      failed := Some(ValueFailure);
      return;
    }
    completed := true;
  }

  /** Config mode is left exactly once if and only if it was entered and the
      connection is not poisoned. After the install command every exception leaves as
      an attempt error, and a failing exit never replaces an earlier exception. */
  method InstallSigned(w: World) returns (failed: Option<Error>)
    requires w.Valid() && w.Open()
    modifies w`mutations, w`log, w`config, w`seen
    ensures w.Valid()
    ensures failed.None? <==> Installed(w.env)
    ensures w.mutations == old(w.mutations) + Sent(w.env)
    ensures w.seen == old(w.seen) + if failed.None? then {InstalledVerified} else {}
    ensures w.config == old(w.config) + (if InConfigMode(w.env) then [Entered(|old(w.mutations)|)] else [])
                        + (if InConfigMode(w.env) && !w.env.installPoisoned then [Exited(|w.mutations|)] else [])
    ensures failed.Some? ==> failed.value.InstallAttempt? || failed.value.Foreign?
    ensures failed.Some? ==> (failed.value.InstallAttempt? <==> InConfigMode(w.env))
    ensures DialogueError(w.env).Some? ==>
              failed == Some(if InConfigMode(w.env) then InstallAttempt(DialogueError(w.env).value)
                             else Foreign(DialogueError(w.env).value))
  {
    hide Sound, Kept, AllRest, Locked, Asks, Sent;
    var attempted, completed, entered, exc := Dialogue(w);
    failed := match exc case None => None
                        case Some(e) => Some(if attempted then InstallAttempt(e) else Foreign(e));
    if entered && !w.env.installPoisoned {
      w.config := w.config + [Exited(|w.mutations|)];
      var exit := w.env.fails(DialogueExit);
      if exit.Some? && completed { failed := Some(InstallAttempt(exit.value)); }
    }
    if failed.Some? { return; }
    exc := w.env.fails(VerifySummary);
    if exc.None? { exc := w.env.fails(VerifyDetail); }
    if exc.Some? { return Some(InstallAttempt(exc.value)); }
    w.See(InstalledVerified);
  }

  /** What was sent is a prefix of the one dialogue. */
  lemma SentInOrder(env: Environment)
    ensures Sent(env) <= [InstallCommand, WritePem, ConfirmReplacement]
    ensures Installed(env) ==> Sent(env) == [InstallCommand, WritePem, ConfirmReplacement]
  {
  }
}
