/** The JSON run over the selected switches, and the human renewal of due ones. */
module JsonRun {
  import opened Options
  import opened RunResult
  import opened RenewalWorld
  import opened Renewal
  import opened JsonReport
  import opened JsonExplicit

  datatype LockReply = Granted | Busy | Unavailable

  /** What check_switch returns, or that it raises. */
  datatype Check = Healthy | Due | Expired | Errored | OtherStatus | Raises(exc: Exc)

  datatype SwitchScript = SwitchScript(
    credentials: bool, lock: LockReply, check: Check, env: Environment, releaseFails: bool)

  datatype Step = Acquired(index: nat) | Renewing(index: nat) | Released(index: nat)

  predicate NeedsRenewal(c: Check) { c.Due? || c.Expired? }
  predicate Locks(op: Operation) { !op.Inspect? && !op.RetrieveCsr? }

  // ---- What goes wrong, independently of either implementation ----

  predicate BodyFails(op: Operation, s: SwitchScript) {
    match op
    case Inspect => !s.check.Healthy? && !NeedsRenewal(s.check)
    case RenewDue => !s.check.Healthy? && !(NeedsRenewal(s.check) && RenewalWorks(s.env))
    case RenewNow => !RenewalWorks(s.env)
    case _ => !ExplicitWorks(s.env, op)
  }

  predicate Faulty(op: Operation, s: SwitchScript) {
    !s.credentials || (Locks(op) && (!s.lock.Granted? || s.releaseFails)) || BodyFails(op, s)
  }

  predicate Entered(op: Operation, s: SwitchScript) {
    s.credentials && (Locks(op) ==> s.lock.Granted?)
  }

  predicate BodyRenews(op: Operation, s: SwitchScript) { op.RenewNow? || (op.RenewDue? && NeedsRenewal(s.check)) }
  predicate Renews(op: Operation, s: SwitchScript) { Entered(op, s) && BodyRenews(op, s) }

  /** The lock is held around the renewal, and only due or expired switches are renewed. */
  function MarksOf(op: Operation, s: SwitchScript): seq<Mark> {
    if !Entered(op, s) || !Locks(op) then []
    else if Renews(op, s) then [Taken, Started, Returned]
    else [Taken, Returned]
  }

  /** The marks of one switch as steps of the run. */
  function StepsIn(marks: seq<Mark>, i: nat): seq<Step> {
    if marks == [] then []
    else StepsIn(marks[..|marks| - 1], i)
         + [match marks[|marks| - 1] case Taken => Acquired(i) case Started => Renewing(i)
              case Returned => Released(i)]
  }

  function StepsOf(op: Operation, s: SwitchScript, i: nat): seq<Step> { StepsIn(MarksOf(op, s), i) }

  function AllSteps(op: Operation, switches: seq<SwitchScript>): seq<Step> {
    if switches == [] then []
    else AllSteps(op, switches[..|switches| - 1]) + StepsOf(op, switches[|switches| - 1], |switches| - 1)
  }

  predicate HiddenIn(op: Operation, s: SwitchScript) { Hidden(s.env, op) }

  // ---- One switch in JSON mode ----

  /** What a switch is sent, and what a success of it amounts to. */
  function BodySent(op: Operation, s: SwitchScript): seq<Mutation> {
    if BodyRenews(op, s) then RenewalSent(s.env)
    else if Staged(op) then ExplicitSent(s.env, op)
    else []
  }

  function FullMilestones(op: Operation): Milestones {
    if op.Install? then ALL_CONFIRMED.(issuance := NotAttempted) else ALL_CONFIRMED
  }

  function FullSent(op: Operation): seq<Mutation> {
    if op.Install? then [InstallCommand, WritePem, ConfirmReplacement] else ALL_MUTATIONS
  }

  /** The milestones are true of the world: confirmed ones rest on evidence, issuance is
      untouched exactly without a POST, and success_changed means all of them. */
  predicate MilestonesTrue(op: Operation, v: Verdict, sent: seq<Mutation>, seen: set<Evidence>) {
    && Backed(v.milestones, seen)
    && (v.milestones.issuance.NotAttempted? <==> PostSign !in sent)
    && (v.outcome.SuccessChanged? ==> v.milestones == FullMilestones(op) && sent == FullSent(op))
  }

  /** What the body of a switch leaves is true of the world, whether it returned or its
      exception went through the run loop's own handler. */
  predicate Reported(op: Operation, s: SwitchScript, v: Verdict, sent: seq<Mutation>, seen: set<Evidence>) {
    && sent == BodySent(op, s) && MilestonesTrue(op, v, sent, seen)
    && (IsFailure(v.outcome) <==> BodyFails(op, s))
    && (v.outcome.FailurePreAttempt? <==> BodyFails(op, s) && (sent == [] || HiddenIn(op, s)))
    && (v.change.Unchanged? <==> sent == [] || HiddenIn(op, s))
    && (IsFailure(v.outcome) && sent != [] ==> v.manual)
    && (!IsFailure(v.outcome) ==> (FailureOutcome(v.change, v.milestones).FailurePreAttempt? <==> sent == []))
    && (v.outcome.AttentionDue? <==> op.Inspect? && NeedsRenewal(s.check))
  }

  /** An operation takes the lock if and only if there is a switch to which it would send
      something. */
  lemma LocksExactly(op: Operation)
    ensures Locks(op) <==> exists s :: BodySent(op, s) != []
  {
    var s := SwitchScript(true, Granted, Due, UNTROUBLED, false);
    NothingFails();
    if Locks(op) {
      RenewalSendsPrefix(s.env);
      if Staged(op) { UntroubledSends(op); }
      assert BodySent(op, s) != [];
    }
  }

  lemma UntroubledSends(op: Operation)
    requires Staged(op) && !op.RetrieveCsr?
    ensures ExplicitSent(UNTROUBLED, op) != []
  {
    NothingFails();
  }

  lemma RenewalIsReported(op: Operation, s: SwitchScript, v: Verdict, sent: seq<Mutation>, seen: set<Evidence>)
    requires BodyRenews(op, s)
    requires RenewalReported(s.env, v, sent, seen) && (v.outcome.SuccessChanged? <==> RenewalWorks(s.env))
    requires sent == RenewalSent(s.env)
    ensures Reported(op, s, v, sent, seen)
  {
    hide RenewalSent, RenewalWorks, Backed, RenewalUnresolved, RenewalHidden;
  }

  lemma ExplicitIsReported(op: Operation, s: SwitchScript, v: Verdict, sent: seq<Mutation>, seen: set<Evidence>)
    requires Staged(op) && ExplicitReported(s.env, op, v, sent) && sent == ExplicitSent(s.env, op)
    requires Backed(v.milestones, seen)
    ensures Reported(op, s, v, sent, seen)
  {
    hide ExplicitWorks, ExplicitSent, ExplicitUnresolved, Backed;
    assert !v.outcome.AttentionDue?;
  }

  lemma ClassifiedBacked(e: Error, change: Change, m: Milestones, observed: bool, seen: set<Evidence>)
    requires Backed(m, seen)
    ensures Backed(Classified(e, change, m, observed).milestones, seen)
  {
  }

  /** A world before the body of a switch: the lock is held, if the operation takes one, and
      nothing has been sent, read or reported. */
  ghost predicate Entering(w: World, op: Operation, s: SwitchScript)
    reads w
  {
    && w.Valid() && w.env == s.env && w.heard && w.mutations == [] && w.seen == {} && w.events == []
    && w.marks == if Locks(op) then [Taken] else []
  }

  /** Whether a renewal is due, as far as the operation asks and the check tells. */
  function DueSeen(op: Operation, c: Check): Option<bool> {
    if !op.Inspect? && !op.RenewDue? then None
    else match c
         case Healthy => Some(false)
         case Due => Some(true)
         case Expired => Some(true)
         case _ => None
  }

  /** _json_process_target: an error it lets through is for the run loop. A renewal is on
      record before it starts. */
  method ProcessTarget(item: SwitchResult, w: World, op: Operation, s: SwitchScript)
      returns (raised: Option<Error>)
    requires Entering(w, op, s) && item.Fresh()
    modifies w, item
    ensures w.Valid() && EachOnce(w.log) && ConfirmedBy(item.milestones, w.events)
    ensures w.marks == old(w.marks) + if BodyRenews(op, s) then [Started] else []
    ensures raised.Some? ==> raised.value.Foreign?
    ensures item.renewalDue == DueSeen(op, s.check)
    ensures (op.Inspect? || op.RenewDue?) && !BodyRenews(op, s) && raised.None? ==>
      item.reason == if s.check.Errored? || s.check.OtherStatus? then Some(InspectionFailed) else None
    ensures (op.Inspect? || op.RenewDue?) && !BodyRenews(op, s) ==>
      item.stage == if s.check.Healthy? then Completed else if NeedsRenewal(s.check) then Decision else Inspection
    ensures raised.None? ==>
      Reported(op, s, VerdictOf(item), w.mutations, w.seen) && (item.reason.Some? <==> BodyFails(op, s))
    ensures raised.Some? ==>
      && Reported(op, s, Classified(raised.value, item.change, item.milestones, item.pendingCsrObserved),
                  w.mutations, w.seen)
      && BodyFails(op, s)
  {
    raised := None;
    hide Sound, Kept, AllRest, EachOnce, ConfirmedBy, Reported;
    NothingConfirmed();
    if op.Inspect? || op.RenewDue? {
      item.stage := Inspection;
      if s.check.Raises? {
        raised := Some(Foreign(s.check.exc));
      } else if s.check.Errored? || s.check.OtherStatus? {
        item.reason := Some(InspectionFailed);
      } else if s.check.Healthy? {
        item.renewalDue, item.outcome, item.stage := Some(false), SuccessNoChange, Completed;
      } else if op.Inspect? {
        item.renewalDue, item.outcome, item.stage := Some(true), AttentionDue, Decision;
      } else {
        item.renewalDue := Some(true);
        Renew(item, w, op, s);
        return;
      }
      SentNothing(w.env, w.heard, w.log);
      InspectionReported(op, s,
        if raised.None? then VerdictOf(item)
        else Classified(raised.value, item.change, item.milestones, item.pendingCsrObserved), w.seen);
    } else if op.RenewNow? {
      Renew(item, w, op, s);
    } else {
      raised := ProcessStaged(item, w, op, s);
    }
  }

  /** An inspection that finds nothing to renew, or cannot tell, leaves a record of that; an
      exception of it is for the run loop. */
  lemma InspectionReported(op: Operation, s: SwitchScript, v: Verdict, seen: set<Evidence>)
    requires (op.Inspect? || op.RenewDue?) && !BodyRenews(op, s)
    requires v.milestones == UNTOUCHED && v.change.Unchanged?
    requires v.outcome == if s.check.Healthy? then SuccessNoChange
                          else if NeedsRenewal(s.check) then AttentionDue else FailurePreAttempt
    ensures Reported(op, s, v, [], seen)
  {
  }

  method ProcessStaged(item: SwitchResult, w: World, op: Operation, s: SwitchScript) returns (raised: Option<Error>)
    requires Staged(op) && Entering(w, op, s) && item.Fresh()
    modifies w, item
    ensures w.Valid() && EachOnce(w.log) && ConfirmedBy(item.milestones, w.events) && w.marks == old(w.marks)
    ensures item.renewalDue == old(item.renewalDue)
    ensures raised.Some? ==> raised.value.Foreign? && BodyFails(op, s)
    ensures raised.None? ==>
      Reported(op, s, VerdictOf(item), w.mutations, w.seen) && (item.reason.Some? <==> BodyFails(op, s))
    ensures raised.Some? ==>
      Reported(op, s, Classified(raised.value, item.change, item.milestones, item.pendingCsrObserved),
               w.mutations, w.seen)
  {
    hide Sound, Kept, AllRest, EachOnce, ConfirmedBy, Reported, ExplicitReported, ExplicitWorks, ExplicitSent;
    raised := Operate(item, w, op);
    if raised.None? {
      ExplicitIsReported(op, s, VerdictOf(item), w.mutations, w.seen);
    } else {
      ClassifiedBacked(raised.value, item.change, item.milestones, item.pendingCsrObserved, w.seen);
      ExplicitIsReported(op, s, Classified(raised.value, item.change, item.milestones, item.pendingCsrObserved),
                         w.mutations, w.seen);
    }
  }

  lemma SentNothing(env: Environment, heard: bool, log: seq<LogEntry>)
    requires Sound(env, heard, log, [])
    ensures EachOnce(log)
  {
    PrefixOnce(env, heard, log, []);
  }

  /** A renewal is on record before it starts. */
  method Renew(item: SwitchResult, w: World, op: Operation, s: SwitchScript)
    requires BodyRenews(op, s) && Entering(w, op, s)
    requires item.milestones == UNTOUCHED && item.change.Unchanged? && !item.pendingCsrObserved
    requires !item.manualRecovery && item.reason.None?
    modifies w, item
    ensures w.Valid() && EachOnce(w.log) && ConfirmedBy(item.milestones, w.events)
    ensures w.marks == [Taken, Started] && item.renewalDue == old(item.renewalDue)
    ensures Reported(op, s, VerdictOf(item), w.mutations, w.seen) && (item.reason.Some? <==> BodyFails(op, s))
  {
    hide Sound, Kept, AllRest, EachOnce, RenewalReported, Reported, ConfirmedBy;
    w.Mark(Started);
    JsonRenew(item, w);
    RenewalIsReported(op, s, VerdictOf(item), w.mutations, w.seen);
  }

  /** The whole record of one switch is true of the world. */
  predicate SwitchReported(op: Operation, s: SwitchScript, v: Verdict, sent: seq<Mutation>, seen: set<Evidence>) {
    && sent == (if Entered(op, s) then BodySent(op, s) else []) && MilestonesTrue(op, v, sent, seen)
    && (IsFailure(v.outcome) <==> Faulty(op, s))
    && (v.outcome.FailurePreAttempt? <==> Faulty(op, s) && (sent == [] || HiddenIn(op, s)))
    && (IsFailure(v.outcome) && sent != [] ==> v.manual)
    && (v.outcome.AttentionDue? <==> op.Inspect? && s.credentials && NeedsRenewal(s.check))
  }

  /** LifecycleLockReleaseError: the body had returned. */
  method ReleaseFailed(item: SwitchResult)
    modifies item`outcome, item`stage, item`manualRecovery, item`reason
    ensures item.manualRecovery
    ensures if IsFailure(old(item.outcome)) && old(item.reason).Some? then
              item.outcome == old(item.outcome) && item.reason == old(item.reason) && item.stage == old(item.stage)
            else
              && item.outcome == FailureOutcome(item.change, item.milestones)
              && item.reason == Some(LockFailed) && item.stage == Lock
  {
    if !(IsFailure(item.outcome) && item.reason.Some?) {
      item.stage := Lock;
      item.reason := Some(LockFailed);
      item.outcome := FailureOutcome(item.change, item.milestones);
    }
    item.manualRecovery := true;
  }

  /** The body, then the handlers around it, once nothing stands in its way. */
  method RunBody(item: SwitchResult, w: World, op: Operation, s: SwitchScript)
    requires Entered(op, s) && Entering(w, op, s) && item.Fresh()
    modifies w, item
    ensures w.Valid() && EachOnce(w.log) && ConfirmedBy(item.milestones, w.events)
    ensures w.marks == old(w.marks) + if Renews(op, s) then [Started] else []
    ensures item.renewalDue == DueSeen(op, s.check)
    ensures SwitchReported(op, s, VerdictOf(item), w.mutations, w.seen)
  {
    hide Sound, Kept, AllRest, EachOnce, Reported, SwitchReported, BodyFails, ConfirmedBy;
    var raised := ProcessTarget(item, w, op, s);
    ghost var v := if raised.None? then VerdictOf(item)
                   else Classified(raised.value, item.change, item.milestones, item.pendingCsrObserved);
    BodyReported(op, s, v, w.mutations, w.seen);
    if raised.Some? {
      JsonFailure(item, raised.value);
    } else if Locks(op) && s.releaseFails {
      ReleaseFailed(item);
    }
  }

  lemma BodyReported(op: Operation, s: SwitchScript, v: Verdict, sent: seq<Mutation>, seen: set<Evidence>)
    requires Entered(op, s) && Reported(op, s, v, sent, seen)
    ensures IsFailure(v.outcome) <==> BodyFails(op, s)
    ensures BodyFails(op, s) || !Locks(op) || !s.releaseFails ==> SwitchReported(op, s, v, sent, seen)
    ensures BodyFails(op, s) ==> SwitchReported(op, s, v.(manual := true), sent, seen)
    ensures !BodyFails(op, s) && Locks(op) && s.releaseFails ==>
              SwitchReported(op, s, v.(outcome := FailureOutcome(v.change, v.milestones), manual := true), sent, seen)
  {
    HiddenFails(op, s);
    hide Backed, BodySent, BodyFails, Hidden;
  }

  lemma HiddenFails(op: Operation, s: SwitchScript)
    ensures HiddenIn(op, s) ==> BodyFails(op, s)
  {
  }

  lemma OnceMarked(log: seq<LogEntry>, mark: Mark)
    requires EachOnce(log)
    ensures EachOnce(log + [Marked(mark)])
  {
  }

  /** A switch that is refused before its body. */
  lemma RefusedReported(op: Operation, s: SwitchScript, v: Verdict, seen: set<Evidence>)
    requires !Entered(op, s) && v.milestones == UNTOUCHED && v.outcome.FailurePreAttempt?
    ensures SwitchReported(op, s, v, [], seen)
  {
  }

  /** One iteration of the run loop: the record is true, no command is sent twice, every
      command falls between taking and releasing the lock, that of a renewal after it was
      put on record, and what is confirmed was reported as it happened. */
  method RunSwitch(op: Operation, s: SwitchScript) returns (item: SwitchResult, w: World)
    ensures fresh(item) && fresh(w) && w.Valid() && EachOnce(w.log) && AllSheltered(w.log)
    ensures SwitchReported(op, s, VerdictOf(item), w.mutations, w.seen) && ConfirmedBy(item.milestones, w.events)
    ensures w.marks == MarksOf(op, s) && item.renewalDue == if Entered(op, s) then DueSeen(op, s.check) else None
    ensures !Entered(op, s) ==>
      && item.reason == Some(if !s.credentials then ConfigInvalid else if s.lock.Busy? then LockBusy else LockFailed)
      && item.stage == if s.credentials then Lock else Configuration
  {
    hide Sound, Kept, AllRest, EachOnce, AllSheltered, ConfirmedBy, SwitchReported, AllMilestoned;
    item := new SwitchResult();
    w := new World(s.env, true);
    SentNothing(s.env, true, []);
    NothingConfirmed();
    Sheltering(w);
    if !Entered(op, s) { RefusedReported(op, s, VerdictOf(item), w.seen); }
    if !s.credentials {
      item.stage, item.reason := Configuration, Some(ConfigInvalid);
      return;
    }
    if Locks(op) && !s.lock.Granted? {
      item.stage, item.reason := Lock, Some(if s.lock.Busy? then LockBusy else LockFailed);
      return;
    }
    if Locks(op) { w.Mark(Taken); }
    RunBody(item, w, op, s);
    if Locks(op) {
      OnceMarked(w.log, Returned);
      w.Mark(Returned);
    }
    Sheltering(w);
  }

  lemma Sheltering(w: World)
    requires w.Valid()
    ensures AllSheltered(w.log)
  {
    CommandsSheltered(w.log);
  }

  // ---- The run ----

  /** Which switches fail, in order. */
  function Faults(op: Operation, switches: seq<SwitchScript>): (faults: seq<bool>)
    ensures |faults| == |switches|
  {
    if switches == [] then []
    else Faults(op, switches[..|switches| - 1]) + [Faulty(op, switches[|switches| - 1])]
  }

  lemma {:induction false} FaultsAt(op: Operation, switches: seq<SwitchScript>, k: nat)
    requires k < |switches|
    ensures Faults(op, switches)[k] == Faulty(op, switches[k])
  {
    var n := |switches| - 1;
    hide Faulty;
    if k < n {
      FaultsAt(op, switches[..n], k);
    }
  }

  /** Every record of a run is true of its switch; sent and seen are what was sent to each
      and read back from it. */
  ghost predicate RunReported(op: Operation, switches: seq<SwitchScript>, verdicts: seq<Verdict>,
                              sent: seq<seq<Mutation>>, seen: seq<set<Evidence>>) {
    && |verdicts| == |sent| == |seen| == |switches|
    && forall k | 0 <= k < |switches| :: SwitchReported(op, switches[k], verdicts[k], sent[k], seen[k])
  }

  function Verdicts(items: seq<SwitchResult>): (verdicts: seq<Verdict>)
    reads items
    ensures |verdicts| == |items| && forall k | 0 <= k < |items| :: verdicts[k] == VerdictOf(items[k])
  {
    seq(|items|, k requires 0 <= k < |items| reads items => VerdictOf(items[k]))
  }

  lemma RunReportedSnoc(op: Operation, switches: seq<SwitchScript>, verdicts: seq<Verdict>, sent: seq<seq<Mutation>>,
                        seen: seq<set<Evidence>>, s: SwitchScript, v: Verdict, m: seq<Mutation>, e: set<Evidence>)
    requires RunReported(op, switches, verdicts, sent, seen) && SwitchReported(op, s, v, m, e)
    ensures RunReported(op, switches + [s], verdicts + [v], sent + [m], seen + [e])
  {
    hide SwitchReported;
    forall k | 0 <= k <= |switches|
      ensures SwitchReported(op, (switches + [s])[k], (verdicts + [v])[k], (sent + [m])[k], (seen + [e])[k])
    {
      if k < |switches| {
        assert SwitchReported(op, switches[k], verdicts[k], sent[k], seen[k]);
      }
    }
  }

  /** The loop over the switches, and the exit code. */
  method RunSwitches(run: Run, switches: seq<SwitchScript>)
      returns (code: int, steps: seq<Step>, sent: seq<seq<Mutation>>, seen: seq<set<Evidence>>)
    requires run.results == []
    modifies run`results
    ensures |run.results| == |switches|
    ensures RunReported(run.operation, switches, Verdicts(run.results), sent, seen)
    ensures steps == AllSteps(run.operation, switches)
    ensures code == ExitCode(run.operation, Outcomes(run.results))
  {
    hide SwitchReported, RunReported, MarksOf, StepsIn, Sound, Kept, EachOnce, AllSheltered, ConfirmedBy;
    var items: seq<SwitchResult> := [];
    steps, sent, seen := [], [], [];
    NoneReported(run.operation);
    for i := 0 to |switches|
      invariant |items| == i && fresh(set item | item in items)
      invariant RunReported(run.operation, switches[..i], Verdicts(items), sent, seen)
      invariant steps == AllSteps(run.operation, switches[..i])
    {
      var item, w := RunSwitch(run.operation, switches[i]);
      RunReportedSnoc(run.operation, switches[..i], Verdicts(items), sent, seen, switches[i], VerdictOf(item),
                      w.mutations, w.seen);
      assert switches[..i + 1] == switches[..i] + [switches[i]] && switches[..i + 1][..i] == switches[..i];
      assert Verdicts(items + [item]) == Verdicts(items) + [VerdictOf(item)];
      items, sent, seen := items + [item], sent + [w.mutations], seen + [w.seen];
      steps := steps + StepsIn(w.marks, i);
    }
    assert switches[..|switches|] == switches;
    run.results := items;
    code := ExitCode(run.operation, Outcomes(run.results));
  }

  lemma NoneReported(op: Operation)
    ensures RunReported(op, [], [], [], [])
  {
  }

  /** A lock that could not be released after commands were sent, in a run whose records
      are true. */
  predicate Unreleased(op: Operation, s: SwitchScript) {
    Entered(op, s) && Locks(op) && s.releaseFails && BodySent(op, s) != [] && !HiddenIn(op, s)
  }

  predicate OutcomesOf(verdicts: seq<Verdict>, outcomes: seq<Outcome>) {
    |verdicts| == |outcomes| && forall k | 0 <= k < |outcomes| :: outcomes[k] == verdicts[k].outcome
  }

  lemma UnreleasedFails(op: Operation, s: SwitchScript, v: Verdict, sent: seq<Mutation>, seen: set<Evidence>)
    requires SwitchReported(op, s, v, sent, seen) && Unreleased(op, s)
    ensures v.manual && (v.outcome.FailurePartial? || v.outcome.FailureAmbiguous?)
  {
    hide BodySent, BodyFails, Hidden, MilestonesTrue;
  }

  /** What true records mean for the exit code, the faults and an unreleased lock. */
  lemma ReleaseFailureSurfaces(op: Operation, switches: seq<SwitchScript>, verdicts: seq<Verdict>,
                               sent: seq<seq<Mutation>>, seen: seq<set<Evidence>>, outcomes: seq<Outcome>)
    requires RunReported(op, switches, verdicts, sent, seen) && OutcomesOf(verdicts, outcomes)
    requires exists k | 0 <= k < |switches| :: Unreleased(op, switches[k])
    ensures Aggregated(outcomes).FailurePartial? || Aggregated(outcomes).FailureAmbiguous?
    ensures exists k | 0 <= k < |verdicts| :: verdicts[k].manual
  {
    hide SwitchReported, Unreleased;
    var k :| 0 <= k < |switches| && Unreleased(op, switches[k]);
    UnreleasedFails(op, switches[k], verdicts[k], sent[k], seen[k]);
    assert outcomes[k] in outcomes;
    AggregatedIsWorst(outcomes);
  }

  lemma FaultsReported(op: Operation, switches: seq<SwitchScript>, verdicts: seq<Verdict>,
                       sent: seq<seq<Mutation>>, seen: seq<set<Evidence>>, outcomes: seq<Outcome>)
    requires RunReported(op, switches, verdicts, sent, seen) && OutcomesOf(verdicts, outcomes)
    ensures forall k | 0 <= k < |outcomes| :: IsFailure(outcomes[k]) == Faults(op, switches)[k]
    ensures !op.Inspect? ==> AttentionDue !in outcomes
  {
    forall k | 0 <= k < |outcomes|
      ensures IsFailure(outcomes[k]) == Faults(op, switches)[k] && (!op.Inspect? ==> outcomes[k] != AttentionDue)
    {
      FaultsAt(op, switches, k);
      FaultOf(op, switches[k], verdicts[k], sent[k], seen[k]);
    }
  }

  lemma FaultOf(op: Operation, s: SwitchScript, v: Verdict, sent: seq<Mutation>, seen: set<Evidence>)
    requires SwitchReported(op, s, v, sent, seen)
    ensures IsFailure(v.outcome) <==> Faulty(op, s)
    ensures v.outcome.AttentionDue? ==> op.Inspect?
  {
    hide Faulty, BodySent, MilestonesTrue;
  }

  lemma ExitCodeTells(operation: Operation, outcomes: seq<Outcome>, faults: seq<bool>)
    requires outcomes != [] && |faults| == |outcomes|
    requires forall k | 0 <= k < |outcomes| :: IsFailure(outcomes[k]) == faults[k]
    requires !operation.Inspect? ==> AttentionDue !in outcomes
    ensures Agrees(operation, ExitCode(operation, outcomes), Aggregated(outcomes))
    ensures ExitCode(operation, outcomes) == EXIT_ERROR <==> true in faults
    ensures !operation.Inspect? ==> ExitCode(operation, outcomes) != EXIT_WARNING
  {
    ExitCodeAgreesExactly(operation, outcomes);
    AggregatedIsWorst(outcomes);
    if true in faults {
      var k :| 0 <= k < |faults| && faults[k];
      assert outcomes[k] in outcomes;
    }
    if o :| o in outcomes && IsFailure(o) {
      var k :| 0 <= k < |outcomes| && outcomes[k] == o;
      assert faults[k];
    }
  }

  lemma RefusedAgrees(operation: Operation)
    ensures Agrees(operation, EXIT_ERROR, FailurePreAttempt)
  {
  }

  /** The configuration names at least one switch, or is refused. */
  predicate Configured(startup: Option<Exc>, switches: seq<SwitchScript>) { startup.None? && switches != [] }

  /** The loop, and what its records say about the run as a whole. */
  method RunConfigured(run: Run, switches: seq<SwitchScript>)
      returns (code: int, steps: seq<Step>, sent: seq<seq<Mutation>>, seen: seq<set<Evidence>>)
    requires run.results == [] && switches != []
    modifies run`results
    ensures |run.results| == |switches| && steps == AllSteps(run.operation, switches)
    ensures RunReported(run.operation, switches, Verdicts(run.results), sent, seen)
    ensures Agrees(run.operation, code, Aggregated(Outcomes(run.results)))
    ensures code == EXIT_ERROR <==> true in Faults(run.operation, switches)
    ensures !run.operation.Inspect? ==> code != EXIT_WARNING
    ensures (exists k | 0 <= k < |switches| :: Unreleased(run.operation, switches[k])) ==>
      && (exists item | item in run.results :: item.manualRecovery)
      && var outcome := Aggregated(Outcomes(run.results)); outcome.FailurePartial? || outcome.FailureAmbiguous?
  {
    hide Faults, AllSteps, ExitCode, Aggregated, IsFailure, Agrees, RunReported, Unreleased;
    code, steps, sent, seen := RunSwitches(run, switches);
    RunTells(run.operation, switches, Verdicts(run.results), sent, seen, Outcomes(run.results));
    ManualOf(run.results);
  }

  /** A JSON run, whether startup succeeds or raises: one true record per switch in order,
      an exit code that always agrees with the aggregate, and a lock left unreleased after
      a command in the aggregate itself. */
  method JsonMain(operation: Operation, startup: Option<Exc>, switches: seq<SwitchScript>)
      returns (run: Run, code: int, steps: seq<Step>, sent: seq<seq<Mutation>>, seen: seq<set<Evidence>>)
    ensures Agrees(operation, code, run.outcome) && (!operation.Inspect? ==> code != EXIT_WARNING)
    ensures code == EXIT_ERROR <==> !Configured(startup, switches) || true in Faults(operation, switches)
    ensures !Configured(startup, switches) ==>
      && run.results == [] && steps == [] && sent == []
      && run.outcome.FailurePreAttempt? && run.stage.Configuration?
      && run.reason == Some(if startup.None? || startup.value.ValueFailure? then ConfigInvalid else UnexpectedFailure)
    ensures Configured(startup, switches) ==>
      && RunReported(operation, switches, Verdicts(run.results), sent, seen)
      && |run.results| == |switches| && steps == AllSteps(operation, switches)
      && (run.manualRecovery <==> exists item | item in run.results :: item.manualRecovery)
    ensures Configured(startup, switches) && (exists k | 0 <= k < |switches| :: Unreleased(operation, switches[k])) ==>
      run.manualRecovery && (run.outcome.FailurePartial? || run.outcome.FailureAmbiguous?)
  {
    hide Faults, AllSteps, ExitCode, Aggregated, IsFailure, Agrees, Severity, Chosen, RunReported, Unreleased,
      Outcomes, Verdicts;
    run := new Run(operation);
    steps, sent, seen := [], [], [];
    if !Configured(startup, switches) {
      run.stage, run.outcome := Configuration, FailurePreAttempt;
      run.reason := Some(if startup.Some? && !startup.value.ValueFailure? then UnexpectedFailure else ConfigInvalid);
      code := EXIT_ERROR;
      RefusedAgrees(operation);
    } else {
      code, steps, sent, seen := RunConfigured(run, switches);
    }
    run.Finish();
  }

  lemma ManualOf(items: seq<SwitchResult>)
    ensures (exists k | 0 <= k < |items| :: Verdicts(items)[k].manual) <==>
              exists item | item in items :: item.manualRecovery
  {
    if k :| 0 <= k < |items| && Verdicts(items)[k].manual {
      assert items[k] in items;
    }
    if item :| item in items && item.manualRecovery {
      var k :| 0 <= k < |items| && items[k] == item;
      assert Verdicts(items)[k].manual;
    }
  }

  lemma RunTells(op: Operation, switches: seq<SwitchScript>, verdicts: seq<Verdict>,
                 sent: seq<seq<Mutation>>, seen: seq<set<Evidence>>, outcomes: seq<Outcome>)
    requires switches != [] && RunReported(op, switches, verdicts, sent, seen) && OutcomesOf(verdicts, outcomes)
    ensures Agrees(op, ExitCode(op, outcomes), Aggregated(outcomes))
    ensures ExitCode(op, outcomes) == EXIT_ERROR <==> true in Faults(op, switches)
    ensures !op.Inspect? ==> ExitCode(op, outcomes) != EXIT_WARNING
    ensures (exists k | 0 <= k < |switches| :: Unreleased(op, switches[k])) ==>
      && (Aggregated(outcomes).FailurePartial? || Aggregated(outcomes).FailureAmbiguous?)
      && exists k | 0 <= k < |verdicts| :: verdicts[k].manual
  {
    FaultsReported(op, switches, verdicts, sent, seen, outcomes);
    ExitCodeTells(op, outcomes, Faults(op, switches));
    hide SwitchReported, Unreleased, Aggregated, ExitCode, Agrees, Faults;
    if exists k | 0 <= k < |switches| :: Unreleased(op, switches[k]) {
      ReleaseFailureSurfaces(op, switches, verdicts, sent, seen, outcomes);
    }
  }

  // ---- The human implementation of --renew-due ----

  datatype Human = Fine | Renewed | Error

  method HumanSwitch(s: SwitchScript) returns (result: Human, w: World)
    ensures result.Error? <==> Faulty(RenewDue, s)
    ensures result.Renewed? <==> !Faulty(RenewDue, s) && Renews(RenewDue, s)
    ensures fresh(w) && w.Valid() && AllSheltered(w.log) && w.marks == MarksOf(RenewDue, s)
    ensures w.mutations == if Renews(RenewDue, s) then RenewalSent(s.env) else []
  {
    hide Sound, Kept, AllRest, AllSheltered, RenewalSent, RenewalWorks;
    w := new World(s.env, false);
    Sheltering(w);
    if !s.credentials { return Human.Error, w; }
    if !s.lock.Granted? { return Human.Error, w; }
    w.Mark(Taken);
    if s.check.Raises? {
      result := Human.Error;
    } else if s.check.Healthy? {
      result := Fine;
    } else if !NeedsRenewal(s.check) {
      result := Human.Error;
    } else {
      w.Mark(Started);
      var failed := RenewCertificate(w, null);
      result := if failed.Some? then Human.Error else Renewed;
    }
    w.Mark(Returned);
    Sheltering(w);
    if s.releaseFails { result := Human.Error; }
  }

  /** renew_due_certificates */
  method RenewDueCertificates(switches: seq<SwitchScript>) returns (results: seq<Human>, code: int, steps: seq<Step>)
    ensures |results| == |switches|
    ensures forall k | 0 <= k < |switches| :: results[k].Error? == Faults(RenewDue, switches)[k]
    ensures steps == AllSteps(RenewDue, switches)
    ensures code == if Human.Error in results then EXIT_ERROR else EXIT_OK
  {
    hide Faulty, MarksOf, StepsIn, Sound, Kept, AllSheltered, RenewalSent;
    results, steps := [], [];
    ghost var faults: seq<bool> := [];
    for i := 0 to |switches|
      invariant |results| == i
      invariant faults == Faults(RenewDue, switches[..i])
      invariant forall k | 0 <= k < i :: results[k].Error? == faults[k]
      invariant steps == AllSteps(RenewDue, switches[..i])
    {
      var result, w := HumanSwitch(switches[i]);
      assert switches[..i + 1][..i] == switches[..i];
      results := results + [result];
      steps := steps + StepsIn(w.marks, i);
      faults := faults + [Faulty(RenewDue, switches[i])];
    }
    assert switches[..|switches|] == switches;
    code := if Human.Error in results then EXIT_ERROR else EXIT_OK;
  }

  lemma ErrorsAreFaults(results: seq<Human>, faults: seq<bool>)
    requires |results| == |faults| && forall k | 0 <= k < |results| :: results[k].Error? == faults[k]
    ensures Human.Error in results <==> true in faults
  {
    if Human.Error in results {
      var k :| 0 <= k < |results| && results[k].Error?;
      assert faults[k];
    }
    if true in faults {
      var k :| 0 <= k < |faults| && faults[k];
      assert results[k] in results;
    }
  }

  /** The two implementations of --renew-due agree on every script: which switches fail,
      what is locked and renewed in which order, and the exit code. */
  method BothModes(switches: seq<SwitchScript>)
      returns (results: seq<Human>, run: Run, humanCode: int, jsonCode: int,
               humanSteps: seq<Step>, jsonSteps: seq<Step>)
    requires switches != []
    ensures |results| == |run.results| == |switches|
    ensures forall k | 0 <= k < |switches| :: results[k].Error? <==> IsFailure(run.results[k].outcome)
    ensures humanCode == jsonCode && humanSteps == jsonSteps
  {
    hide RunReported, AllSteps, Unreleased;
    var sent, seen;
    results, humanCode, humanSteps := RenewDueCertificates(switches);
    run, jsonCode, jsonSteps, sent, seen := JsonMain(RenewDue, None, switches);
    FaultsReported(RenewDue, switches, Verdicts(run.results), sent, seen, Outcomes(run.results));
    ErrorsAreFaults(results, Faults(RenewDue, switches));
    assert forall k | 0 <= k < |switches| :: run.results[k].outcome == Outcomes(run.results)[k];
    assert Agrees(RenewDue, jsonCode, run.outcome);
  }

  // ---- What is renewed, and when ----

  /** Every renewal of i stands between taking and releasing the lock of i. */
  ghost predicate Enclosed(steps: seq<Step>, i: nat) {
    forall k | 0 <= k < |steps| && steps[k] == Renewing(i) ::
      0 < k < |steps| - 1 && steps[k - 1] == Acquired(i) && steps[k + 1] == Released(i)
  }

  lemma EnclosedAppend(before: seq<Step>, last: seq<Step>, i: nat)
    requires Enclosed(before, i) && Enclosed(last, i)
    ensures Enclosed(before + last, i)
  {
    forall k | 0 <= k < |before + last| && (before + last)[k] == Renewing(i)
      ensures 0 < k < |before + last| - 1 && (before + last)[k - 1] == Acquired(i)
              && (before + last)[k + 1] == Released(i)
    {
      if k >= |before| { assert last[k - |before|] == Renewing(i); }
    }
  }

  lemma StepsSpelled(i: nat)
    ensures StepsIn([Taken, Returned], i) == [Acquired(i), Released(i)]
    ensures StepsIn([Taken, Started, Returned], i) == [Acquired(i), Renewing(i), Released(i)]
  {
    assert StepsIn([Taken], i) == [Acquired(i)] by { assert [Taken][..0] == []; }
    assert [Taken, Returned][..1] == [Taken] && [Taken, Started][..1] == [Taken];
    assert [Taken, Started, Returned][..2] == [Taken, Started];
    assert StepsIn([Taken, Started], i) == [Acquired(i), Renewing(i)];
  }

  lemma StepsShape(s: SwitchScript, n: nat, i: nat)
    ensures Enclosed(StepsOf(RenewDue, s, n), i)
    ensures Renewing(i) in StepsOf(RenewDue, s, n) <==>
              i == n && s.credentials && s.lock.Granted? && NeedsRenewal(s.check)
  {
    var steps := StepsOf(RenewDue, s, n);
    StepsSpelled(n);
    assert steps == if !Entered(RenewDue, s) then []
                    else if NeedsRenewal(s.check) then [Acquired(n), Renewing(n), Released(n)]
                    else [Acquired(n), Released(n)];
  }

  /** Renewal happens for exactly the due or expired switches, within their own lock. */
  lemma {:induction false} RenewedExactlyDue(switches: seq<SwitchScript>, i: nat)
    ensures Renewing(i) in AllSteps(RenewDue, switches) <==>
              i < |switches| && switches[i].credentials && switches[i].lock.Granted? && NeedsRenewal(switches[i].check)
    ensures Enclosed(AllSteps(RenewDue, switches), i)
  {
    if switches != [] {
      var n := |switches| - 1;
      RenewedExactlyDue(switches[..n], i);
      StepsShape(switches[n], n, i);
      EnclosedAppend(AllSteps(RenewDue, switches[..n]), StepsOf(RenewDue, switches[n], n), i);
    }
  }
}
