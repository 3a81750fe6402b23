/** lifecycle_lock: one holder per device over all interleavings of processes and
    of an environment that may rebind the lock file's name. */
module LifecycleProtocol {
  import opened Options

  type Host = string
  type Name = string
  type Inode = nat
  type Pid = nat

  /** Where a process stands in the acquisition, its body, or its cleanup. */
  datatype Phase =
    | Outside
    | DirectoryOpen
    | FileOpen
    | Validated
    | Flocked
    | Revalidated
    | InBody
    | Cleanup

  /** fd is the inode behind the open lock descriptor; holds says that this
      descriptor owns the exclusive flock of that inode. */
  datatype Process = Process(host: Host, phase: Phase, fd: Option<Inode>, holds: bool)

  /** names binds lock file names to inodes; home remembers the name under which an
      inode was created; refused are the inodes that the file validation turns down: not
      regular, linked more than once, not empty, or of a foreign owner or mode. */
  datatype State = State(
    processes: map<Pid, Process>, names: map<Name, Inode>, home: map<Inode, Name>, refused: set<Inode>)

  datatype Event =
    | Enter(pid: Pid, host: Host)
    | OpenDirectory(pid: Pid)
    | OpenFile(pid: Pid, created: Inode)
    | Validate(pid: Pid)
    | Flock(pid: Pid)
    | Revalidate(pid: Pid)
    | Compare(pid: Pid)
    | Leave(pid: Pid)
    | Fail(pid: Pid)           // a system call raises, or validation refuses
    | Close(pid: Pid)          // close of the lock descriptor, or process death
    | Rebind(name: Name, target: Option<Inode>)
    | Alter(inode: Inode, refuse: bool)         // its metadata change

  /** What the surroundings do, not a process. */
  predicate Foreign(e: Event) { e.Rebind? || e.Alter? }

  predicate By(e: Event, pid: Pid) { !Foreign(e) && e.pid == pid }

  predicate Running(s: State, pid: Pid, phase: Phase) {
    pid in s.processes && s.processes[pid].phase == phase
  }

  function Move(s: State, pid: Pid, p: Process): State {
    s.(processes := s.processes[pid := p])
  }

  /** Does another open descriptor own the lock of this inode? */
  predicate HeldByOther(s: State, pid: Pid, inode: Inode) {
    exists q :: q in s.processes && q != pid && s.processes[q].holds && s.processes[q].fd == Some(inode)
  }

  /** _validate_lock_file */
  predicate Acceptable(s: State, pid: Pid)
    requires pid in s.processes
  {
    s.processes[pid].fd.Some? && s.processes[pid].fd.value !in s.refused
  }

  /** One step; filename is lock_filename. */
  predicate Step(filename: Host -> Name, s: State, e: Event, s': State) {
    match e
    case Enter(pid, host) =>
      && (pid in s.processes ==> Running(s, pid, Outside))
      && s' == Move(s, pid, Process(host, Outside, None, false))
    case OpenDirectory(pid) =>
      && Running(s, pid, Outside)
      && s' == Move(s, pid, s.processes[pid].(phase := DirectoryOpen))
    case OpenFile(pid, created) =>
      && Running(s, pid, DirectoryOpen)
      && var name := filename(s.processes[pid].host);
         if name in s.names then
           s' == Move(s, pid, s.processes[pid].(phase := FileOpen, fd := Some(s.names[name]), holds := false))
         else
           && created !in s.home && created !in s.refused
           && s' == Move(s, pid, s.processes[pid].(phase := FileOpen, fd := Some(created), holds := false))
                    .(names := s.names[name := created], home := s.home[created := name])
    case Validate(pid) =>
      Running(s, pid, FileOpen) && Acceptable(s, pid) && s' == Move(s, pid, s.processes[pid].(phase := Validated))
    case Flock(pid) =>
      && Running(s, pid, Validated) && s.processes[pid].fd.Some?
      && s' == if HeldByOther(s, pid, s.processes[pid].fd.value) then
                 Move(s, pid, s.processes[pid].(phase := Cleanup))
               else Move(s, pid, s.processes[pid].(phase := Flocked, holds := true))
    case Revalidate(pid) =>
      Running(s, pid, Flocked) && Acceptable(s, pid) && s' == Move(s, pid, s.processes[pid].(phase := Revalidated))
    case Compare(pid) =>
      && Running(s, pid, Revalidated)
      && var name := filename(s.processes[pid].host);
         s' == if name in s.names && s.processes[pid].fd == Some(s.names[name]) then
                 Move(s, pid, s.processes[pid].(phase := InBody))
               else Move(s, pid, s.processes[pid].(phase := Cleanup))
    case Leave(pid) =>
      Running(s, pid, InBody) && s' == Move(s, pid, s.processes[pid].(phase := Cleanup))
    case Fail(pid) =>
      && pid in s.processes && !Running(s, pid, InBody)
      && s' == Move(s, pid, s.processes[pid].(phase := Cleanup))
    case Close(pid) =>
      && pid in s.processes
      && s' == Move(s, pid, s.processes[pid].(phase := Outside, fd := None, holds := false))
    case Rebind(name, target) =>
      s' == if target.Some? then s.(names := s.names[name := target.value])
            else s.(names := s.names - {name})
    case Alter(inode, refuse) =>
      s' == s.(refused := if refuse then s.refused + {inode} else s.refused - {inode})
  }

  /** A process that could enter on inode t: a newcomer if t passes validation, or one that
      has already passed it and only has the name left to compare. */
  ghost predicate Enterable(filename: Host -> Name, s: State, name: Name, t: Inode) {
    t !in s.refused
    || exists q | Running(s, q, Revalidated) :: filename(s.processes[q].host) == name && s.processes[q].fd == Some(t)
  }

  /** Some process is in its body while its name leads to nothing, or to another inode than
      the one it has locked, on which somebody could enter. */
  ghost predicate Exposed(filename: Host -> Name, s: State) {
    exists pid | Running(s, pid, InBody) :: ExposedAt(filename, s, pid)
  }

  ghost predicate ExposedAt(filename: Host -> Name, s: State, pid: Pid)
    requires pid in s.processes
  {
    var name := filename(s.processes[pid].host);
    name !in s.names
    || (s.processes[pid].fd != Some(s.names[name]) && Enterable(filename, s, name, s.names[name]))
  }

  /** Whatever a process does is quiet; the surroundings must not expose a body. */
  ghost predicate Quiet(filename: Host -> Name, e: Event, s': State) {
    Foreign(e) ==> !Exposed(filename, s')
  }

  /** Past flock a process holds the lock it asked for. */
  ghost predicate Sound(p: Process) {
    && (p.holds ==> p.fd.Some?)
    && (p.phase == Flocked || p.phase == Revalidated || p.phase == InBody ==> p.holds)
  }

  ghost predicate LocksExclusive(s: State) {
    forall p, q | p in s.processes && q in s.processes && p != q
                  && s.processes[p].holds && s.processes[q].holds ::
      s.processes[p].fd != s.processes[q].fd
  }

  ghost predicate AllSound(s: State) {
    LocksExclusive(s) && forall p | p in s.processes :: Sound(s.processes[p])
  }

  /** Two different processes are never in their bodies on the same lock file name, so
      never for the same device. */
  ghost predicate Exclusive(filename: Host -> Name, s: State) {
    forall p, q | Running(s, p, InBody) && Running(s, q, InBody) && p != q ::
      filename(s.processes[p].host) != filename(s.processes[q].host)
  }

  ghost predicate Inv(filename: Host -> Name, s: State) {
    AllSound(s) && !Exposed(filename, s) && Exclusive(filename, s)
  }

  const Start := State(map[], map[], map[], {})

  lemma ExclusiveStep(filename: Host -> Name, s: State, e: Event, s': State)
    requires AllSound(s) && Step(filename, s, e, s')
    ensures LocksExclusive(s')
  {
    if !Foreign(e) {
      var pid := e.pid;
      forall p, q | p in s'.processes && q in s'.processes && p != q
                    && s'.processes[p].holds && s'.processes[q].holds
        ensures s'.processes[p].fd != s'.processes[q].fd
      {
        if p != pid { assert s'.processes[p] == s.processes[p]; }
        if q != pid { assert s'.processes[q] == s.processes[q]; }
        if e.Flock? {
          assert p == pid || q == pid || s.processes[p].fd != s.processes[q].fd;
        }
      }
    }
  }

  /** What a step of one process leaves to another. */
  lemma OthersKept(filename: Host -> Name, s: State, e: Event, s': State)
    requires Step(filename, s, e, s') && !Foreign(e)
    ensures forall p | p != e.pid :: p in s'.processes <==> p in s.processes
    ensures forall p | p != e.pid && p in s.processes :: s'.processes[p] == s.processes[p]
    ensures s'.refused == s.refused
    ensures forall name | name in s.names :: name in s'.names && s'.names[name] == s.names[name]
    ensures Running(s', e.pid, InBody) ==> e.Compare? && Running(s, e.pid, Revalidated)
    ensures Running(s', e.pid, InBody) ==> s'.processes[e.pid] == s.processes[e.pid].(phase := InBody)
    ensures Running(s', e.pid, InBody) ==>
              var name := filename(s.processes[e.pid].host);
              name in s.names && s.processes[e.pid].fd == Some(s.names[name])
    ensures Running(s', e.pid, Revalidated) ==>
              && e.Revalidate? && s'.processes[e.pid].fd.Some? && s'.processes[e.pid].fd.value !in s.refused
  {
  }

  lemma SoundOwn(filename: Host -> Name, s: State, e: Event, s': State)
    requires AllSound(s) && Step(filename, s, e, s') && !Foreign(e)
    ensures e.pid in s'.processes && Sound(s'.processes[e.pid])
  {
    hide LocksExclusive, HeldByOther;
    if e.pid in s.processes { assert Sound(s.processes[e.pid]); }
  }

  lemma SoundStep(filename: Host -> Name, s: State, e: Event, s': State)
    requires AllSound(s) && Step(filename, s, e, s')
    ensures AllSound(s')
  {
    ExclusiveStep(filename, s, e, s');
    if Foreign(e) {
      assert s'.processes == s.processes;
    } else {
      SoundOwn(filename, s, e, s');
      OthersKept(filename, s, e, s');
    }
    hide Step, LocksExclusive;
    forall p | p in s'.processes ensures Sound(s'.processes[p]) {
      if Foreign(e) || p != e.pid { assert Sound(s.processes[p]); }
    }
  }

  lemma UnexposedStep(filename: Host -> Name, s: State, e: Event, s': State, p: Pid)
    requires !Exposed(filename, s) && Step(filename, s, e, s') && !Foreign(e) && Running(s', p, InBody)
    ensures !ExposedAt(filename, s', p)
  {
    OthersKept(filename, s, e, s');
    hide Step;
    if p != e.pid {
      assert Running(s, p, InBody) && !ExposedAt(filename, s, p);
      var name := filename(s.processes[p].host);
      if q :| Running(s', q, Revalidated) && filename(s'.processes[q].host) == name
              && s'.processes[q].fd == Some(s'.names[name]) && s'.names[name] in s'.refused {
        assert q != e.pid && Running(s, q, Revalidated);
      }
    }
  }

  /** Whoever enters does so on the inode its name leads to, and that is nobody else's. */
  lemma EntryExclusive(filename: Host -> Name, s: State, e: Event, s': State)
    requires Inv(filename, s) && Step(filename, s, e, s') && !Foreign(e)
    ensures Exclusive(filename, s')
  {
    OthersKept(filename, s, e, s');
    hide Step;
    forall p: Pid, q: Pid | Running(s', p, InBody) && Running(s', q, InBody) && p != q
      ensures filename(s'.processes[p].host) != filename(s'.processes[q].host)
    {
      if p != e.pid && q != e.pid {
        assert Running(s, p, InBody) && Running(s, q, InBody);
      } else {
        NotBoth(filename, s, e, if p == e.pid then q else p);
      }
    }
  }

  lemma NotBoth(filename: Host -> Name, s: State, e: Event, other: Pid)
    requires Inv(filename, s) && e.Compare? && other != e.pid
    requires Running(s, other, InBody) && Running(s, e.pid, Revalidated)
    requires var name := filename(s.processes[e.pid].host);
             name in s.names && s.processes[e.pid].fd == Some(s.names[name])
    ensures filename(s.processes[other].host) != filename(s.processes[e.pid].host)
  {
    assert Sound(s.processes[other]) && Sound(s.processes[e.pid]);
    assert s.processes[other].fd != s.processes[e.pid].fd;
    assert !ExposedAt(filename, s, other);
  }

  lemma InvStep(filename: Host -> Name, s: State, e: Event, s': State)
    requires Inv(filename, s) && Step(filename, s, e, s') && Quiet(filename, e, s')
    ensures Inv(filename, s')
  {
    SoundStep(filename, s, e, s');
    if Foreign(e) {
      assert s'.processes == s.processes;
      assert Exclusive(filename, s') by {
        forall p, q | Running(s', p, InBody) && Running(s', q, InBody) && p != q
          ensures filename(s'.processes[p].host) != filename(s'.processes[q].host)
        {
          assert Running(s, p, InBody) && Running(s, q, InBody);
        }
      }
    } else {
      EntryExclusive(filename, s, e, s');
      forall p | Running(s', p, InBody) ensures !ExposedAt(filename, s', p) {
        UnexposedStep(filename, s, e, s', p);
      }
    }
  }

  /** A behaviour: states[i] goes to states[i + 1] by events[i]. */
  ghost predicate Behaviour(filename: Host -> Name, states: seq<State>, events: seq<Event>) {
    && |states| == |events| + 1 && states[0] == Start
    && forall i | 0 <= i < |events| :: Step(filename, states[i], events[i], states[i + 1])
  }

  ghost predicate AllQuiet(filename: Host -> Name, states: seq<State>, events: seq<Event>)
    requires |states| == |events| + 1
  {
    forall i | 0 <= i < |events| :: Quiet(filename, events[i], states[i + 1])
  }

  lemma {:induction false} InvAlways(filename: Host -> Name, states: seq<State>, events: seq<Event>, n: nat)
    requires Behaviour(filename, states, events) && AllQuiet(filename, states, events) && n < |states|
    ensures Inv(filename, states[n])
  {
    if n > 0 {
      InvAlways(filename, states, events, n - 1);
      assert Step(filename, states[n - 1], events[n - 1], states[n - 1 + 1]);
      assert Quiet(filename, events[n - 1], states[n - 1 + 1]);
      hide Step, Quiet, Inv;
      InvStep(filename, states[n - 1], events[n - 1], states[n]);
    }
  }

  /** Mutual exclusion over every interleaving, for any number of processes: on one lock
      file name, and so for one device, there is never more than one body. */
  lemma MutualExclusion(filename: Host -> Name, states: seq<State>, events: seq<Event>, n: nat)
    requires Behaviour(filename, states, events) && AllQuiet(filename, states, events) && n < |states|
    ensures Exclusive(filename, states[n])
    ensures forall p, q | Running(states[n], p, InBody) && Running(states[n], q, InBody) && p != q ::
              states[n].processes[p].host != states[n].processes[q].host
  {
    InvAlways(filename, states, events, n);
  }

  // ---- The assumption is exactly what is needed ----

  /** A quiet path leads from one state to the other. */
  ghost predicate Reaches(filename: Host -> Name, before: State, after: State, steps: nat)
    decreases steps
  {
    if steps == 0 then before == after
    else exists e: Event, mid: State ::
      Quiet(filename, e, mid) && Step(filename, before, e, mid) && Reaches(filename, mid, after, steps - 1)
  }

  lemma Prefixed(filename: Host -> Name, a: State, e: Event, b: State, c: State, n: nat)
    requires !Foreign(e) && Step(filename, a, e, b) && Reaches(filename, b, c, n)
    ensures Reaches(filename, a, c, n + 1)
  {
    assert Quiet(filename, e, b);
  }

  lemma {:induction false} InvReaches(filename: Host -> Name, a: State, b: State, n: nat)
    requires Inv(filename, a) && Reaches(filename, a, b, n)
    ensures Inv(filename, b)
    decreases n
  {
    hide Step, Quiet, Inv;
    if n > 0 {
      var e: Event, mid: State :|
        Quiet(filename, e, mid) && Step(filename, a, e, mid) && Reaches(filename, mid, b, n - 1);
      InvStep(filename, a, e, mid);
      InvReaches(filename, mid, b, n - 1);
    }
  }

  /** A process that has opened an inode and stands at a phase on its way to the body. */
  function Past(phase: Phase, host: Host, inode: Inode): Process {
    Process(host, phase, Some(inode), phase == Flocked || phase == Revalidated || phase == InBody)
  }

  /** Opening creates the file when its name is not bound. */
  function Bound(filename: Host -> Name, s: State, host: Host, inode: Inode): State {
    if filename(host) in s.names then s
    else s.(names := s.names[filename(host) := inode], home := s.home[inode := filename(host)])
  }

  /** The state in which pid has opened the file of its host and reached the phase. */
  function Entered(filename: Host -> Name, s: State, pid: Pid, host: Host, inode: Inode, phase: Phase): State {
    Move(Bound(filename, s, host, inode), pid, Past(phase, host, inode))
  }

  /** What a process that comes now will open, and that nobody has locked it. */
  ghost predicate Free(filename: Host -> Name, s: State, host: Host, inode: Inode) {
    && inode !in s.refused
    && (if filename(host) in s.names then s.names[filename(host)] == inode else inode !in s.home)
    && forall q | q in s.processes && s.processes[q].holds :: s.processes[q].fd != Some(inode)
  }

  lemma OpenSteps(filename: Host -> Name, s: State, pid: Pid, host: Host, inode: Inode)
    requires pid !in s.processes && Free(filename, s, host, inode)
    ensures var outside := Move(s, pid, Process(host, Outside, None, false));
            var directory := Move(s, pid, Process(host, DirectoryOpen, None, false));
            && Step(filename, s, Enter(pid, host), outside)
            && Step(filename, outside, OpenDirectory(pid), directory)
            && Step(filename, directory, OpenFile(pid, inode),
                    Entered(filename, s, pid, host, inode, FileOpen))
  {
  }

  lemma LockSteps(filename: Host -> Name, s: State, pid: Pid, host: Host, inode: Inode)
    requires pid !in s.processes && Free(filename, s, host, inode)
    ensures Step(filename, Entered(filename, s, pid, host, inode, FileOpen), Validate(pid),
                 Entered(filename, s, pid, host, inode, Validated))
    ensures Step(filename, Entered(filename, s, pid, host, inode, Validated), Flock(pid),
                 Entered(filename, s, pid, host, inode, Flocked))
  {
    assert !HeldByOther(Entered(filename, s, pid, host, inode, Validated), pid, inode);
  }

  lemma RecheckSteps(filename: Host -> Name, s: State, pid: Pid, host: Host, inode: Inode)
    requires Free(filename, s, host, inode)
    ensures Step(filename, Entered(filename, s, pid, host, inode, Flocked), Revalidate(pid),
                 Entered(filename, s, pid, host, inode, Revalidated))
    ensures Step(filename, Entered(filename, s, pid, host, inode, Revalidated), Compare(pid),
                 Entered(filename, s, pid, host, inode, InBody))
  {
    hide HeldByOther;
    var bound := Bound(filename, s, host, inode);
    assert filename(host) in bound.names && bound.names[filename(host)] == inode && inode !in bound.refused;
    hide Bound;
  }

  /** A newcomer whose file nobody has locked gets into its body. */
  lemma Entry(filename: Host -> Name, s: State, pid: Pid, host: Host, inode: Inode)
    requires pid !in s.processes && Free(filename, s, host, inode)
    ensures Reaches(filename, s, Entered(filename, s, pid, host, inode, InBody), 7)
  {
    hide Step, Entered, Free, Reaches, Quiet;
    OpenSteps(filename, s, pid, host, inode);
    LockSteps(filename, s, pid, host, inode);
    RecheckSteps(filename, s, pid, host, inode);
    var s1 := Move(s, pid, Process(host, Outside, None, false));
    var s2 := Move(s, pid, Process(host, DirectoryOpen, None, false));
    var s3 := Entered(filename, s, pid, host, inode, FileOpen);
    var s4 := Entered(filename, s, pid, host, inode, Validated);
    var s5 := Entered(filename, s, pid, host, inode, Flocked);
    var s6 := Entered(filename, s, pid, host, inode, Revalidated);
    var s7 := Entered(filename, s, pid, host, inode, InBody);
    Arrived(filename, s7);
    Prefixed(filename, s6, Compare(pid), s7, s7, 0);
    Prefixed(filename, s5, Revalidate(pid), s6, s7, 1);
    Prefixed(filename, s4, Flock(pid), s5, s7, 2);
    Prefixed(filename, s3, Validate(pid), s4, s7, 3);
    Prefixed(filename, s2, OpenFile(pid, inode), s3, s7, 4);
    Prefixed(filename, s1, OpenDirectory(pid), s2, s7, 5);
    Prefixed(filename, s, Enter(pid, host), s1, s7, 6);
  }

  lemma Arrived(filename: Host -> Name, s: State)
    ensures Reaches(filename, s, s, 0)
  {
  }

  lemma {:induction false} SomeFresh(s: set<nat>) returns (n: nat)
    ensures forall k | k in s :: k < n
    decreases s
  {
    n := 0;
    if s != {} {
      var k :| k in s;
      var m := SomeFresh(s - {k});
      n := if k < m then m else k + 1;
      assert forall j | j in s :: j == k || j in s - {k};
    }
  }

  /** Whoever holds the inode can go: closing is always possible and always quiet. */
  lemma Evict(filename: Host -> Name, s: State, pid: Pid, inode: Inode)
      returns (after: State, steps: nat)
    requires LocksExclusive(s) && Running(s, pid, InBody) && s.processes[pid].fd != Some(inode)
    ensures Reaches(filename, s, after, steps)
    ensures after.names == s.names && after.home == s.home && after.refused == s.refused && Running(after, pid, InBody)
    ensures after.processes[pid] == s.processes[pid]
    ensures forall q | q in after.processes && after.processes[q].holds :: after.processes[q].fd != Some(inode)
  {
    if r :| r in s.processes && s.processes[r].holds && s.processes[r].fd == Some(inode) {
      after := Move(s, r, s.processes[r].(phase := Outside, fd := None, holds := false));
      steps := 1;
      assert Step(filename, s, Close(r), after);
      Arrived(filename, after);
      Prefixed(filename, s, Close(r), after, after, 0);
      forall q | q in after.processes && after.processes[q].holds ensures after.processes[q].fd != Some(inode) {
        assert q != r && after.processes[q] == s.processes[q];
      }
    } else {
      after, steps := s, 0;
      Arrived(filename, s);
    }
  }

  lemma {:induction false} ReachesOn(filename: Host -> Name, a: State, b: State, c: State, m: nat, n: nat)
    requires Reaches(filename, a, b, m) && Reaches(filename, b, c, n)
    ensures Reaches(filename, a, c, m + n)
    decreases m
  {
    hide Step, Quiet;
    if m > 0 {
      var e: Event, mid: State :|
        Quiet(filename, e, mid) && Step(filename, a, e, mid) && Reaches(filename, mid, b, m - 1);
      ReachesOn(filename, mid, b, c, m - 1, n);
    }
  }

  /** From every exposed state a second process gets into its body next to the first, by
      quiet steps alone. */
  lemma ExposureBreaksExclusion(filename: Host -> Name, s: State) returns (two: State, steps: nat)
    requires LocksExclusive(s) && Exposed(filename, s)
    ensures Reaches(filename, s, two, steps) && !Exclusive(filename, two)
  {
    var pid :| Running(s, pid, InBody) && ExposedAt(filename, s, pid);
    var name := filename(s.processes[pid].host);
    if name !in s.names {
      var inode := UnusedInode(s);
      two, steps := SecondEntry(filename, s, pid, inode);
    } else if s.names[name] !in s.refused {
      two, steps := SecondEntry(filename, s, pid, s.names[name]);
    } else {
      var q :| Running(s, q, Revalidated) && filename(s.processes[q].host) == name
               && s.processes[q].fd == Some(s.names[name]);
      two, steps := Move(s, q, s.processes[q].(phase := InBody)), 1;
      assert Step(filename, s, Compare(q), two);
      Arrived(filename, two);
      Prefixed(filename, s, Compare(q), two, two, 0);
      assert Running(two, pid, InBody) && Running(two, q, InBody) && pid != q;
    }
  }

  lemma UnusedInode(s: State) returns (inode: Inode)
    ensures inode !in s.home && inode !in s.refused
    ensures forall q | q in s.processes :: s.processes[q].fd != Some(inode)
  {
    var open := set q | q in s.processes && s.processes[q].fd.Some? :: s.processes[q].fd.value;
    inode := SomeFresh(s.home.Keys + open + s.refused);
    forall q | q in s.processes ensures s.processes[q].fd != Some(inode) {
      if s.processes[q].fd.Some? { assert s.processes[q].fd.value in open; }
    }
    assert inode !in s.home.Keys && inode !in s.refused;
  }

  /** Once the name leads to another inode than the one locked in the body, or nowhere,
      a second process can follow. */
  lemma SecondEntry(filename: Host -> Name, s: State, pid: Pid, inode: Inode)
      returns (two: State, steps: nat)
    requires LocksExclusive(s) && Running(s, pid, InBody) && s.processes[pid].fd != Some(inode)
    requires var name := filename(s.processes[pid].host);
             inode !in s.refused && if name in s.names then s.names[name] == inode else inode !in s.home
    ensures Reaches(filename, s, two, steps) && !Exclusive(filename, two)
  {
    hide Reaches, Entered, Exclusive, LocksExclusive, Step;
    var host := s.processes[pid].host;
    var cleared, first := Evict(filename, s, pid, inode);
    var visitor := SomeFresh(cleared.processes.Keys);
    assert visitor !in cleared.processes.Keys;
    assert Free(filename, cleared, host, inode);
    Entry(filename, cleared, visitor, host, inode);
    two := Entered(filename, cleared, visitor, host, inode, InBody);
    steps := first + 7;
    BothInside(filename, cleared, pid, visitor, inode);
    ReachesOn(filename, s, cleared, two, first, 7);
  }

  lemma BothInside(filename: Host -> Name, s: State, pid: Pid, visitor: Pid, inode: Inode)
    requires Running(s, pid, InBody) && visitor !in s.processes
    ensures !Exclusive(filename, Entered(filename, s, visitor, s.processes[pid].host, inode, InBody))
  {
    var two := Entered(filename, s, visitor, s.processes[pid].host, inode, InBody);
    assert Running(two, pid, InBody) && Running(two, visitor, InBody) && pid != visitor;
  }

  /** Every quiet continuation, of any length and interleaving, is exclusive. */
  ghost predicate StaysExclusive(filename: Host -> Name, s: State) {
    forall after: State, n: nat :: Reaches(filename, s, after, n) ==> Exclusive(filename, after)
  }

  lemma NotExclusive(filename: Host -> Name, s: State, after: State, n: nat)
    requires Reaches(filename, s, after, n) && !Exclusive(filename, after)
    ensures !StaysExclusive(filename, s)
  {
    hide Exclusive;
  }

  /** Whatever the surroundings do to names and inodes, in every state the protocol can be
      in: all quiet continuations stay exclusive if and only if no body is exposed. */
  lemma ExposureExact(filename: Host -> Name, s: State, e: Event, s': State)
    requires Inv(filename, s) && Foreign(e) && Step(filename, s, e, s')
    ensures StaysExclusive(filename, s') <==> !Exposed(filename, s')
  {
    if Exposed(filename, s') {
      SoundStep(filename, s, e, s');
      var two, steps := ExposureBreaksExclusion(filename, s');
      NotExclusive(filename, s', two, steps);
    } else {
      InvStep(filename, s, e, s');
      forall after: State, n: nat | Reaches(filename, s', after, n) ensures Exclusive(filename, after) {
        InvReaches(filename, s', after, n);
      }
    }
  }

  /** In particular a rebinding of the name of a body is harmless exactly if it leads to the
      locked inode, or to one on which nobody can enter. */
  lemma RebindingExact(filename: Host -> Name, s: State, pid: Pid, target: Option<Inode>, s': State)
    requires Inv(filename, s) && Running(s, pid, InBody)
    requires Step(filename, s, Rebind(filename(s.processes[pid].host), target), s')
    ensures StaysExclusive(filename, s') <==>
      target == s.processes[pid].fd
      || (target.Some? && !Enterable(filename, s, filename(s.processes[pid].host), target.value))
  {
    var name := filename(s.processes[pid].host);
    ExposureExact(filename, s, Rebind(name, target), s');
    assert s'.processes == s.processes && s'.refused == s.refused;
    SameEnterable(filename, s, s');
    hide StaysExclusive, Enterable, Step;
    assert Running(s', pid, InBody) && Sound(s.processes[pid]);
    if !ExposedAt(filename, s', pid) {
      forall p | Running(s', p, InBody) ensures !ExposedAt(filename, s', p) {
        assert Running(s, p, InBody) && !ExposedAt(filename, s, p);
        assert p != pid ==> filename(s.processes[p].host) != name;
      }
    }
  }

  lemma SameEnterable(filename: Host -> Name, s: State, s': State)
    requires s'.processes == s.processes && s'.refused == s.refused
    ensures forall name: Name, t: Inode :: Enterable(filename, s, name, t) == Enterable(filename, s', name, t)
  {
    forall name: Name, t: Inode ensures Enterable(filename, s, name, t) == Enterable(filename, s', name, t) {
      assert forall q :: Running(s, q, Revalidated) == Running(s', q, Revalidated);
    }
  }

  /** An exposing rebinding is possible: after one entry from the start, unbinding is one. */
  lemma HarmfulHappens(filename: Host -> Name, host: Host) returns (one: State, removed: State)
    ensures Reaches(filename, Start, one, 7)
    ensures Step(filename, one, Rebind(filename(host), None), removed) && Exposed(filename, removed)
  {
    hide Reaches;
    Entry(filename, Start, 1, host, 1);
    one := Entered(filename, Start, 1, host, 1, InBody);
    removed := one.(names := one.names - {filename(host)});
    assert Running(removed, 1, InBody) && ExposedAt(filename, removed, 1);
  }

  // ---- Different devices ----

  ghost predicate Injective(filename: Host -> Name) {
    forall g: Host, h: Host :: filename(g) == filename(h) ==> g == h
  }

  /** The environment binds a name only to inodes created under that name. */
  ghost predicate KeepsHomes(s: State, e: Event) {
    e.Rebind? && e.target.Some? ==> e.target.value in s.home && s.home[e.target.value] == e.name
  }

  ghost predicate AtHome(filename: Host -> Name, s: State) {
    && (forall name | name in s.names :: s.names[name] in s.home && s.home[s.names[name]] == name)
    && (forall p | p in s.processes && s.processes[p].fd.Some? ::
          var inode := s.processes[p].fd.value;
          inode in s.home && s.home[inode] == filename(s.processes[p].host))
  }

  /** Only opening a file gives a process an inode, and only opening creates one. */
  lemma HomesKept(filename: Host -> Name, s: State, e: Event, s': State)
    requires Step(filename, s, e, s') && !e.OpenFile?
    ensures s'.home == s.home && (e.Rebind? || s'.names == s.names)
    ensures forall p | p in s'.processes && s'.processes[p].fd.Some? ::
              && p in s.processes && s.processes[p].fd == s'.processes[p].fd
              && s.processes[p].host == s'.processes[p].host
  {
  }

  lemma AtHomeOpened(filename: Host -> Name, s: State, pid: Pid, created: Inode, s': State)
    requires AtHome(filename, s) && Step(filename, s, OpenFile(pid, created), s')
    ensures AtHome(filename, s')
  {
    forall p | p in s'.processes && p != pid ensures p in s.processes && s'.processes[p] == s.processes[p] {}
  }

  lemma AtHomeStep(filename: Host -> Name, s: State, e: Event, s': State)
    requires AtHome(filename, s) && Step(filename, s, e, s') && KeepsHomes(s, e)
    ensures AtHome(filename, s')
  {
    if e.OpenFile? {
      AtHomeOpened(filename, s, e.pid, e.created, s');
    } else {
      HomesKept(filename, s, e, s');
      assert e.Rebind? ==> forall name | name in s'.names && name != e.name ::
          name in s.names && s'.names[name] == s.names[name];
      hide Step;
    }
  }

  lemma {:induction false} AtHomeAlways(filename: Host -> Name, states: seq<State>, events: seq<Event>, n: nat)
    requires Behaviour(filename, states, events) && n < |states|
    requires forall i | 0 <= i < |events| :: KeepsHomes(states[i], events[i])
    ensures AtHome(filename, states[n])
  {
    if n > 0 {
      AtHomeAlways(filename, states, events, n - 1);
      assert Step(filename, states[n - 1], events[n - 1], states[n - 1 + 1]);
      AtHomeStep(filename, states[n - 1], events[n - 1], states[n]);
    }
  }

  /** A flock is refused only because of a process for the same device, whenever
      names are rebound. */
  lemma BusyMeansSameDevice(filename: Host -> Name, states: seq<State>, events: seq<Event>, n: nat)
    requires Behaviour(filename, states, events) && Injective(filename) && n < |events|
    requires forall i | 0 <= i < |events| :: KeepsHomes(states[i], events[i])
    requires events[n].Flock? && Running(states[n + 1], events[n].pid, Cleanup)
    ensures exists q | q in states[n].processes && q != events[n].pid ::
              && states[n].processes[q].holds
              && states[n].processes[q].host == states[n].processes[events[n].pid].host
  {
    AtHomeAlways(filename, states, events, n);
    var s, pid := states[n], events[n].pid;
    assert Step(filename, s, events[n], states[n + 1]);
    assert HeldByOther(s, pid, s.processes[pid].fd.value);
    var q :| q in s.processes && q != pid && s.processes[q].holds
             && s.processes[q].fd == s.processes[pid].fd;
    assert filename(s.processes[q].host) == filename(s.processes[pid].host);
  }
}

/** The context manager itself, as one process of the protocol: what it asks of the system
    are the protocol's steps, with anything the others do in between. */
module LifecycleLock {
  import opened Options
  import opened LifecycleProtocol

  /** The events of one process. */
  ghost function Own(events: seq<Event>, pid: Pid): seq<Event> {
    if events == [] then []
    else
      var last := events[|events| - 1];
      Own(events[..|events| - 1], pid) + if By(last, pid) then [last] else []
  }

  lemma OwnSnoc(events: seq<Event>, e: Event, pid: Pid)
    ensures Own(events + [e], pid) == Own(events, pid) + if By(e, pid) then [e] else []
  {
    assert (events + [e])[..|events|] == events;
  }

  /** Why the lock refuses an inode: validation does, or the name leads elsewhere. */
  ghost predicate Refuses(filename: Host -> Name, s: State, pid: Pid) {
    pid in s.processes
    && var p := s.processes[pid];
       || ((p.phase.FileOpen? || p.phase.Flocked?) && (p.fd.None? || p.fd.value in s.refused))
       || (p.phase.Revalidated? && !(filename(p.host) in s.names && p.fd == Some(s.names[filename(p.host)])))
  }

  /** What the three checks ask: the open file is accepted, before and after flock, and in the
      end the name leads to it. */
  ghost predicate Allows(filename: Host -> Name, s: State, pid: Pid, phase: Phase) {
    Running(s, pid, phase)
    && var p := s.processes[pid];
       && p.fd.Some?
       && (phase.FileOpen? || phase.Flocked? ==> p.fd.value !in s.refused)
       && (phase.Revalidated? ==> filename(p.host) in s.names && s.names[filename(p.host)] == p.fd.value)
  }

  /** Everything that has happened: states[k] goes to states[k + 1] by events[k]. */
  datatype History = History(states: seq<State>, events: seq<Event>)

  /** b continues a, and of this process exactly these steps were taken in between. */
  ghost predicate Continues(a: History, b: History, pid: Pid, trail: seq<Event>) {
    a.states <= b.states && a.events <= b.events && Own(b.events, pid) == Own(a.events, pid) + trail
  }

  lemma ContinuesOn(a: History, b: History, c: History, pid: Pid, first: seq<Event>, second: seq<Event>)
    requires Continues(a, b, pid, first) && Continues(b, c, pid, second)
    ensures Continues(a, c, pid, first + second)
  {
    hide Own;
  }

  lemma ContinuesSelf(a: History, pid: Pid)
    ensures Continues(a, a, pid, [])
  {
    hide Own;
  }

  ghost predicate RefusedIn(filename: Host -> Name, h: History, start: nat, pid: Pid) {
    exists k | start <= k < |h.states| :: Refuses(filename, h.states[k], pid)
  }

  ghost predicate AllowedIn(filename: Host -> Name, h: History, start: nat, pid: Pid, phase: Phase) {
    exists k | start <= k < |h.states| :: Allows(filename, h.states[k], pid, phase)
  }

  lemma AllowedKept(filename: Host -> Name, a: History, b: History, start: nat, earlier: nat, pid: Pid, phase: Phase)
    requires a.states <= b.states && earlier <= start && AllowedIn(filename, a, start, pid, phase)
    ensures AllowedIn(filename, b, earlier, pid, phase)
  {
    var k :| start <= k < |a.states| && Allows(filename, a.states[k], pid, phase);
    assert b.states[k] == a.states[k];
  }

  /** The state between what others did and the own step was the one that was checked. */
  lemma AllowanceSeen(filename: Host -> Name, a: History, b: History, c: History, pid: Pid, e: Event, phase: Phase)
    requires Continues(a, b, pid, []) && Continues(b, c, pid, [e]) && a.states != []
    requires Allows(filename, b.states[|b.states| - 1], pid, phase)
    ensures AllowedIn(filename, c, |a.states| - 1, pid, phase)
  {
    hide Own, Allows;
    assert c.states[|b.states| - 1] == b.states[|b.states| - 1];
  }

  lemma RefusalKept(filename: Host -> Name, a: History, b: History, start: nat, pid: Pid)
    requires a.states <= b.states && RefusedIn(filename, a, start, pid)
    ensures RefusedIn(filename, b, start, pid)
  {
    var k :| start <= k < |a.states| && Refuses(filename, a.states[k], pid);
    assert b.states[k] == a.states[k];
  }

  /** The state in which the last step was taken. */
  ghost function LastBut(h: History): Option<State> {
    if |h.states| < 2 then None else Some(h.states[|h.states| - 2])
  }

  /** No other process holds a lock on the inode that this one has open. */
  ghost predicate Unheld(s: State, pid: Pid) {
    pid in s.processes && forall q | q in s.processes && q != pid && s.processes[q].holds ::
      s.processes[q].fd != s.processes[pid].fd
  }

  /** Directory, files and locks of the host. Before every answer anybody else may have made
      any number of steps. */
  class System {
    const filename: Host -> Name
    var state: State
    ghost var history: History

    constructor (filename: Host -> Name)
      ensures Valid() && this.filename == filename && state == Start && history == History([Start], [])
    {
      this.filename, state, history := filename, Start, History([Start], []);
    }

    /** What has happened is a behaviour of the protocol, and has led here. */
    ghost predicate Valid()
      reads this
    {
      && history.states != [] && Behaviour(filename, history.states, history.events)
      && state == history.states[|history.states| - 1]
    }

    /** This process is at a phase, for this host. */
    predicate Stands(pid: Pid, host: Host, phase: Phase)
      reads this
    {
      Running(state, pid, phase) && state.processes[pid].host == host
    }

    method Take(e: Event, next: State)
      requires Valid() && Step(filename, state, e, next)
      modifies this
      ensures Valid() && state == next
      ensures history == History(old(history).states + [next], old(history).events + [e])
    {
      state := next;
      history := History(history.states + [next], history.events + [e]);
    }

    /** What others do meanwhile. */
    method Others(pid: Pid)
      requires Valid()
      modifies this
      ensures Valid() && Continues(old(history), history, pid, [])
      ensures pid in state.processes <==> pid in old(state).processes
      ensures pid in state.processes ==> state.processes[pid] == old(state).processes[pid]
    {
      hide Step, Own, Behaviour;
      ContinuesSelf(history, pid);
      var count: int := *;
      while count > 0
        invariant Valid() && Continues(old(history), history, pid, [])
        invariant pid in state.processes <==> pid in old(state).processes
        invariant pid in state.processes ==> state.processes[pid] == old(state).processes[pid]
      {
        var e: Event := *;
        var next: State := *;
        if !By(e, pid) && Step(filename, state, e, next) {
          KeepsOthers(filename, state, e, next, pid);
          OwnSnoc(history.events, e, pid);
          Take(e, next);
        }
        count := count - 1;
      }
    }

    /** One step of this process, after whatever the others have done. */
    method Go(pid: Pid, e: Event, next: State)
      requires Valid() && By(e, pid) && Step(filename, state, e, next)
      modifies this
      ensures Valid() && state == next && Continues(old(history), history, pid, [e])
      ensures history.states == old(history).states + [next]
    {
      hide Step, Behaviour;
      OwnSnoc(history.events, e, pid);
      Take(e, next);
    }

    method Enter(pid: Pid, host: Host)
      requires Valid() && (pid in state.processes ==> Running(state, pid, Outside))
      modifies this
      ensures Valid() && Stands(pid, host, Outside)
      ensures Continues(old(history), history, pid, [LifecycleProtocol.Enter(pid, host)])
      ensures old(history).states < history.states
    {
      hide Own, Behaviour, Continues;
      Go(pid, LifecycleProtocol.Enter(pid, host), Move(state, pid, Process(host, Outside, None, false)));
    }

    method OpenDirectory(pid: Pid, host: Host)
      requires Valid() && Stands(pid, host, Outside)
      modifies this
      ensures Valid() && Stands(pid, host, DirectoryOpen)
      ensures Continues(old(history), history, pid, [LifecycleProtocol.OpenDirectory(pid)])
    {
      hide Own, Behaviour, Continues;
      Others(pid);
      ghost var between := history;
      Go(pid, LifecycleProtocol.OpenDirectory(pid), Move(state, pid, state.processes[pid].(phase := DirectoryOpen)));
      OneAfter(old(history), between, history, pid, LifecycleProtocol.OpenDirectory(pid));
    }

    method OpenFile(pid: Pid, host: Host) returns (ghost e: Event)
      requires Valid() && Stands(pid, host, DirectoryOpen)
      modifies this
      ensures Valid() && Stands(pid, host, FileOpen)
      ensures e.OpenFile? && e.pid == pid && Continues(old(history), history, pid, [e])
    {
      hide Own, Behaviour, Continues;
      Others(pid);
      ghost var between := history;
      var name := filename(host);
      var created := Unused(state.home.Keys + state.refused);
      e := LifecycleProtocol.OpenFile(pid, created);
      if name in state.names {
        Go(pid, LifecycleProtocol.OpenFile(pid, created),
           Move(state, pid, state.processes[pid].(phase := FileOpen, fd := Some(state.names[name]), holds := false)));
      } else {
        Go(pid, LifecycleProtocol.OpenFile(pid, created),
           Move(state, pid, state.processes[pid].(phase := FileOpen, fd := Some(created), holds := false))
           .(names := state.names[name := created], home := state.home[created := name]));
      }
      OneAfter(old(history), between, history, pid, e);
    }

    /** A file that did not exist gets an inode that was not in use. */
    method Unused(used: set<Inode>) returns (n: Inode)
      ensures n !in used
    {
      n := 0;
      var rest := used;
      while rest != {}
        invariant rest <= used && forall k | k in used :: k in rest || k < n
        decreases rest
      {
        var k :| k in rest;
        if k >= n { n := k + 1; }
        rest := rest - {k};
      }
    }

    /** fstat and _validate_lock_file, before and after flock: what the file is now decides. */
    method Check(pid: Pid, host: Host, phase: Phase, next: Phase) returns (ok: bool)
      requires Valid() && Stands(pid, host, phase)
      requires (phase.FileOpen? && next.Validated?) || (phase.Flocked? && next.Revalidated?)
      modifies this
      ensures Valid() && Stands(pid, host, if ok then next else Cleanup)
      ensures ok ==> state.processes[pid].fd.Some?
      ensures Continues(old(history), history, pid,
                        [if !ok then LifecycleProtocol.Fail(pid)
                         else if phase.FileOpen? then LifecycleProtocol.Validate(pid)
                         else LifecycleProtocol.Revalidate(pid)])
      ensures !ok ==> RefusedIn(filename, history, |old(history).states| - 1, pid)
      ensures ok ==> AllowedIn(filename, history, |old(history).states| - 1, pid, phase)
    {
      hide Own, Behaviour, Continues, RefusedIn, AllowedIn;
      Others(pid);
      ghost var between := history;
      ok := Acceptable(state, pid);
      ghost var e := if !ok then LifecycleProtocol.Fail(pid)
                     else if phase.FileOpen? then LifecycleProtocol.Validate(pid)
                     else LifecycleProtocol.Revalidate(pid);
      var after := Move(state, pid, state.processes[pid].(phase := if ok then next else Cleanup));
      if !ok {
        Go(pid, LifecycleProtocol.Fail(pid), after);
      } else if phase.FileOpen? {
        Go(pid, LifecycleProtocol.Validate(pid), after);
      } else {
        Go(pid, LifecycleProtocol.Revalidate(pid), after);
      }
      OneAfter(old(history), between, history, pid, e);
      if ok {
        AllowanceSeen(filename, old(history), between, history, pid, e, phase);
      } else {
        RefusalSeen(filename, old(history), between, history, pid, e);
      }
    }

    /** flock without waiting. */
    method Flock(pid: Pid, host: Host) returns (granted: bool)
      requires Valid() && Stands(pid, host, Validated) && state.processes[pid].fd.Some?
      modifies this
      ensures Valid() && Stands(pid, host, if granted then Flocked else Cleanup)
      ensures Continues(old(history), history, pid, [LifecycleProtocol.Flock(pid)])
      ensures LastBut(history).Some? && granted == Unheld(LastBut(history).value, pid)
    {
      hide Own, Behaviour, Continues;
      Others(pid);
      ghost var between := history;
      granted := !HeldByOther(state, pid, state.processes[pid].fd.value);
      if granted {
        Go(pid, LifecycleProtocol.Flock(pid), Move(state, pid, state.processes[pid].(phase := Flocked, holds := true)));
      } else {
        Go(pid, LifecycleProtocol.Flock(pid), Move(state, pid, state.processes[pid].(phase := Cleanup)));
      }
      OneAfter(old(history), between, history, pid, LifecycleProtocol.Flock(pid));
    }

    /** stat of the name, and the comparison with the open file. */
    method Compare(pid: Pid, host: Host) returns (same: bool)
      requires Valid() && Stands(pid, host, Revalidated) && state.processes[pid].fd.Some?
      modifies this
      ensures Valid() && Stands(pid, host, if same then InBody else Cleanup)
      ensures Continues(old(history), history, pid, [LifecycleProtocol.Compare(pid)])
      ensures !same ==> RefusedIn(filename, history, |old(history).states| - 1, pid)
      ensures same ==> AllowedIn(filename, history, |old(history).states| - 1, pid, Revalidated)
    {
      hide Own, Behaviour, Continues, RefusedIn, AllowedIn, Step;
      Others(pid);
      ghost var between := history;
      CompareStep(filename, state, pid);
      var name := filename(host);
      same := name in state.names && state.processes[pid].fd == Some(state.names[name]);
      Go(pid, LifecycleProtocol.Compare(pid),
         Move(state, pid, state.processes[pid].(phase := if same then InBody else Cleanup)));
      OneAfter(old(history), between, history, pid, LifecycleProtocol.Compare(pid));
      ghost var e := LifecycleProtocol.Compare(pid);
      if same {
        AllowanceSeen(filename, old(history), between, history, pid, e, Revalidated);
      } else {
        RefusalSeen(filename, old(history), between, history, pid, e);
      }
    }

    /** A system call that raises. */
    method Fail(pid: Pid, host: Host, phase: Phase)
      requires Valid() && Stands(pid, host, phase) && !phase.InBody?
      modifies this
      ensures Valid() && Stands(pid, host, Cleanup)
      ensures Continues(old(history), history, pid, [LifecycleProtocol.Fail(pid)])
    {
      hide Own, Behaviour, Continues;
      Others(pid);
      ghost var between := history;
      Go(pid, LifecycleProtocol.Fail(pid), Move(state, pid, state.processes[pid].(phase := Cleanup)));
      OneAfter(old(history), between, history, pid, LifecycleProtocol.Fail(pid));
    }

    method Leave(pid: Pid, host: Host)
      requires Valid() && Stands(pid, host, InBody)
      modifies this
      ensures Valid() && Stands(pid, host, Cleanup)
      ensures Continues(old(history), history, pid, [LifecycleProtocol.Leave(pid)])
    {
      hide Own, Behaviour, Continues;
      Others(pid);
      ghost var between := history;
      Go(pid, LifecycleProtocol.Leave(pid), Move(state, pid, state.processes[pid].(phase := Cleanup)));
      OneAfter(old(history), between, history, pid, LifecycleProtocol.Leave(pid));
    }

    method Close(pid: Pid, host: Host)
      requires Valid() && Stands(pid, host, Cleanup)
      modifies this
      ensures Valid() && Stands(pid, host, Outside)
      ensures Continues(old(history), history, pid, [LifecycleProtocol.Close(pid)])
    {
      hide Own, Behaviour, Continues;
      Others(pid);
      ghost var between := history;
      Go(pid, LifecycleProtocol.Close(pid),
         Move(state, pid, state.processes[pid].(phase := Outside, fd := None, holds := false)));
      OneAfter(old(history), between, history, pid, LifecycleProtocol.Close(pid));
    }
  }

  lemma RefusalSeen(filename: Host -> Name, a: History, b: History, c: History, pid: Pid, e: Event)
    requires Continues(a, b, pid, []) && Continues(b, c, pid, [e]) && a.states != []
    requires Refuses(filename, b.states[|b.states| - 1], pid)
    ensures RefusedIn(filename, c, |a.states| - 1, pid)
  {
    hide Own, Refuses;
    assert c.states[|b.states| - 1] == b.states[|b.states| - 1];
  }

  lemma CompareStep(filename: Host -> Name, s: State, pid: Pid)
    requires Running(s, pid, Revalidated)
    ensures var name := filename(s.processes[pid].host);
            var same := name in s.names && s.processes[pid].fd == Some(s.names[name]);
            Step(filename, s, Compare(pid), Move(s, pid, s.processes[pid].(phase := if same then InBody else Cleanup)))
  {
  }

  lemma OneAfter(a: History, b: History, c: History, pid: Pid, e: Event)
    requires Continues(a, b, pid, []) && Continues(b, c, pid, [e])
    ensures Continues(a, c, pid, [e])
  {
    ContinuesOn(a, b, c, pid, [], [e]);
    assert [] + [e] == [e];
  }

  lemma KeepsOthers(filename: Host -> Name, s: State, e: Event, s': State, pid: Pid)
    requires Step(filename, s, e, s') && !By(e, pid)
    ensures pid in s'.processes <==> pid in s.processes
    ensures pid in s'.processes ==> s'.processes[pid] == s.processes[pid]
  {
    if !Foreign(e) { OthersKept(filename, s, e, s'); }
  }

  lemma RefusalFrom(filename: Host -> Name, h: History, start: nat, earlier: nat, pid: Pid)
    requires earlier <= start && RefusedIn(filename, h, start, pid)
    ensures RefusedIn(filename, h, earlier, pid)
  {
    hide Refuses;
  }

  datatype Error = Busy | Unsafe | Release

  /** What leaves the with statement. */
  datatype Outcome<+E> = Completed | LockError(error: Error) | BodyError(raised: E)

  /** Which system calls work, apart from what the files themselves decide, and how the body
      ends; None is a body without an exception, BaseException included otherwise. */
  datatype Faults<+E> = Faults(
    directoryOpens: bool, directorySafe: bool, fileOpens: bool, fileReads: bool, flockWorks: bool,
    fileReadsAgain: bool, statWorks: bool, body: Option<E>, fileCloses: bool, directoryCloses: bool)

  datatype Descriptor = Directory | LockFile

  predicate AllWork<E>(f: Faults<E>) {
    && f.directoryOpens && f.directorySafe && f.fileOpens && f.fileReads && f.flockWorks && f.fileReadsAgain
    && f.statWorks
  }

  /** The steps of an acquisition, in order. */
  predicate Nth(e: Event, i: nat, pid: Pid, host: Host) {
    match i
    case 0 => e == Enter(pid, host)
    case 1 => e == OpenDirectory(pid)
    case 2 => e.OpenFile? && e.pid == pid
    case 3 => e == Validate(pid)
    case 4 => e == Flock(pid)
    case 5 => e == Revalidate(pid)
    case 6 => e == Compare(pid)
    case _ => false
  }

  predicate InSteps(trail: seq<Event>, from: nat, pid: Pid, host: Host) {
    forall i | 0 <= i < |trail| :: Nth(trail[i], from + i, pid, host)
  }

  class Invocation<E> {
    const system: System
    const pid: Pid
    const host: Host
    const faults: Faults<E>
    var directoryFd: bool
    var lockFd: bool
    var bodyEntered: bool
    var bodyRaised: bool
    /** Descriptors closed so far, in order. */
    var closed: seq<Descriptor>

    constructor (system: System, pid: Pid, host: Host, faults: Faults<E>)
      ensures this.system == system && this.pid == pid && this.host == host && this.faults == faults
      ensures !directoryFd && !lockFd && !bodyEntered && !bodyRaised && closed == []
    {
      this.system, this.pid, this.host, this.faults := system, pid, host, faults;
      directoryFd, lockFd, bodyEntered, bodyRaised, closed := false, false, false, false, [];
    }

    /** A system call raises: the process goes to its cleanup. */
    method Raise(phase: Phase) returns (error: Option<Error>, ghost trail: seq<Event>)
      requires system.Valid() && system.Stands(pid, host, phase) && !phase.InBody?
      modifies system
      ensures system.Valid() && system.Stands(pid, host, Cleanup) && error == Some(Unsafe)
      ensures Continues(old(system.history), system.history, pid, trail) && trail == [Fail(pid)]
    {
      hide Continues;
      system.Fail(pid, host, phase);
      error, trail := Some(Unsafe), [Fail(pid)];
    }

    method OpenAll() returns (error: Option<Error>, ghost trail: seq<Event>)
      requires system.Valid() && (pid in system.state.processes ==> Running(system.state, pid, Outside))
      requires !directoryFd && !lockFd
      modifies this`directoryFd, this`lockFd, system
      ensures system.Valid() && Continues(old(system.history), system.history, pid, trail)
      ensures system.Stands(pid, host, if error.None? then FileOpen else Cleanup)
      ensures error.None? <==> faults.directoryOpens && faults.directorySafe && faults.fileOpens
      ensures error.Some? ==> error == Some(Unsafe) && 0 < |trail| && trail[|trail| - 1] == Fail(pid)
      ensures old(system.history).states < system.history.states
      ensures error.None? ==> |trail| == 3 && InSteps(trail, 0, pid, host)
      ensures directoryFd == faults.directoryOpens
      ensures lockFd == (faults.directoryOpens && faults.directorySafe && faults.fileOpens)
    {
      hide Continues, InSteps;
      ghost var start := system.history;
      system.Enter(pid, host);
      ghost var entered := system.history;
      trail := [Enter(pid, host)];
      if !faults.directoryOpens {
        ghost var here, last := system.history, [];
        error, last := Raise(Outside);
        Longer(entered, system.history, pid, last);
        ContinuesOn(start, here, system.history, pid, trail, last);
        trail := trail + last;
        return;
      }
      ghost var here := system.history;
      system.OpenDirectory(pid, host);
      ContinuesOn(start, here, system.history, pid, trail, [OpenDirectory(pid)]);
      Longer(here, system.history, pid, [OpenDirectory(pid)]);
      trail := trail + [OpenDirectory(pid)];
      directoryFd := true;
      here := system.history;
      if !faults.directorySafe || !faults.fileOpens {
        ghost var last;
        error, last := Raise(DirectoryOpen);
        Longer(here, system.history, pid, last);
        ContinuesOn(start, here, system.history, pid, trail, last);
        trail := trail + last;
        return;
      }
      ghost var file := system.OpenFile(pid, host);
      ContinuesOn(start, here, system.history, pid, trail, [file]);
      Longer(here, system.history, pid, [file]);
      trail := trail + [file];
      FirstSteps(pid, host, file);
      lockFd := true;
      error := None;
    }

    /** Validating and locking: busy exactly if flock finds another holder. */
    method LockFileOpened() returns (error: Option<Error>, ghost trail: seq<Event>)
      requires system.Valid() && system.Stands(pid, host, FileOpen)
      modifies system
      ensures system.Valid() && Continues(old(system.history), system.history, pid, trail)
      ensures system.Stands(pid, host, if error.None? then Flocked else Cleanup)
      ensures error.None? ==> faults.fileReads && faults.flockWorks
      ensures error.None? ==>
        AllowedIn(system.filename, system.history, |old(system.history).states| - 1, pid, FileOpen)
      ensures error.None? || error == Some(Busy) ==> trail == [Validate(pid), Flock(pid)]
      ensures error == Some(Unsafe) ==>
        && trail != [] && trail[|trail| - 1] == Fail(pid)
        && (!faults.fileReads || !faults.flockWorks
            || RefusedIn(system.filename, system.history, |old(system.history).states| - 1, pid))
      ensures error.Some? ==> error.value.Busy? || error.value.Unsafe?
    {
      hide Continues, RefusedIn, AllowedIn;
      ghost var start := system.history;
      if !faults.fileReads {
        error, trail := Raise(FileOpen);
        return;
      }
      var ok := system.Check(pid, host, FileOpen, Validated);
      if !ok { return Some(Unsafe), [Fail(pid)]; }
      trail := [Validate(pid)];
      ghost var here := system.history;
      if !faults.flockWorks {
        ghost var last;
        error, last := Raise(Validated);
        ContinuesOn(start, here, system.history, pid, trail, last);
        trail := trail + last;
        return;
      }
      var granted := system.Flock(pid, host);
      ContinuesOn(start, here, system.history, pid, trail, [Flock(pid)]);
      trail := trail + [Flock(pid)];
      Longer(here, system.history, pid, [Flock(pid)]);
      AllowedKept(system.filename, here, system.history, |start.states| - 1, |start.states| - 1, pid, FileOpen);
      error := if granted then None else Some(Busy);
    }

    /** The checks under the lock: the file as it is now, and where its name leads. */
    method Recheck() returns (error: Option<Error>, ghost trail: seq<Event>)
      requires system.Valid() && system.Stands(pid, host, Flocked)
      modifies system
      ensures system.Valid() && Continues(old(system.history), system.history, pid, trail)
      ensures system.Stands(pid, host, if error.None? then InBody else Cleanup)
      ensures error.None? ==> faults.fileReadsAgain && faults.statWorks && trail == [Revalidate(pid), Compare(pid)]
      ensures error.None? ==>
        && AllowedIn(system.filename, system.history, |old(system.history).states| - 1, pid, Flocked)
        && AllowedIn(system.filename, system.history, |old(system.history).states| - 1, pid, Revalidated)
      ensures error.Some? ==>
        && error == Some(Unsafe) && trail != [] && !trail[|trail| - 1].Flock?
        && (!faults.fileReadsAgain || !faults.statWorks
            || RefusedIn(system.filename, system.history, |old(system.history).states| - 1, pid))
    {
      hide Continues, RefusedIn, AllowedIn;
      ghost var start := system.history;
      if !faults.fileReadsAgain {
        error, trail := Raise(Flocked);
        return;
      }
      var ok := system.Check(pid, host, Flocked, Revalidated);
      if !ok { return Some(Unsafe), [Fail(pid)]; }
      trail := [Revalidate(pid)];
      ghost var here := system.history;
      if !faults.statWorks {
        ghost var last;
        error, last := Raise(Revalidated);
        ContinuesOn(start, here, system.history, pid, trail, last);
        trail := trail + last;
        return;
      }
      var same := system.Compare(pid, host);
      ContinuesOn(start, here, system.history, pid, trail, [Compare(pid)]);
      trail := trail + [Compare(pid)];
      Longer(start, here, pid, [Revalidate(pid)]);
      Longer(here, system.history, pid, [Compare(pid)]);
      AllowedKept(system.filename, here, system.history, |start.states| - 1, |start.states| - 1, pid, Flocked);
      if same {
        AllowedKept(system.filename, system.history, system.history, |here.states| - 1, |start.states| - 1, pid,
                    Revalidated);
      } else {
        RefusalFrom(system.filename, system.history, |here.states| - 1, |start.states| - 1, pid);
      }
      error := if same then None else Some(Unsafe);
    }

    /** The acquisition up to flock. */
    method OpenAndLock() returns (error: Option<Error>, ghost trail: seq<Event>)
      requires system.Valid() && (pid in system.state.processes ==> Running(system.state, pid, Outside))
      requires !directoryFd && !lockFd
      modifies this`directoryFd, this`lockFd, system
      ensures system.Valid() && Continues(old(system.history), system.history, pid, trail)
      ensures old(system.history).states < system.history.states
      ensures system.Stands(pid, host, if error.None? then Flocked else Cleanup)
      ensures error.None? ==>
        && faults.directoryOpens && faults.directorySafe && faults.fileOpens && faults.fileReads && faults.flockWorks
        && AllowedIn(system.filename, system.history, |old(system.history).states| - 1, pid, FileOpen)
      ensures error.None? || error == Some(Busy) ==> |trail| == 5 && trail[4].Flock? && InSteps(trail, 0, pid, host)
      ensures error == Some(Unsafe) ==>
        && trail != [] && !trail[|trail| - 1].Flock?
        && (!AllWork(faults) || RefusedIn(system.filename, system.history, |old(system.history).states| - 1, pid))
      ensures error.Some? ==> error.value.Busy? || error.value.Unsafe?
      ensures directoryFd == faults.directoryOpens
      ensures lockFd == (faults.directoryOpens && faults.directorySafe && faults.fileOpens)
    {
      hide Continues, RefusedIn, AllowedIn, InSteps;
      ghost var start := system.history;
      error, trail := OpenAll();
      if error.Some? { return; }
      ghost var here, more := system.history, [];
      Longer(start, here, pid, trail);
      error, more := LockFileOpened();
      Longer(here, system.history, pid, more);
      ContinuesOn(start, here, system.history, pid, trail, more);
      if error == Some(Unsafe) && faults.fileReads && faults.flockWorks {
        RefusalFrom(system.filename, system.history, |here.states| - 1, |start.states| - 1, pid);
      }
      if error.None? {
        AllowedKept(system.filename, system.history, system.history, |here.states| - 1, |start.states| - 1, pid,
                    FileOpen);
      }
      ThenLocked(trail, more, pid, host);
      trail := trail + more;
    }

    /** Opening, validating, locking and rechecking. Success means that every call has worked,
        that each of the three checks has allowed this process on, and that it has taken the
        seven steps of the protocol into its body; busy, that its flock met another holder; and
        anything else has a cause. */
    method Acquire() returns (error: Option<Error>, ghost trail: seq<Event>)
      requires system.Valid() && (pid in system.state.processes ==> Running(system.state, pid, Outside))
      requires !directoryFd && !lockFd
      modifies this`directoryFd, this`lockFd, system
      ensures system.Valid() && Continues(old(system.history), system.history, pid, trail)
      ensures system.Stands(pid, host, if error.None? then InBody else Cleanup)
      ensures error.None? ==> AllWork(faults) && |trail| == 7 && InSteps(trail, 0, pid, host)
      ensures error.None? ==> AllChecked(system.filename, system.history, |old(system.history).states| - 1, pid)
      ensures old(system.history).states < system.history.states
      ensures error == Some(Busy) <==> trail != [] && trail[|trail| - 1].Flock?
      ensures error == Some(Busy) ==> |trail| == 5 && InSteps(trail, 0, pid, host)
      ensures error == Some(Unsafe) ==>
        !AllWork(faults) || RefusedIn(system.filename, system.history, |old(system.history).states| - 1, pid)
      ensures error.Some? ==> error.value.Busy? || error.value.Unsafe?
      ensures directoryFd == faults.directoryOpens
      ensures lockFd == (faults.directoryOpens && faults.directorySafe && faults.fileOpens)
    {
      hide Continues, RefusedIn, AllowedIn, AllChecked, InSteps;
      ghost var start := system.history;
      error, trail := OpenAndLock();
      if error.Some? { return; }
      ghost var here, more := system.history, [];
      error, more := Recheck();
      Longer(here, system.history, pid, more);
      ContinuesOn(start, here, system.history, pid, trail, more);
      if error.None? {
        AllAllowed(system.filename, here, system.history, |start.states| - 1, pid);
      } else if faults.fileReadsAgain && faults.statWorks {
        RefusalFrom(system.filename, system.history, |here.states| - 1, |start.states| - 1, pid);
      }
      ThenRechecked(trail, more, pid, host);
      trail := trail + more;
    }

    method CloseAll() returns (failed: bool)
      requires system.Valid() && system.Stands(pid, host, Cleanup)
      modifies this`closed, system
      ensures system.Valid() && old(system.history).states <= system.history.states
      ensures closed == old(closed) + (if lockFd then [LockFile] else [])
                        + (if directoryFd then [Directory] else [])
      ensures failed <==> (lockFd && !faults.fileCloses) || (directoryFd && !faults.directoryCloses)
      ensures system.Stands(pid, host, if lockFd && !faults.fileCloses then Cleanup else Outside)
    {
      failed := false;
      var descriptors := [(LockFile, lockFd, faults.fileCloses), (Directory, directoryFd, faults.directoryCloses)];
      for i := 0 to |descriptors|
        invariant closed == old(closed) + (if i >= 1 && lockFd then [LockFile] else [])
                            + (if i >= 2 && directoryFd then [Directory] else [])
        invariant failed <==> (i >= 1 && lockFd && !faults.fileCloses)
                              || (i >= 2 && directoryFd && !faults.directoryCloses)
        invariant system.history == old(system.history) && system.state == old(system.state)
      {
        var (descriptor, open, closes) := descriptors[i];
        if open {
          closed := closed + [descriptor];
          if !closes && !failed { failed := true; }
        }
      }
      if !(lockFd && !faults.fileCloses) { system.Close(pid, host); }
    }

    /** The body, with whatever others do meanwhile. */
    method RunBody(ghost start: History)
      requires system.Valid() && system.Stands(pid, host, InBody) && start.states < system.history.states
      modifies this`bodyEntered, this`bodyRaised, system
      ensures system.Valid() && system.Stands(pid, host, Cleanup) && old(system.history).states <= system.history.states
      ensures bodyEntered && bodyRaised == faults.body.Some?
      ensures EnteredIn(system.history, |start.states|, pid, host)
    {
      hide Continues, Behaviour;
      ghost var inside := system.history;
      bodyEntered := true;
      system.Others(pid);
      Longer(inside, system.history, pid, []);
      ghost var here := system.history;
      system.Leave(pid, host);
      Longer(here, system.history, pid, [Leave(pid)]);
      bodyRaised := faults.body.Some?;
      assert system.history.states[|inside.states| - 1] == inside.states[|inside.states| - 1];
    }

    /** The with statement. Its body runs if and only if the protocol lets it in; every opened
        descriptor is closed once, the lock first; an acquisition error or an exception of the
        body is never replaced by a failing close, and a failing close after a completed body is
        reported. */
    method Use() returns (outcome: Outcome<E>)
      requires system.Valid() && (pid in system.state.processes ==> Running(system.state, pid, Outside))
      requires !directoryFd && !lockFd && !bodyEntered && !bodyRaised && closed == []
      modifies this, system
      ensures system.Valid() && old(system.history).states <= system.history.states
      ensures bodyEntered ==>
        && AllWork(faults) && EnteredIn(system.history, |old(system.history).states|, pid, host)
        && AllChecked(system.filename, system.history, |old(system.history).states| - 1, pid)
      ensures closed == (if lockFd then [LockFile] else []) + (if directoryFd then [Directory] else [])
      ensures directoryFd == faults.directoryOpens
      ensures lockFd == (faults.directoryOpens && faults.directorySafe && faults.fileOpens)
      ensures match outcome
              case LockError(Release) =>
                bodyEntered && faults.body.None? && !(faults.fileCloses && faults.directoryCloses)
              case LockError(Busy) => !bodyEntered
              case LockError(Unsafe) =>
                && !bodyEntered
                && (!AllWork(faults)
                    || RefusedIn(system.filename, system.history, |old(system.history).states| - 1, pid))
              case BodyError(raised) => bodyEntered && faults.body == Some(raised)
              case Completed => bodyEntered && faults.body.None? && faults.fileCloses && faults.directoryCloses
      ensures system.Stands(pid, host, if lockFd && !faults.fileCloses then Cleanup else Outside)
    {
      hide RefusedIn, EnteredIn, AllChecked, Continues, InSteps, Behaviour;
      ghost var start := system.history;
      ghost var trail;
      var error;
      error, trail := Acquire();
      Longer(start, system.history, pid, trail);
      ghost var inside := system.history;
      if error.None? { RunBody(start); }
      ghost var before := system.history;
      var closeFailed := CloseAll();
      if bodyEntered {
        EnteredKept(before, system.history, |start.states|, pid, host);
        CheckedKept(system.filename, inside, system.history, |start.states| - 1, pid);
      }
      if error == Some(Unsafe) && AllWork(faults) {
        RefusalKept(system.filename, inside, system.history, |start.states| - 1, pid);
      }
      if closeFailed && bodyEntered && !bodyRaised { return LockError(Release); }
      if error.Some? { return LockError(error.value); }
      outcome := if bodyRaised then BodyError(faults.body.value) else Completed;
    }
  }

  /** All three checks have allowed this process on, each in a state of its own. */
  ghost predicate AllChecked(filename: Host -> Name, h: History, start: nat, pid: Pid) {
    AllowedIn(filename, h, start, pid, FileOpen) && AllowedIn(filename, h, start, pid, Flocked)
    && AllowedIn(filename, h, start, pid, Revalidated)
  }

  /** At some point this process stood in its body. */
  ghost predicate EnteredIn(h: History, start: nat, pid: Pid, host: Host) {
    exists k | start <= k < |h.states| ::
      Running(h.states[k], pid, InBody) && h.states[k].processes[pid].host == host
  }

  lemma AllAllowed(filename: Host -> Name, a: History, b: History, start: nat, pid: Pid)
    requires a.states <= b.states && start < |a.states| && AllowedIn(filename, a, start, pid, FileOpen)
    requires AllowedIn(filename, b, |a.states| - 1, pid, Flocked)
    requires AllowedIn(filename, b, |a.states| - 1, pid, Revalidated)
    ensures AllChecked(filename, b, start, pid)
  {
    AllowedKept(filename, a, b, start, start, pid, FileOpen);
    AllowedKept(filename, b, b, |a.states| - 1, start, pid, Flocked);
    AllowedKept(filename, b, b, |a.states| - 1, start, pid, Revalidated);
  }

  lemma CheckedKept(filename: Host -> Name, a: History, b: History, start: nat, pid: Pid)
    requires a.states <= b.states && AllChecked(filename, a, start, pid)
    ensures AllChecked(filename, b, start, pid)
  {
    AllowedKept(filename, a, b, start, start, pid, FileOpen);
    AllowedKept(filename, a, b, start, start, pid, Flocked);
    AllowedKept(filename, a, b, start, start, pid, Revalidated);
  }

  lemma EnteredKept(a: History, b: History, start: nat, pid: Pid, host: Host)
    requires a.states <= b.states && EnteredIn(a, start, pid, host)
    ensures EnteredIn(b, start, pid, host)
  {
    var k :| start <= k < |a.states| && Running(a.states[k], pid, InBody) && a.states[k].processes[pid].host == host;
    assert b.states[k] == a.states[k];
  }

  lemma FirstSteps(pid: Pid, host: Host, file: Event)
    requires file.OpenFile? && file.pid == pid
    ensures InSteps([Enter(pid, host)] + [OpenDirectory(pid)] + [file], 0, pid, host)
  {
  }

  lemma ThenLocked(trail: seq<Event>, more: seq<Event>, pid: Pid, host: Host)
    requires |trail| == 3 && InSteps(trail, 0, pid, host)
    ensures more == [Validate(pid), Flock(pid)] ==> InSteps(trail + more, 0, pid, host)
  {
  }

  lemma ThenRechecked(trail: seq<Event>, more: seq<Event>, pid: Pid, host: Host)
    requires |trail| == 5 && InSteps(trail, 0, pid, host)
    ensures more == [Revalidate(pid), Compare(pid)] ==> InSteps(trail + more, 0, pid, host)
  {
  }

  /** Whatever invocations and surroundings do: as long as no body is exposed, no two bodies
      run for one device. */
  lemma SystemExclusive(system: System, k: nat)
    requires system.Valid() && AllQuiet(system.filename, system.history.states, system.history.events)
    requires k < |system.history.states|
    ensures Exclusive(system.filename, system.history.states[k])
  {
    MutualExclusion(system.filename, system.history.states, system.history.events, k);
  }

  lemma Longer(a: History, b: History, pid: Pid, trail: seq<Event>)
    requires Continues(a, b, pid, trail)
    ensures a.states <= b.states
  {
  }
}
