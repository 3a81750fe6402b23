/** The wait for the installed certificate to be served over live HTTPS. */
module LiveHttps {
  import opened Options

  type Der = seq<int>

  /** SSLCertVerificationError, any other SSLError, the connection and timeout errors that
      are worth another try, and every other OSError. */
  datatype NetError = Untrusted | TlsFailure | Retryable | HardFailure

  datatype Peer = Leaf(der: Der) | Failed(error: NetError)

  datatype Address = Address(number: int)

  datatype Entry =
    | Connected(at: int, timeout: int, address: Address, failure: Option<NetError>)
    | Handshook(at: int, timeout: int, peer: Peer)
    | Slept(at: int, duration: int)

  /** Clock, sockets and TLS; every reply and every delay is the environment's choice.
      A sleep takes its duration, and at least one tick. */
  class Network {
    const elapsed: nat -> nat
    const connects: nat -> Option<NetError>
    const handshakes: nat -> Peer
    var calls: nat
    var now: int
    var log: seq<Entry>

    constructor (elapsed: nat -> nat, connects: nat -> Option<NetError>, handshakes: nat -> Peer, now: int)
      ensures this.elapsed == elapsed && this.connects == connects && this.handshakes == handshakes
      ensures calls == 0 && this.now == now && log == []
    {
      this.elapsed, this.connects, this.handshakes := elapsed, connects, handshakes;
      this.calls, this.now, this.log := 0, now, [];
    }

    method Pass()
      modifies this`calls, this`now
      ensures calls == old(calls) + 1 && now == old(now) + elapsed(old(calls))
    {
      now := now + elapsed(calls);
      calls := calls + 1;
    }

    method Monotonic() returns (t: int)
      modifies this`calls, this`now
      ensures t == now == old(now) + elapsed(old(calls)) && calls == old(calls) + 1
    {
      Pass();
      t := now;
    }

    method Connect(at: int, timeout: int, address: Address) returns (failure: Option<NetError>)
      modifies this
      ensures now >= old(now) && calls == old(calls) + 1 && failure == connects(|old(log)|)
      ensures log == old(log) + [Connected(at, timeout, address, failure)]
    {
      failure := connects(|log|);
      log := log + [Connected(at, timeout, address, failure)];
      Pass();
    }

    method Handshake(at: int, timeout: int) returns (peer: Peer)
      modifies this
      ensures now >= old(now) && calls == old(calls) + 1 && peer == handshakes(|old(log)|)
      ensures log == old(log) + [Handshook(at, timeout, peer)]
    {
      peer := handshakes(|log|);
      log := log + [Handshook(at, timeout, peer)];
      Pass();
    }

    method Sleep(at: int, duration: int)
      requires duration >= 0
      modifies this
      ensures now >= old(now) + duration && now >= old(now) + 1 && calls == old(calls) + 1
      ensures log == old(log) + [Slept(at, duration)]
    {
      log := log + [Slept(at, duration)];
      now := now + (if duration > 1 then duration else 1);
      Pass();
    }
  }

  function Min(a: int, b: int): int { if a < b then a else b }

  /** An entry after which the run must not touch the network again: a failure that no
      retry can cure, or the expected certificate. */
  predicate Final(e: Entry, expected: Der) {
    match e
    case Connected(_, _, _, failure) => failure.Some? && !failure.value.Retryable?
    case Handshook(_, _, peer) => if peer.Leaf? then peer.der == expected else !peer.error.Retryable?
    case Slept(_, _) => false
  }

  /** As much as was asked for, clipped to the time left. */
  predicate Clipped(granted: int, asked: int, left: int) {
    granted <= asked && granted <= left && (granted == asked || granted == left)
  }

  /** Before the deadline, every timeout is the socket timeout and every sleep the retry
      delay, clipped to the time that was left then. */
  predicate Timely(e: Entry, deadline: int, socketTimeout: int, retryDelay: int) {
    match e
    case Connected(at, timeout, _, _) => at < deadline && Clipped(timeout, socketTimeout, deadline - at)
    case Handshook(at, timeout, _) => at < deadline && Clipped(timeout, socketTimeout, deadline - at)
    case Slept(at, duration) => at < deadline && Clipped(duration, retryDelay, deadline - at)
  }

  ghost predicate AllTimely(log: seq<Entry>, deadline: int, socketTimeout: int, retryDelay: int) {
    forall i | 0 <= i < |log| :: Timely(log[i], deadline, socketTimeout, retryDelay)
  }

  ghost predicate NoneFinal(log: seq<Entry>, expected: Der) {
    forall i | 0 <= i < |log| :: !Final(log[i], expected)
  }

  /** Only the last entry may be final. */
  ghost predicate FinalEnds(log: seq<Entry>, expected: Der) {
    log != [] ==> NoneFinal(log[..|log| - 1], expected)
  }

  function Sleeps(log: seq<Entry>): nat {
    if log == [] then 0
    else Sleeps(log[..|log| - 1]) + if log[|log| - 1].Slept? then 1 else 0
  }

  lemma SleepsOneMore(log: seq<Entry>, e: Entry)
    ensures Sleeps(log + [e]) == Sleeps(log) + if e.Slept? then 1 else 0
  {
    assert (log + [e])[..|log + [e]| - 1] == log;
  }

  lemma SleepKeeps(log: seq<Entry>, e: Entry, deadline: int, socketTimeout: int, retryDelay: int, expected: Der)
    requires AllTimely(log, deadline, socketTimeout, retryDelay) && NoneFinal(log, expected)
    requires e.Slept? && Timely(e, deadline, socketTimeout, retryDelay)
    ensures AllTimely(log + [e], deadline, socketTimeout, retryDelay) && NoneFinal(log + [e], expected)
    ensures Sleeps(log + [e]) == Sleeps(log) + 1
  {
    SleepsOneMore(log, e);
  }

  // ---- Rounds: every address in turn, then a sleep ----

  /** The addresses tried since the last sleep. */
  function RoundOf(log: seq<Entry>): seq<Address> {
    if log == [] || log[|log| - 1].Slept? then []
    else
      var last := log[|log| - 1];
      RoundOf(log[..|log| - 1]) + if last.Connected? then [last.address] else []
  }

  /** A round is over once every address has failed, or one has shown a certificate. */
  predicate RoundOver(log: seq<Entry>, addresses: seq<Address>) {
    RoundOf(log) == addresses || (log != [] && log[|log| - 1].Handshook? && log[|log| - 1].peer.Leaf?)
  }

  /** Addresses are tried in their order, and none is skipped before a sleep. */
  ghost predicate InTurn(log: seq<Entry>, addresses: seq<Address>) {
    && (forall k | 0 <= k <= |log| :: RoundOf(log[..k]) <= addresses)
    && (forall k | 0 <= k < |log| && log[k].Slept? :: RoundOver(log[..k], addresses))
  }

  lemma RoundSnoc(log: seq<Entry>, e: Entry)
    ensures RoundOf(log + [e])
         == if e.Slept? then [] else RoundOf(log) + if e.Connected? then [e.address] else []
  {
    assert (log + [e])[..|log|] == log;
  }

  lemma InTurnSnoc(log: seq<Entry>, e: Entry, addresses: seq<Address>)
    requires InTurn(log, addresses) && RoundOf(log + [e]) <= addresses
    requires e.Slept? ==> RoundOver(log, addresses)
    ensures InTurn(log + [e], addresses)
  {
    hide RoundOf, RoundOver;
    forall k | 0 <= k <= |log| + 1 ensures RoundOf((log + [e])[..k]) <= addresses {
      assert (log + [e])[..k] == if k <= |log| then log[..k] else log + [e];
    }
    forall k | 0 <= k < |log| + 1 && (log + [e])[k].Slept? ensures RoundOver((log + [e])[..k], addresses) {
      assert (log + [e])[..k] == log[..k] && log[..|log|] == log;
    }
  }

  lemma NothingTried(addresses: seq<Address>)
    ensures InTurn([], addresses) && RoundOf([]) == []
  {
  }

  /** What one entry of address i does to the round. */
  lemma Tried(log: seq<Entry>, e: Entry, addresses: seq<Address>, i: nat)
    requires InTurn(log, addresses) && i < |addresses| && !e.Slept?
    requires RoundOf(log) == addresses[..if e.Connected? then i else i + 1]
    requires e.Connected? ==> e.address == addresses[i]
    ensures InTurn(log + [e], addresses) && RoundOf(log + [e]) == addresses[..i + 1]
  {
    RoundSnoc(log, e);
    InTurnSnoc(log, e, addresses);
  }

  lemma LeafOver(log: seq<Entry>, der: Der, addresses: seq<Address>)
    requires Presented(log, der)
    ensures RoundOver(log, addresses)
  {
  }

  lemma SleepTurns(log: seq<Entry>, e: Entry, addresses: seq<Address>)
    requires InTurn(log, addresses) && e.Slept? && RoundOver(log, addresses)
    ensures InTurn(log + [e], addresses) && RoundOf(log + [e]) == []
  {
    RoundSnoc(log, e);
    InTurnSnoc(log, e, addresses);
  }

  /** Without a final entry nothing has been decided. */
  lemma NothingDecided(log: seq<Entry>, expected: Der)
    requires NoneFinal(log, expected)
    ensures FinalEnds(log, expected) && !Presented(log, expected)
    ensures forall e: NetError | Refused(log, e) :: e.Retryable?
  {
  }

  /** The last entry tells one thing only. */
  lemma Excludes(log: seq<Entry>, expected: Der)
    ensures forall e: NetError | Refused(log, e) :: !Presented(log, expected)
    ensures forall e: NetError, f: NetError | Refused(log, e) && Refused(log, f) :: e == f
    ensures NoneFinal(log, expected) ==> !Presented(log, expected)
    ensures NoneFinal(log, expected) ==> forall e: NetError | Refused(log, e) :: e.Retryable?
  {
  }

  lemma NothingLogged(deadline: int, socketTimeout: int, retryDelay: int, expected: Der)
    ensures AllTimely([], deadline, socketTimeout, retryDelay) && NoneFinal([], expected) && Sleeps([]) == 0
    ensures FinalEnds([], expected) && !Presented([], expected) && forall e: NetError :: !Refused([], e)
  {
  }

  /** _live_https_timeout: None is a TimeoutError. */
  method GrantTimeout(net: Network, deadline: int, socketTimeout: int) returns (timeout: Option<int>)
    requires socketTimeout > 0
    modifies net`calls, net`now
    ensures net.now >= old(net.now)
    ensures timeout.None? <==> net.now >= deadline
    ensures timeout.Some? ==> Clipped(timeout.value, socketTimeout, deadline - net.now)
    ensures net.calls == old(net.calls) + 1
  {
    var now := net.Monotonic();
    var remaining := deadline - now;
    if remaining <= 0 { return None; }
    timeout := Some(Min(socketTimeout, remaining));
  }

  /** One address: connect, handshake, and a last look at the clock. */
  method TryAddress(net: Network, addresses: seq<Address>, i: nat, deadline: int, socketTimeout: int,
                    ghost retryDelay: int, ghost expected: Der)
      returns (peer: Peer)
    requires socketTimeout > 0 && i < |addresses|
    requires InTurn(net.log, addresses) && RoundOf(net.log) == addresses[..i]
    requires AllTimely(net.log, deadline, socketTimeout, retryDelay) && NoneFinal(net.log, expected)
    modifies net
    ensures net.now >= old(net.now) && Sleeps(net.log) == Sleeps(old(net.log))
    ensures AllTimely(net.log, deadline, socketTimeout, retryDelay) && FinalEnds(net.log, expected)
    ensures peer.Leaf? ==> net.now < deadline && Presented(net.log, peer.der)
    ensures peer.Failed? && !peer.error.Retryable? ==> Refused(net.log, peer.error)
    ensures NoneFinal(net.log, expected) || Presented(net.log, expected)
            || (peer.Failed? && !peer.error.Retryable?)
    ensures Presented(net.log, expected) ==> peer == Leaf(expected) || net.now >= deadline
    ensures InTurn(net.log, addresses) && RoundOf(net.log) <= addresses
    ensures net.now < deadline ==> RoundOf(net.log) == addresses[..i + 1]
    ensures |net.log| >= |old(net.log)| && (|net.log| == |old(net.log)| ==> net.now >= deadline)
    ensures net.calls <= old(net.calls) + if |net.log| > |old(net.log)| then 5 else 1
  {
    hide Sleeps, InTurn, RoundOf;
    var timeout := GrantTimeout(net, deadline, socketTimeout);
    if timeout.None? { return Failed(Retryable); }
    ghost var entry := Connected(net.now, timeout.value, addresses[i], net.connects(|net.log|));
    SleepsOneMore(net.log, entry);
    Tried(net.log, entry, addresses, i);
    var failure := net.Connect(net.now, timeout.value, addresses[i]);
    if failure.Some? { return Failed(failure.value); }
    timeout := GrantTimeout(net, deadline, socketTimeout);
    if timeout.None? { return Failed(Retryable); }
    entry := Handshook(net.now, timeout.value, net.handshakes(|net.log|));
    SleepsOneMore(net.log, entry);
    Tried(net.log, entry, addresses, i);
    peer := net.Handshake(net.now, timeout.value);
    if peer.Failed? { return; }
    timeout := GrantTimeout(net, deadline, socketTimeout);
    if timeout.None? { return Failed(Retryable); }
  }

  /** The last entry is a handshake that showed this certificate. */
  predicate Presented(log: seq<Entry>, der: Der) {
    log != [] && log[|log| - 1].Handshook? && log[|log| - 1].peer == Leaf(der)
  }

  /** The last entry failed with this error. */
  predicate Refused(log: seq<Entry>, error: NetError) {
    && log != []
    && match log[|log| - 1]
       case Connected(_, _, _, failure) => failure == Some(error)
       case Handshook(_, _, peer) => peer == Failed(error)
       case Slept(_, _) => false
  }

  /** _read_live_https_leaf: the addresses in turn, as long as the errors are retryable and
      time is left. */
  method ReadLeaf(net: Network, addresses: seq<Address>, deadline: int, socketTimeout: int,
                  ghost retryDelay: int, ghost expected: Der)
      returns (peer: Peer)
    requires socketTimeout > 0 && InTurn(net.log, addresses) && RoundOf(net.log) == []
    requires AllTimely(net.log, deadline, socketTimeout, retryDelay) && NoneFinal(net.log, expected)
    modifies net
    ensures InTurn(net.log, addresses)
    ensures peer.Failed? && peer.error.Retryable? && net.now < deadline ==> RoundOf(net.log) == addresses
    ensures |net.log| >= |old(net.log)|
    ensures net.calls <= old(net.calls) + 6 * (|net.log| - |old(net.log)|) + 2
    ensures net.now >= old(net.now) && Sleeps(net.log) == Sleeps(old(net.log))
    ensures AllTimely(net.log, deadline, socketTimeout, retryDelay) && FinalEnds(net.log, expected)
    ensures peer.Leaf? ==> Presented(net.log, peer.der)
    ensures peer.Failed? && !peer.error.Retryable? ==> Refused(net.log, peer.error)
    ensures NoneFinal(net.log, expected) || Presented(net.log, expected)
            || (peer.Failed? && !peer.error.Retryable?)
    ensures Presented(net.log, expected) ==> peer == Leaf(expected) || net.now >= deadline
  {
    hide InTurn, RoundOf, AllTimely, NoneFinal, FinalEnds, Sleeps, Presented, Refused;
    NothingDecided(net.log, expected);
    for i := 0 to |addresses|
      invariant InTurn(net.log, addresses) && RoundOf(net.log) == addresses[..i]
      invariant |net.log| >= |old(net.log)| && net.calls <= old(net.calls) + 6 * (|net.log| - |old(net.log)|)
      invariant net.now >= old(net.now) && Sleeps(net.log) == Sleeps(old(net.log))
      invariant AllTimely(net.log, deadline, socketTimeout, retryDelay) && NoneFinal(net.log, expected)
    {
      peer := TryAddress(net, addresses, i, deadline, socketTimeout, retryDelay, expected);
      if peer.Leaf? { return; }
      if !peer.error.Retryable? { return; }
      var now := net.Monotonic();
      if deadline - now <= 0 { return; }
    }
    NothingDecided(net.log, expected);
    peer := Failed(Retryable);
  }

  datatype Verdict = Verified | InvalidArgument | Unresolved | NotTrusted | HandshakeFailed | ConnectionFailed | Expired

  /** verify_live_https_certificate, with the addresses the resolver delivered. */
  method VerifyLive(net: Network, addresses: Option<seq<Address>>, expected: Der,
                    window: int, retryDelay: int, socketTimeout: int)
      returns (verdict: Verdict, deadline: int)
    requires net.log == []
    modifies net
    ensures verdict.InvalidArgument? <==> !(window > 0 && retryDelay >= 0 && socketTimeout > 0)
    ensures verdict.InvalidArgument? ==> net.log == []
    // Success: the last thing the network showed is the expected certificate, in time.
    ensures verdict.Verified? <==> Presented(net.log, expected) && net.now < deadline
    // No verdict before its time: the window is used up unless an error ended the wait.
    ensures !verdict.InvalidArgument? ==> deadline == old(net.now) + net.elapsed(old(net.calls)) + window
    ensures verdict.Expired? ==> net.now >= deadline
    // Until then every address is tried in turn, round after round, and never without pause.
    ensures verdict.Unresolved? <==> !verdict.InvalidArgument? && addresses.None?
    ensures addresses.Some? ==> InTurn(net.log, addresses.value)
    ensures net.calls <= old(net.calls) + 6 * |net.log| + 8
    ensures verdict.NotTrusted? <==> Refused(net.log, Untrusted)
    ensures verdict.HandshakeFailed? <==> Refused(net.log, TlsFailure)
    ensures verdict.ConnectionFailed? <==> Refused(net.log, HardFailure)
    ensures AllTimely(net.log, deadline, socketTimeout, retryDelay)
    ensures FinalEnds(net.log, expected)
    ensures Sleeps(net.log) > 0 ==> Sleeps(net.log) <= net.now - old(net.now) && Sleeps(net.log) <= window
  {
    hide AllTimely, NoneFinal, FinalEnds, Presented, Refused, Sleeps, InTurn, RoundOf;
    deadline := net.now;
    if addresses.Some? { NothingTried(addresses.value); }
    NothingLogged(deadline, socketTimeout, retryDelay, expected);
    if !(window > 0 && retryDelay >= 0 && socketTimeout > 0) { return InvalidArgument, deadline; }
    var start := net.Monotonic();
    deadline := start + window;
    NothingLogged(deadline, socketTimeout, retryDelay, expected);
    if addresses.None? { return Unresolved, deadline; }
    while true
      invariant net.now >= start + Sleeps(net.log) && Sleeps(net.log) <= window
      invariant InTurn(net.log, addresses.value) && RoundOf(net.log) == []
      invariant net.calls <= old(net.calls) + 6 * |net.log| + 1
      invariant AllTimely(net.log, deadline, socketTimeout, retryDelay) && NoneFinal(net.log, expected)
      decreases deadline - net.now
    {
      var now := net.Monotonic();
      NothingDecided(net.log, expected);
      if deadline - now <= 0 { return Expired, deadline; }
      var peer := ReadLeaf(net, addresses.value, deadline, socketTimeout, retryDelay, expected);
      Excludes(net.log, expected);
      if peer.Leaf? {
        LeafOver(net.log, peer.der, addresses.value);
        if peer.der == expected {
          now := net.Monotonic();
          return (if deadline - now <= 0 then Expired else Verified), deadline;
        }
      } else if peer.error.Untrusted? {
        return NotTrusted, deadline;
      } else if peer.error.TlsFailure? {
        return HandshakeFailed, deadline;
      } else if peer.error.HardFailure? {
        return ConnectionFailed, deadline;
      }
      now := net.Monotonic();
      var remaining := deadline - now;
      if remaining <= 0 { return Expired, deadline; }
      SleepTurns(net.log, Slept(now, Min(retryDelay, remaining)), addresses.value);
      SleepKeeps(net.log, Slept(now, Min(retryDelay, remaining)), deadline, socketTimeout, retryDelay, expected);
      net.Sleep(now, Min(retryDelay, remaining));
    }
  }
}
