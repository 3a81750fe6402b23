/** The bounded CLI channel and its connection, which poison each other and are one
    object here: reads, the ANSI preflight, and budget scopes. */
module BoundedNetmiko {
  import opened Options
  import opened ReadBudget
  import A = AnsiText
  import B = Bytes
  import Numeral

  // sys.int_info.str_digits_check_threshold
  const DIGITS_CHECK_THRESHOLD := 640
  const FIRST_PRIVATE := 0xF0000
  const PRIVATE_END := 0x110000

  datatype Failure =
    | OutputLimit      // SSHOutputLimitError
    | PacketLimit      // SSHBinaryPacketLimitError
    | ReadFailed       // ReadException or WriteException, or the socket's own exception
    | BadBudget        // ValueError
    | NestedBudget     // RuntimeError
    | NoSentinel       // StopIteration

  datatype Result<+T> = Ok(value: T) | Raised(failure: Failure)

  predicate Taken(buffer: string, code: int)
    requires FIRST_PRIVATE <= code < PRIVATE_END
  {
    (code as char) in buffer
  }

  /** A buffer without a free private character is at least as long as the range. */
  lemma {:induction false} Pigeonhole(buffer: string, low: int, high: int)
    requires FIRST_PRIVATE <= low <= high <= PRIVATE_END
    requires forall k | low <= k < high :: Taken(buffer, k)
    ensures |buffer| >= high - low
    decreases high - low
  {
    if low < high {
      assert Taken(buffer, high - 1);
      var i :| 0 <= i < |buffer| && buffer[i] == (high - 1) as char;
      var others := buffer[..i] + buffer[i + 1..];
      forall k | low <= k < high - 1 ensures Taken(others, k) {
        assert Taken(buffer, k);
        var j :| 0 <= j < |buffer| && buffer[j] == k as char;
        assert others[if j < i then j else j - 1] == k as char;
      }
      Pigeonhole(others, low, high - 1);
    }
  }

  /** What the channel has answered. */
  datatype Answer = Ready(ready: bool) | Gave(raw: Result<B.bytes>) | Took(sent: Result<()>)

  /** The open SSH channel. The packet layer may overflow during any operation. */
  class Peer {
    var packetOverflow: bool
    var closed: bool
    /** Everything put to this channel, oldest first. */
    ghost var traffic: seq<Traffic>
    /** Everything it answered, oldest first. */
    ghost var answers: seq<Answer>

    method RecvReady() returns (ready: bool)
      modifies this`answers
      ensures answers == old(answers) + [Ready(ready)]
    {
      ready := *;
      answers := answers + [Ready(ready)];
    }

    method Recv(n: int) returns (r: Result<B.bytes>)
      requires n > 0
      modifies this`packetOverflow, this`traffic, this`answers
      ensures traffic == old(traffic) + [RecvRequest(n)] && answers == old(answers) + [Gave(r)]
      ensures r.Ok? ==> |r.value| <= n
      ensures r.Raised? ==> r.failure == ReadFailed
      ensures old(packetOverflow) ==> packetOverflow
    {
      traffic := traffic + [RecvRequest(n)];
      var overflow: bool := *;
      if overflow { packetOverflow := true; }
      var raw: B.bytes := *;
      r := if |raw| <= n then Ok(raw) else Raised(ReadFailed);
      answers := answers + [Gave(r)];
    }

    method Send() returns (r: Result<()>)
      modifies this`packetOverflow, this`traffic, this`answers
      ensures traffic == old(traffic) + [Sent] && answers == old(answers) + [Took(r)]
      ensures r.Raised? ==> r.failure == ReadFailed
      ensures old(packetOverflow) ==> packetOverflow
    {
      traffic := traffic + [Sent];
      var overflow: bool, works: bool := *, *;
      if overflow { packetOverflow := true; }
      r := if works then Ok(()) else Raised(ReadFailed);
      answers := answers + [Took(r)];
    }
  }

  /** What becomes of the octets of a recv, with so much left of the limit. */
  function Delivered(raw: Result<B.bytes>, overflow: bool, left: int): Result<B.bytes> {
    if overflow then Raised(PacketLimit)
    else if raw.Ok? && raw.value == [] then Raised(ReadFailed)
    else if raw.Ok? && |raw.value| > left then Raised(OutputLimit)
    else raw
  }

  /** A call on the connection, or what its surroundings do in between. */
  datatype Call =
    | Read | Write | Strip(text: string) | ChargeText(length: int)
    | Enter(budget: int) | Leave(bodyRaised: bool)
    | Retain(retained: Retained) | PacketLimitHit

  class BoundedArubaConnection {
    const peer: Peer
    const vendor: A.Vendor
    const maxBuffer: nat
    var limit: int
    var used: int
    var processedLimit: int
    var processedUsed: int
    /** The flag of the channel, and the one of the connection that owns it. */
    var channelPoisoned: bool
    var poisoned: bool
    var scope: Option<Saved>
    var readBuffer: Retained
    /** Everything that happened, as events of the read-budget machine. */
    ghost var history: seq<Event>
    /** The calls of PerformAll so far. */
    ghost var performed: seq<Call>

    constructor (peer: Peer, vendor: A.Vendor, maxBuffer: nat)
      requires maxBuffer > 0 && peer.traffic == []
      ensures this.peer == peer && this.vendor == vendor && this.maxBuffer == maxBuffer
      ensures Valid() && Now() == Initial && history == [] && performed == []
    {
      this.peer, this.vendor, this.maxBuffer := peer, vendor, maxBuffer;
      limit, used, processedLimit, processedUsed := SETUP_READ_BYTES, 0, SETUP_READ_BYTES, 0;
      channelPoisoned, poisoned, scope, readBuffer, history := false, false, None, Retained(0, 0), [];
      performed := [];
    }

    function Now(): Meter
      reads this
    {
      Meter(limit, used, processedLimit, processedUsed, channelPoisoned, poisoned, scope)
    }

    /** What has happened is a possible run of the machine, has led here, and has put to the
        peer what the peer has on record. */
    ghost predicate Valid()
      reads this, peer`traffic
    {
      && maxBuffer > 0 && PossibleRun(Initial, history, maxBuffer)
      && Now() == Run(Initial, history) && peer.traffic == AllTraffic(Initial, history, maxBuffer)
    }

    lemma ValidHealthy()
      requires Valid()
      ensures Healthy(Now()) && (!poisoned ==> 1 <= Request(Now(), maxBuffer) <= limit - used + 1)
    {
      RunHealthy(history, maxBuffer);
    }

    /** Putting an event on record, after the fields and the peer have taken its effect. */
    ghost method Record(e: Event, was: Meter)
      requires maxBuffer > 0 && PossibleRun(Initial, history, maxBuffer) && was == Run(Initial, history)
      requires peer.traffic == AllTraffic(Initial, history, maxBuffer) + TrafficOf(was, e, maxBuffer)
      requires Possible(was, e, maxBuffer) && Now() == Step(was, e)
      modifies this`history
      ensures Valid() && history == old(history) + [e]
    {
      RunSnoc(Initial, history, e, maxBuffer);
      history := history + [e];
    }

    /** _dispose_poisoned */
    method Dispose()
      modifies this`poisoned, peer`closed
      ensures poisoned && peer.closed
    {
      poisoned := true;
      peer.closed := true;
    }

    /** BoundedSSHChannel.poison */
    method PoisonChannel()
      modifies this`channelPoisoned, this`poisoned, peer`closed
      ensures channelPoisoned && poisoned && peer.closed
    {
      channelPoisoned := true;
      Dispose();
    }

    /** _require_healthy: an overflow of the packet layer poisons the connection. */
    method RequireHealthy() returns (r: Result<()>)
      requires Valid()
      modifies this`poisoned, this`history, peer`closed
      ensures Valid() && history == old(history) + (if peer.packetOverflow then [Overflow] else [])
      ensures peer.traffic == old(peer.traffic)
      ensures poisoned == (old(poisoned) || peer.packetOverflow)
      ensures r.Ok? <==> !poisoned
      ensures r.Raised? ==> r.failure == if peer.packetOverflow then PacketLimit else OutputLimit
    {
      if peer.packetOverflow {
        ghost var was := Now();
        Dispose();
        Record(Overflow, was);
        return Raised(PacketLimit);
      }
      ValidHealthy();
      if poisoned || channelPoisoned { return Raised(OutputLimit); }
      r := Ok(());
    }

    /** Octets are counted first and refused afterwards. */
    method ChargeReceived(n: nat) returns (fits: bool)
      requires Valid() && !poisoned && 1 <= n <= Request(Now(), maxBuffer)
      modifies this`channelPoisoned, this`poisoned, this`used, this`history, peer`closed
      ensures Valid() && history == old(history) + [Receive(n)]
      ensures Now() == Received(old(Now()), n) && fits == !poisoned
    {
      hide PossibleRun, Run, AllTraffic;
      ghost var was := Now();
      used := used + n;
      fits := used <= limit;
      if !fits { PoisonChannel(); }
      Record(Receive(n), was);
    }

    /** Nothing is asked of the peer once poisoned; one poll otherwise, and one bounded request
        if it has something. What it gives is passed on unless the packet layer overflowed,
        the channel has ended or the limit is exceeded. */
    method ReadBuffer() returns (r: Result<B.bytes>)
      requires Valid()
      modifies this`channelPoisoned, this`poisoned, this`used, this`history, peer
      ensures Valid() && old(history) <= history
      ensures (r.Raised? && r.failure.OutputLimit?) || peer.packetOverflow ==> poisoned
      ensures old(peer.packetOverflow) ==> peer.packetOverflow
      ensures if old(poisoned) || old(peer.packetOverflow) then
                && peer.answers == old(peer.answers) && peer.traffic == old(peer.traffic) && used == old(used)
                && r == Raised(if old(peer.packetOverflow) then PacketLimit else OutputLimit)
              else if |peer.answers| == |old(peer.answers)| + 1 then
                && peer.answers == old(peer.answers) + [Ready(false)] && peer.traffic == old(peer.traffic)
                && r == Ok([]) && Now() == old(Now())
              else
                && |peer.answers| == |old(peer.answers)| + 2 && peer.answers[|peer.answers| - 1].Gave?
                && var raw := peer.answers[|peer.answers| - 1].raw;
                && peer.answers == old(peer.answers) + [Ready(true), Gave(raw)]
                && peer.traffic == old(peer.traffic) + [RecvRequest(Request(old(Now()), maxBuffer))]
                && 1 <= Request(old(Now()), maxBuffer) <= limit - old(used) + 1
                && r == Delivered(raw, peer.packetOverflow, limit - old(used))
                && Now() == if peer.packetOverflow then Disposed(old(Now()))
                            else if raw.Ok? && raw.value != [] then Received(old(Now()), |raw.value|)
                            else old(Now())
    {
      hide PossibleRun, Run, AllTraffic;
      var healthy := RequireHealthy();
      if healthy.Raised? { return Raised(healthy.failure); }
      ValidHealthy();
      var ready := peer.RecvReady();
      if !ready { return Ok([]); }
      var size := if maxBuffer < limit - used + 1 then maxBuffer else limit - used + 1;
      var raw := peer.Recv(size);
      Record(Ask, Now());
      healthy := RequireHealthy();
      if healthy.Raised? { return Raised(healthy.failure); }
      if raw.Raised? { return raw; }
      if raw.value == [] { return Raised(ReadFailed); }
      var fits := ChargeReceived(|raw.value|);
      r := if fits then raw else Raised(OutputLimit);
    }

    /** Health is asked before and after: nothing is sent once poisoned, and an
        overflow during the send is reported as such. */
    method WriteChannel() returns (r: Result<()>)
      requires Valid()
      modifies this`poisoned, this`history, peer
      ensures Valid() && old(history) <= history
      ensures old(peer.packetOverflow) ==> peer.packetOverflow
      ensures poisoned == (old(poisoned) || peer.packetOverflow)
      ensures if old(poisoned) || old(peer.packetOverflow) then
                && peer.answers == old(peer.answers) && peer.traffic == old(peer.traffic)
                && r == Raised(if old(peer.packetOverflow) then PacketLimit else OutputLimit)
              else
                && peer.traffic == old(peer.traffic) + [Sent]
                && |peer.answers| == |old(peer.answers)| + 1 && peer.answers[|peer.answers| - 1].Took?
                && var sent := peer.answers[|peer.answers| - 1].sent;
                && peer.answers == old(peer.answers) + [Took(sent)]
                && r == if peer.packetOverflow then Raised(PacketLimit) else sent
    {
      hide PossibleRun, Run, AllTraffic;
      r := RequireHealthy();
      if r.Raised? { return; }
      var sent := peer.Send();
      Record(Send, Now());
      r := RequireHealthy();
      if r.Ok? { r := sent; }
    }

    method ChargeProcessed(length: int) returns (r: Result<()>)
      requires Valid()
      modifies this`channelPoisoned, this`poisoned, this`processedUsed, this`history, peer`closed
      ensures Valid() && history == old(history) + [Charge(length)] && peer.traffic == old(peer.traffic)
      ensures Now() == Charged(old(Now()), length)
      ensures r == if 0 <= length && old(processedUsed) + length <= processedLimit then Ok(())
                   else Raised(OutputLimit)
    {
      hide PossibleRun, Run, AllTraffic;
      ghost var was := Now();
      if length < 0 || processedUsed + length > processedLimit {
        PoisonChannel();
        Record(Charge(length), was);
        return Raised(OutputLimit);
      }
      processedUsed := processedUsed + length;
      Record(Charge(length), was);
      r := Ok(());
    }

    /** A private-use character that the buffer does not contain. */
    method Sentinel(buffer: string) returns (c: Option<char>)
      ensures c.Some? ==> A.PrivateUse(c.value) && c.value !in buffer
      ensures c.None? ==> |buffer| >= PRIVATE_END - FIRST_PRIVATE
    {
      var code := FIRST_PRIVATE;
      while code < PRIVATE_END
        invariant FIRST_PRIVATE <= code <= PRIVATE_END
        invariant forall k | FIRST_PRIVATE <= k < code :: Taken(buffer, k)
      {
        if (code as char) !in buffer { return Some(code as char); }
        code := code + 1;
      }
      Pigeonhole(buffer, FIRST_PRIVATE, PRIVATE_END);
      c := None;
    }

    /** The text in which the vendor will look for insert-line codes. */
    method SafeBuffer(buffer: string) returns (safe: Option<string>)
      requires A.Reviewed(vendor)
      ensures safe.None? ==> |buffer| >= PRIVATE_END - FIRST_PRIVATE
      ensures safe.Some? ==>
              && A.Count(vendor, safe.value, 0) == A.Count(vendor, vendor.removeOthers(buffer), 0)
              && (A.Count(vendor, safe.value, 0) > 0 ==> safe.value == vendor.removeOthers(buffer))
    {
      if 'L' in buffer {
        var sentinel := Sentinel(buffer);
        if sentinel.None? { return None; }
        A.SentinelExposes(vendor, buffer, sentinel.value);
        safe := Some(A.Rename(A.VendorStrip(vendor, A.Rename(buffer, 'L', sentinel.value)),
                                sentinel.value, 'L'));
      } else {
        A.NoMatchWithoutL(vendor, buffer, 0);
        assert 'L' !in vendor.removeOthers(buffer);
        A.NoMatchWithoutL(vendor, vendor.removeOthers(buffer), 0);
        safe := Some(buffer);
      }
    }

    /** The finditer loop: number and total length of the codes, and the first count. */
    method FindCodes(text: string) returns (codes: nat, length: nat, first: Option<string>)
      ensures codes == A.Count(vendor, text, 0) && length == A.MatchedLength(vendor, text, 0)
      ensures first == A.FirstDigits(vendor, text, 0)
    {
      codes, length, first := 0, 0, None;
      var i := 0;
      while i < |text|
        invariant i <= |text|
        invariant A.Count(vendor, text, 0) == codes + A.Count(vendor, text, i)
        invariant A.MatchedLength(vendor, text, 0) == length + A.MatchedLength(vendor, text, i)
        invariant A.FirstDigits(vendor, text, 0)
               == if first.Some? then first else A.FirstDigits(vendor, text, i)
        decreases |text| - i
      {
        var end := A.MatchEnd(vendor, text, i);
        if end.Some? {
          codes := codes + 1;
          length := length + (end.value - i);
          if first.None? { first := Some(text[i + 2..end.value - 1]); }
          i := end.value;
        } else {
          i := i + 1;
        }
      }
    }

    /** Netmiko's expansion. Building it is only allowed when the result fits. */
    method VendorExpand(buffer: string, ghost room: int) returns (output: string)
      requires A.Count(vendor, vendor.removeOthers(buffer), 0) > 0 ==>
               |A.VendorStrip(vendor, buffer)| <= room
      ensures output == A.VendorStrip(vendor, buffer)
    {
      output := A.VendorStrip(vendor, buffer);
    }

    lemma TooLong(base: nat, codes: nat, count: nat, remaining: int)
      requires base > remaining
      ensures base + codes * count > remaining
    {
    }

    /** The preflight: without codes there is nothing to expand; otherwise the exact length
        of the expansion is compared with what is left, without building it. */
    method Fits(buffer: string, safe: string, remaining: int) returns (fits: bool)
      requires A.Reviewed(vendor)
      requires A.Count(vendor, safe, 0) == A.Count(vendor, vendor.removeOthers(buffer), 0)
      requires A.Count(vendor, safe, 0) > 0 ==> safe == vendor.removeOthers(buffer)
      ensures var digits := A.FirstDigits(vendor, vendor.removeOthers(buffer), 0);
              if A.Count(vendor, safe, 0) == 0 then fits && digits.None?
              else
                digits.Some?
                && (fits <==> |A.VendorStrip(vendor, buffer)| <= remaining && |digits.value| <= DIGITS_CHECK_THRESHOLD)
    {
      A.VendorStripLength(vendor, buffer);
      var codes, length, first := FindCodes(safe);
      if codes == 0 { return true; }
      A.SubstituteLength(vendor, safe, 0, "");
      var base := |safe| - length;
      if base > remaining {
        TooLong(base, codes, A.CountOf(vendor, first.value), remaining);
        return false;
      }
      var maximumCount := (remaining - base) / codes;
      if |first.value| > DIGITS_CHECK_THRESHOLD { return false; }
      var digits := A.DigitValues(vendor, first.value);
      A.FitsDecided(base, codes, digits, remaining);
      fits := !Numeral.Exceeds(Numeral.Canonical(digits), Numeral.Print(10, maximumCount));
    }

    /** The preflight poisons instead of expanding. */
    method RefuseExpansion() returns (r: Result<string>)
      requires Valid()
      modifies this`channelPoisoned, this`poisoned, this`history, peer`closed
      ensures Valid() && history == old(history) + [Refuse] && peer.traffic == old(peer.traffic)
      ensures r == Raised(OutputLimit) && Now() == Poison(old(Now()))
    {
      hide PossibleRun, Run, AllTraffic;
      ghost var was := Now();
      PoisonChannel();
      Record(Refuse, was);
      r := Raised(OutputLimit);
    }

    /** strip_ansi_escape_codes: the expansion runs iff its exact length fits in the
        remaining processed budget and its count is short enough for int(). */
    method StripAnsi(buffer: string) returns (r: Result<string>)
      requires A.Reviewed(vendor) && Valid()
      modifies this`channelPoisoned, this`poisoned, this`processedUsed, this`history, peer`closed
      ensures Valid() && old(history) <= history && peer.traffic == old(peer.traffic)
      ensures peer.packetOverflow ==> r == Raised(PacketLimit) && Now() == Disposed(old(Now()))
      ensures old(poisoned) && !peer.packetOverflow ==> r == Raised(OutputLimit) && Now() == old(Now())
      ensures r.Raised? && r.failure.NoSentinel? ==>
              Now() == old(Now()) && |buffer| >= PRIVATE_END - FIRST_PRIVATE
      ensures var text, room := vendor.removeOthers(buffer), old(processedLimit - processedUsed);
              var digits := A.FirstDigits(vendor, text, 0);
              !old(poisoned) && !peer.packetOverflow && !(r.Raised? && r.failure.NoSentinel?) ==>
              && (r.Ok? <==>
                  && |A.VendorStrip(vendor, buffer)| <= room
                  && (digits.Some? ==> |digits.value| <= DIGITS_CHECK_THRESHOLD))
              && (r.Ok? ==>
                  && r.value == A.VendorStrip(vendor, buffer)
                  && Now() == Charged(old(Now()), |r.value|) && !poisoned)
              && (r.Raised? ==> r.failure == OutputLimit && Now() == Poison(old(Now())))
    {
      hide Valid, PossibleRun, Run, AllTraffic;
      var healthy := RequireHealthy();
      if healthy.Raised? { return Raised(healthy.failure); }
      ValidHealthy();
      var safe := SafeBuffer(buffer);
      if safe.None? { return Raised(NoSentinel); }
      var fits := Fits(buffer, safe.value, processedLimit - processedUsed);
      if !fits {
        r := RefuseExpansion();
        return;
      }
      var output := VendorExpand(buffer, processedLimit - processedUsed);
      var charged := ChargeProcessed(|output|);
      if charged.Raised? { return Raised(charged.failure); }
      r := Ok(output);
    }

    /** Entering read_budget. */
    method OpenBudget(budget: int) returns (r: Result<()>)
      requires Valid()
      modifies this`limit, this`used, this`processedLimit, this`processedUsed, this`channelPoisoned, this`poisoned,
               this`scope, this`history, peer`closed
      ensures Valid() && old(history) <= history && peer.traffic == old(peer.traffic)
      ensures peer.packetOverflow ==> Now() == Disposed(old(Now())) && r == Raised(PacketLimit)
      ensures !peer.packetOverflow ==> Now() == Opened(old(Now()), budget, readBuffer)
      ensures !peer.packetOverflow ==>
              r == if old(poisoned) then Raised(OutputLimit)
                   else if budget <= 0 then Raised(BadBudget)
                   else if old(scope).Some? then Raised(NestedBudget)
                   else if readBuffer.octets > budget || readBuffer.chars > budget then
                     Raised(OutputLimit)
                   else Ok(())
    {
      hide PossibleRun, Run, AllTraffic;
      var healthy := RequireHealthy();
      if healthy.Raised? { return healthy; }
      if budget <= 0 { return Raised(BadBudget); }
      if scope.Some? { return Raised(NestedBudget); }
      ghost var was := Now();
      if readBuffer.octets > budget || readBuffer.chars > budget {
        PoisonChannel();
        Record(Open(budget, readBuffer), was);
        return Raised(OutputLimit);
      }
      scope := Some(Saved(limit, used, processedLimit, processedUsed));
      limit, used := budget, readBuffer.octets;
      processedLimit, processedUsed := budget, readBuffer.chars;
      Record(Open(budget, readBuffer), was);
      r := Ok(());
    }

    /** Leaving read_budget, with or without an exception from the body. Only the flag of
        the channel is asked, so a packet overflow that the body swallowed does not stop
        the outer limits from being enforced. */
    method CloseBudget(bodyRaised: bool) returns (r: Result<()>)
      requires Valid() && scope.Some?
      modifies this`limit, this`used, this`processedLimit, this`processedUsed, this`channelPoisoned, this`poisoned,
               this`scope, this`history, peer`closed
      ensures Valid() && history == old(history) + [Close(readBuffer)] && peer.traffic == old(peer.traffic)
      ensures Now() == Closed(old(Now()), readBuffer)
      ensures r.Raised? <==> !old(channelPoisoned) && channelPoisoned && !bodyRaised
    {
      hide PossibleRun, Run, AllTraffic;
      ghost var was := Now();
      var s := scope.value;
      limit, used := s.limit, s.used + readBuffer.octets;
      processedLimit := s.processedLimit;
      processedUsed := s.processedUsed + readBuffer.chars;
      scope := None;
      r := Ok(());
      if !channelPoisoned && (used > limit || processedUsed > processedLimit) {
        PoisonChannel();
        if !bodyRaised { r := Raised(OutputLimit); }
      }
      Record(Close(readBuffer), was);
    }

    // ---- Any sequence of calls ----

    method Perform(call: Call)
      requires Valid() && A.Reviewed(vendor)
      modifies this, peer
      ensures Valid() && old(history) <= history && performed == old(performed) + [call]
      ensures call.Retain? ==> readBuffer == call.retained
      ensures !call.Retain? ==> readBuffer == old(readBuffer)
      ensures old(peer.packetOverflow) || call.PacketLimitHit? ==> peer.packetOverflow
      ensures match call
              case Read => old(poisoned || peer.packetOverflow) || old(peer.answers) < peer.answers
              case Write => old(poisoned || peer.packetOverflow) || peer.traffic == old(peer.traffic) + [Sent]
              case Strip(text) =>
                || old(poisoned || peer.packetOverflow) || Now() == Poison(old(Now()))
                || Now() == Charged(old(Now()), |A.VendorStrip(vendor, text)|)
                || (Now() == old(Now()) && |text| >= PRIVATE_END - FIRST_PRIVATE)
              case ChargeText(length) => Now() == Charged(old(Now()), length)
              case Enter(budget) =>
                Now() == if peer.packetOverflow then Disposed(old(Now())) else Opened(old(Now()), budget, readBuffer)
              case Leave(_) => Now() == Closed(old(Now()), readBuffer)
              case Retain(_) => Now() == old(Now())
              case PacketLimitHit => Now() == old(Now())
    {
      hide PossibleRun, Run, AllTraffic;
      performed := performed + [call];
      match call
      case Read => var _ := ReadBuffer();
      case Write => var _ := WriteChannel();
      case Strip(text) => var _ := StripAnsi(text);
      case ChargeText(length) => var _ := ChargeProcessed(length);
      case Enter(budget) => var _ := OpenBudget(budget);
      case Leave(bodyRaised) => if scope.Some? { var _ := CloseBudget(bodyRaised); }
      case Retain(text) => readBuffer := text;
      case PacketLimitHit => peer.packetOverflow := true;
    }

    /** Over every sequence of calls, disturbances and retained text: the counters stay
        within their limits until the poison, and nothing at all is put to the peer after
        it. */
    method PerformAll(calls: seq<Call>)
      requires Valid() && A.Reviewed(vendor)
      modifies this, peer
      ensures Valid() && old(history) <= history && performed == old(performed) + calls
      ensures Healthy(Now())
      ensures old(poisoned) ==> poisoned && peer.traffic == old(peer.traffic)
    {
      ghost var start := history;
      for i := 0 to |calls|
        invariant Valid() && start <= history && performed == old(performed) + calls[..i]
      {
        assert calls[..i + 1] == calls[..i] + [calls[i]];
        Perform(calls[i]);
      }
      ValidHealthy();
      if old(poisoned) { PoisonStays(start, history, maxBuffer); }
    }
  }
}
