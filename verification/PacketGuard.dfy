/** BoundedPacketizer.read_message and read_all: every inbound binary packet
    (section 6 of RFC 4253) is bounded before its body is requested. */
module PacketGuard {
  import opened Options
  import opened Bytes
  import Numeral

  const PACKET_MAX := 256 * 1024
  const MAC_MAX := 64
  const FIELD_MIN := 5

  datatype Phase = Idle | Header | Body | Mac | Done
  datatype Mode = Classic | Etm | Aead

  /** The inbound cipher as Paramiko has negotiated it. */
  datatype Cipher = Cipher(block: int, mac: int, etm: bool, aead: bool)

  /** What the header read fixes for the rest of the packet. */
  datatype Packet = Packet(mode: Mode, block: int, mac: int, clear: Option<nat>)

  datatype Guard = Guard(phase: Phase, packet: Option<Packet>, exceeded: bool)

  const Fresh := Guard(Idle, None, false)

  predicate Reviewed(c: Cipher) {
    && (c.block == 8 || c.block == 16) && 0 <= c.mac <= MAC_MAX
    && !(c.etm && c.aead) && (c.etm ==> c.mac != 0) && (c.aead ==> c.mac == 16)
  }

  function ModeOf(c: Cipher): Mode {
    if c.etm then Etm else if c.aead then Aead else Classic
  }

  /** packet_length, recovered from the size of the body request. */
  function Field(p: Packet, n: int): int {
    n + p.block - 4 - if p.mode == Etm then 0 else p.mac
  }

  predicate FieldAccepted(p: Packet, n: int) {
    FIELD_MIN <= Field(p, n) <= PACKET_MAX && (p.clear.Some? ==> Field(p, n) == p.clear.value)
  }

  /** Which request may reach the socket in which phase. */
  predicate Delegates(g: Guard, c: Cipher, n: int, checkRekey: bool) {
    && !g.exceeded && 0 <= n <= PACKET_MAX + 64
    && match g.phase
       case Idle => !checkRekey
       case Header => checkRekey && n == c.block && Reviewed(c)
       case Body => !checkRekey && g.packet.Some? && FieldAccepted(g.packet.value, n)
       case Mac => !checkRekey && g.packet.Some? && n == g.packet.value.mac
       case Done => false
  }

  /** What the header octets, when they arrive, say about the packet. */
  function PacketOf(c: Cipher, clearLength: nat): Packet {
    Packet(ModeOf(c), c.block, c.mac,
           if c.etm || c.aead then Some(clearLength) else None)
  }

  /** The guard after a delegated read has returned. */
  function After(g: Guard, c: Cipher, clearLength: nat): Guard {
    match g.phase
    case Idle => g
    case Header =>
      var p := PacketOf(c, clearLength);
      if p.clear.Some? && clearLength > PACKET_MAX then g.(packet := Some(p), exceeded := true)
      else g.(packet := Some(p), phase := Body)
    case Body => g.(phase := if g.packet.Some? && g.packet.value.mode == Etm then Mac else Done)
    case Mac => g.(phase := Done)
    case Done => g
  }

  datatype Reply = Octets(data: bytes) | Rejected | SocketError

  /** int.from_bytes(header[:4], "big") */
  function ClearLength(header: bytes): nat {
    Numeral.Value(256, if |header| < 4 then header else header[..4])
  }

  /** The first four octets of a header, most significant first. */
  lemma ClearLengthBigEndian(header: bytes)
    requires |header| >= 4
    ensures var a: int, b: int, c: int, d: int := header[0], header[1], header[2], header[3];
            ClearLength(header) == 0x1000000 * a + 0x10000 * b + 0x100 * c + d
  {
    var s := header[..4];
    var x: int, y: int, z: int := s[0], s[1], s[2];
    assert s[..3][..2] == s[..2] && s[..2][..1] == s[..1] && s[..1][..0] == [];
    assert Numeral.Value(256, s[..1]) == x;
    assert Numeral.Value(256, s[..2]) == x * 256 + y;
    assert Numeral.Value(256, s[..3]) == (x * 256 + y) * 256 + z;
  }

  class Socket {
    var stream: bytes
    var open: bool
    /** Sizes of the reads asked of this socket, oldest first. */
    ghost var delegated: seq<int>

    /** Packetizer.read_all: all n octets, or an exception. */
    method ReadAll(n: nat) returns (r: Reply)
      modifies this
      ensures !r.Rejected?
      ensures r.Octets? ==> |r.data| == n && r.data + stream == old(stream)
      ensures open == old(open) && delegated == old(delegated) + [n]
    {
      delegated := delegated + [n];
      if n > |stream| {
        stream := [];
        return SocketError;
      }
      r := Octets(stream[..n]);
      stream := stream[n..];
    }
  }

  class BoundedPacketizer {
    const socket: Socket
    var cipher: Cipher
    var binaryPacketLimitExceeded: bool
    var packetPhase: Phase
    var packet: Option<Packet>

    constructor (socket: Socket, cipher: Cipher)
      ensures this.socket == socket && this.cipher == cipher
      ensures State() == Fresh
    {
      this.socket, this.cipher := socket, cipher;
      binaryPacketLimitExceeded, packetPhase, packet := false, Idle, None;
    }

    function State(): Guard
      reads this
    {
      Guard(packetPhase, packet, binaryPacketLimitExceeded)
    }

    method BinaryLimit() returns (r: Reply)
      modifies this`binaryPacketLimitExceeded, socket`open
      ensures r == Rejected && binaryPacketLimitExceeded && !socket.open
    {
      binaryPacketLimitExceeded := true;
      socket.open := false;
      r := Rejected;
    }

    method ReadAll(n: int, checkRekey: bool) returns (r: Reply)
      modifies this`binaryPacketLimitExceeded, this`packetPhase, this`packet, socket
      ensures var go := Delegates(old(State()), cipher, n, checkRekey);
              && socket.delegated == old(socket.delegated) + (if go then [n] else [])
              && (!go ==> r.Rejected? && State() == old(State()).(exceeded := true))
              && (go ==> (r.SocketError? ==> State() == old(State())))
              && (go && !r.SocketError? ==>
                  && n <= |old(socket.stream)|
                  && State() == After(old(State()), cipher, ClearLength(old(socket.stream)[..n]))
                  && (r == if State().exceeded then Rejected else Octets(old(socket.stream)[..n])))
      ensures r.Rejected? ==> !socket.open
      ensures !r.Rejected? ==> socket.open == old(socket.open)
    {
      if binaryPacketLimitExceeded { r := BinaryLimit(); return; }
      if n < 0 || n > PACKET_MAX + 64 { r := BinaryLimit(); return; }
      match packetPhase
      case Header =>
        var block, mac, etm, aead := cipher.block, cipher.mac, cipher.etm, cipher.aead;
        if !checkRekey || n != block || (block != 8 && block != 16) || !(0 <= mac <= MAC_MAX)
           || (etm && aead) || (etm && mac == 0) || (aead && mac != 16) {
          r := BinaryLimit();
          return;
        }
        r := socket.ReadAll(n);
        if r.SocketError? { return; }
        packet := Some(Packet(if etm then Etm else if aead then Aead else Classic, block, mac, None));
        if etm || aead {
          packet := Some(packet.value.(clear := Some(ClearLength(r.data))));
          if packet.value.clear.value > PACKET_MAX { r := BinaryLimit(); return; }
        }
        packetPhase := Body;
      case Body =>
        if checkRekey || packet.None? { r := BinaryLimit(); return; }
        var overhead := if packet.value.mode == Etm then 0 else packet.value.mac;
        var field := n + packet.value.block - 4 - overhead;
        if field < FIELD_MIN || field > PACKET_MAX
           || (packet.value.clear.Some? && field != packet.value.clear.value) {
          r := BinaryLimit();
          return;
        }
        r := socket.ReadAll(n);
        if r.SocketError? { return; }
        packetPhase := if packet.value.mode == Etm then Mac else Done;
      case Mac =>
        if checkRekey || packet.None? || n != packet.value.mac { r := BinaryLimit(); return; }
        r := socket.ReadAll(n);
        if r.SocketError? { return; }
        packetPhase := Done;
      case Done =>
        r := BinaryLimit();
      case Idle =>
        if checkRekey { r := BinaryLimit(); return; }
        r := socket.ReadAll(n);
    }

    /** read_message around an arbitrary vendor parser: it issues any requests it
        likes and stops at the first exception. What reaches the socket is what the guard
        alone would let through, cut short only by an error of the socket. */
    method ReadMessage(requests: seq<Request>) returns (ok: bool)
      modifies this`binaryPacketLimitExceeded, this`packetPhase, this`packet, socket
      ensures ok ==> old(packetPhase).Idle? && !old(binaryPacketLimitExceeded)
      ensures old(packetPhase).Idle? ==> packetPhase == Idle
      ensures old(packetPhase).Idle? && !old(binaryPacketLimitExceeded) ==> packet.None?
      ensures old(binaryPacketLimitExceeded) || !old(packetPhase).Idle? ==>
                binaryPacketLimitExceeded && socket.delegated == old(socket.delegated)
      ensures old(socket.delegated) <= socket.delegated
      ensures Sum(socket.delegated) <= Sum(old(socket.delegated)) + 4 + PACKET_MAX + MAC_MAX
      ensures old(packetPhase).Idle? && !old(binaryPacketLimitExceeded) ==>
        var (last, served) := Run(AtHeader, cipher, requests, Announced(requests, old(socket.stream)));
        && socket.delegated <= old(socket.delegated) + served
        && (ok ==> socket.delegated == old(socket.delegated) + served && !last.exceeded && |served| == |requests|)
        && (binaryPacketLimitExceeded ==> socket.delegated == old(socket.delegated) + served && last.exceeded)
        && (ok && last.phase.Done? ==>
              last.packet.Some? && WholePacket(last.packet.value, served)
              && Sum(socket.delegated) == Sum(old(socket.delegated)) + Sum(served))
    {
      if binaryPacketLimitExceeded || !packetPhase.Idle? {
        var _ := BinaryLimit();
        return false;
      }
      packetPhase := Header;
      packet := None;
      ghost var base, clear := socket.delegated, Announced(requests, socket.stream);
      ok := ReadRequests(requests, clear);
      ghost var served := Run(AtHeader, cipher, requests, clear).1;
      RunConserves(cipher, requests, clear);
      RunNonNegative(AtHeader, cipher, requests, clear);
      SumConcat(base, served);
      PrefixSum(base, socket.delegated, served);
      packetPhase := Idle;
      packet := None;
    }

    /** The vendor's parser, request by request. */
    method ReadRequests(requests: seq<Request>, ghost clear: nat) returns (ok: bool)
      requires State() == AtHeader && clear == Announced(requests, socket.stream)
      modifies this`binaryPacketLimitExceeded, this`packetPhase, this`packet, socket
      ensures old(socket.delegated) <= socket.delegated
      ensures var (last, served) := Run(AtHeader, cipher, requests, clear);
        && socket.delegated <= old(socket.delegated) + served
        && (ok ==> socket.delegated == old(socket.delegated) + served && !last.exceeded && |served| == |requests|)
        && (binaryPacketLimitExceeded ==> socket.delegated == old(socket.delegated) + served && last.exceeded)
    {
      hide Delegates, After, ClearLength, Run;
      ghost var base, octets: seq<int>, whole := socket.delegated, [], Run(AtHeader, cipher, requests, clear);
      ok := true;
      RunStart(cipher, requests, clear);
      for k := 0 to |requests|
        invariant socket.delegated == base + octets && |octets| == k && !binaryPacketLimitExceeded
        invariant k == 0 ==> socket.stream == old(socket.stream)
        invariant k > 0 ==> !packetPhase.Header?
        invariant Remaining(whole, octets, State(), cipher, requests, k, clear)
      {
        ghost var g, n, rekey := State(), requests[k].n, requests[k].checkRekey;
        ghost var header := if 0 <= n <= |socket.stream| then socket.stream[..n] else [];
        assert k == 0 ==> clear == ClearLength(header);
        AfterAgrees(g, cipher, ClearLength(header), clear);
        RunAt(whole, octets, g, cipher, requests, k, clear);
        var r := ReadAll(requests[k].n, requests[k].checkRekey);
        octets := octets + if Delegates(g, cipher, n, rekey) then [n] else [];
        assert socket.delegated == base + octets;
        if !r.Octets? { return false; }
        AfterLeavesHeader(g, cipher, n, rekey, clear);
      }
      RunDone(whole, octets, State(), cipher, requests, clear);
    }

    /** Any number of messages: once the limit has been exceeded, every later message fails
        and nothing more reaches the socket. */
    method ReadMessages(messages: seq<seq<Request>>)
        returns (ok: seq<bool>, exceeded: seq<bool>, ghost sizes: seq<nat>)
      requires packetPhase.Idle?
      modifies this`binaryPacketLimitExceeded, this`packetPhase, this`packet, socket
      ensures |ok| == |exceeded| == |sizes| == |messages|
      ensures forall i, j | 0 <= i < j < |messages| && exceeded[i] ::
                exceeded[j] && !ok[j] && sizes[j] == sizes[i]
    {
      ok, exceeded, sizes := [], [], [];
      for k := 0 to |messages|
        invariant packetPhase.Idle? && |ok| == |exceeded| == |sizes| == k
        invariant forall i, j | 0 <= i < j < k && exceeded[i] :: exceeded[j] && !ok[j] && sizes[j] == sizes[i]
        invariant k > 0 ==> exceeded[k - 1] == binaryPacketLimitExceeded && sizes[k - 1] == |socket.delegated|
      {
        var good := ReadMessage(messages[k]);
        ok, exceeded, sizes := ok + [good], exceeded + [binaryPacketLimitExceeded], sizes + [|socket.delegated|];
      }
    }
  }

  const AtHeader := Guard(Header, None, false)

  /** What the octets that the first request reads say about the packet. */
  function Announced(requests: seq<Request>, stream: bytes): nat {
    if requests != [] && 0 <= requests[0].n <= |stream| then ClearLength(stream[..requests[0].n])
    else ClearLength([])
  }

  datatype Request = Request(n: int, checkRekey: bool)

  function Sum(s: seq<int>): int {
    if s == [] then 0 else Sum(s[..|s| - 1]) + s[|s| - 1]
  }

  lemma {:induction false} SumConcat(a: seq<int>, b: seq<int>)
    ensures Sum(a + b) == Sum(a) + Sum(b)
  {
    if b == [] {
      assert a + b == a;
    } else {
      SumConcat(a, b[..|b| - 1]);
      assert (a + b)[..|a + b| - 1] == a + b[..|b| - 1];
    }
  }

  // ---- Conservation ----

  predicate PacketReviewed(p: Packet) {
    && (p.block == 8 || p.block == 16) && 0 <= p.mac <= MAC_MAX
    && (p.mode == Etm ==> p.mac != 0) && (p.mode == Classic <==> p.clear.None?)
  }

  /** A body request stands for an acceptable packet_length, and the octets read
      with it are what that length announces: 4 + field + mac in all. */
  predicate WholePacket(p: Packet, served: seq<int>) {
    && |served| == (if p.mode == Etm then 3 else 2)
    && served[0] == p.block && FieldAccepted(p, served[1])
    && (p.mode == Etm ==> served[2] == p.mac)
    && Sum(served) == 4 + Field(p, served[1]) + p.mac
  }

  /** The reads of one message so far, phase by phase. */
  predicate Progress(g: Guard, served: seq<int>) {
    match g.phase
    case Header => served == [] || (g.exceeded && |served| == 1 && 0 <= served[0] <= 16)
    case Body => g.packet.Some? && PacketReviewed(g.packet.value) && served == [g.packet.value.block]
    case Mac =>
      && g.packet.Some? && PacketReviewed(g.packet.value) && g.packet.value.mode == Etm
      && |served| == 2 && served[0] == g.packet.value.block && FieldAccepted(g.packet.value, served[1])
    case Done => g.packet.Some? && PacketReviewed(g.packet.value) && WholePacket(g.packet.value, served)
    case Idle => false
  }

  lemma SumSmall(s: seq<int>)
    ensures |s| == 0 ==> Sum(s) == 0
    ensures |s| == 1 ==> Sum(s) == s[0]
    ensures |s| == 2 ==> Sum(s) == s[0] + s[1]
    ensures |s| == 3 ==> Sum(s) == s[0] + s[1] + s[2]
  {
    if |s| == 1 { assert s[..0] == []; }
    if |s| == 2 { assert s[..1][..0] == []; }
    if |s| == 3 { assert s[..2][..1] == s[..1] && s[..1][..0] == []; }
  }

  /** Any delegated read keeps the account, whatever the header octets were. */
  lemma ProgressStep(g: Guard, c: Cipher, n: int, checkRekey: bool, clearLength: nat, served: seq<int>)
    requires Progress(g, served) && Delegates(g, c, n, checkRekey)
    ensures Progress(After(g, c, clearLength), served + [n])
  {
    SumSmall(served + [n]);
  }

  lemma ProgressBounded(g: Guard, served: seq<int>)
    requires Progress(g, served)
    ensures 0 <= Sum(served) <= 4 + PACKET_MAX + MAC_MAX
    ensures g.phase.Done? ==> Sum(served) == 4 + Field(g.packet.value, served[1]) + g.packet.value.mac
  {
    SumSmall(served);
  }

  // ---- The reviewed caller ----

  /** The three body formulas of Paramiko's read_message. */
  function BodyRequest(c: Cipher, field: int): int {
    if c.etm then field - (c.block - 4) else field + c.mac - (c.block - 4)
  }

  /** The reads of one packet by the reviewed caller. */
  function PacketRequests(c: Cipher, field: int): seq<Request> {
    [Request(c.block, true), Request(BodyRequest(c, field), false)]
    + if c.etm then [Request(c.mac, false)] else []
  }

  /** Running requests against the guard alone; clearLength is what the header
      says. Returns the guard and the sizes that reached the socket. */
  function Run(g: Guard, c: Cipher, rs: seq<Request>, clearLength: nat): (Guard, seq<int>)
    decreases |rs|
  {
    if rs == [] then (g, [])
    else if !Delegates(g, c, rs[0].n, rs[0].checkRekey) then (g.(exceeded := true), [])
    else
      var g' := After(g, c, clearLength);
      if g'.exceeded then (g', [rs[0].n])
      else
        var (last, served) := Run(g', c, rs[1..], clearLength);
        (last, [rs[0].n] + served)
  }

  lemma {:induction false} RunProgress(g: Guard, c: Cipher, rs: seq<Request>, clearLength: nat, served: seq<int>)
    requires Progress(g, served)
    ensures Progress(Run(g, c, rs, clearLength).0, served + Run(g, c, rs, clearLength).1)
    decreases |rs|
  {
    assert served + [] == served;
    if rs != [] && Delegates(g, c, rs[0].n, rs[0].checkRekey) {
      var n, next := rs[0].n, After(g, c, clearLength);
      ProgressStep(g, c, n, rs[0].checkRekey, clearLength, served);
      if !next.exceeded {
        var more := Run(next, c, rs[1..], clearLength).1;
        RunProgress(next, c, rs[1..], clearLength, served + [n]);
        assert served + ([n] + more) == served + [n] + more;
      }
    }
  }

  lemma {:induction false} RunNonNegative(g: Guard, c: Cipher, rs: seq<Request>, clearLength: nat)
    ensures forall k | 0 <= k < |Run(g, c, rs, clearLength).1| :: Run(g, c, rs, clearLength).1[k] >= 0
    decreases |rs|
  {
    if rs != [] && Delegates(g, c, rs[0].n, rs[0].checkRekey) && !After(g, c, clearLength).exceeded {
      RunNonNegative(After(g, c, clearLength), c, rs[1..], clearLength);
    }
  }

  lemma {:induction false} PrefixSum(base: seq<int>, part: seq<int>, more: seq<int>)
    requires base <= part <= base + more && forall k | 0 <= k < |more| :: more[k] >= 0
    ensures Sum(part) <= Sum(base + more)
    decreases |more|
  {
    if |part| < |base + more| {
      var n := |more| - 1;
      PrefixSum(base, part, more[..n]);
      assert (base + more)[..|base + more| - 1] == base + more[..n];
    } else {
      assert part == base + more;
    }
  }

  /** Only the header read looks at what the octets say. */
  lemma AfterAgrees(g: Guard, c: Cipher, a: nat, b: nat)
    ensures !g.phase.Header? || a == b ==> After(g, c, a) == After(g, c, b)
  {
  }

  lemma AfterLeavesHeader(g: Guard, c: Cipher, n: int, checkRekey: bool, clearLength: nat)
    requires Delegates(g, c, n, checkRekey) && !After(g, c, clearLength).exceeded
    ensures !After(g, c, clearLength).phase.Header?
  {
  }

  lemma RunNothing(g: Guard, c: Cipher, rs: seq<Request>, clearLength: nat)
    requires rs == []
    ensures Run(g, c, rs, clearLength) == (g, [])
  {
  }

  lemma RunHead(g: Guard, c: Cipher, rs: seq<Request>, clearLength: nat)
    requires rs != []
    ensures var n, run, next := rs[0].n, Run(g, c, rs, clearLength), After(g, c, clearLength);
      && (!Delegates(g, c, n, rs[0].checkRekey) ==> run.1 == [] && run.0.exceeded)
      && (Delegates(g, c, n, rs[0].checkRekey) && next.exceeded ==> run == (next, [n]))
      && (Delegates(g, c, n, rs[0].checkRekey) && !next.exceeded ==>
            var rest := Run(next, c, rs[1..], clearLength);
            run == (rest.0, [n] + rest.1))
      && (Delegates(g, c, n, rs[0].checkRekey) ==> [n] <= run.1)
  {
  }

  /** The whole run, seen after its first k requests. */
  ghost predicate Remaining(whole: (Guard, seq<int>), octets: seq<int>, g: Guard, c: Cipher, rs: seq<Request>, k: nat,
                            clearLength: nat)
    requires k <= |rs|
  {
    var rest := Run(g, c, rs[k..], clearLength);
    whole.0 == rest.0 && whole.1 == octets + rest.1
  }

  lemma RunStart(c: Cipher, rs: seq<Request>, clearLength: nat)
    ensures Remaining(Run(AtHeader, c, rs, clearLength), [], AtHeader, c, rs, 0, clearLength)
  {
    hide Run;
    assert rs[0..] == rs;
  }

  lemma RunAt(whole: (Guard, seq<int>), octets: seq<int>, g: Guard, c: Cipher, rs: seq<Request>, k: nat,
              clearLength: nat)
    requires k < |rs| && Remaining(whole, octets, g, c, rs, k, clearLength)
    ensures var n, next := rs[k].n, After(g, c, clearLength);
      if !Delegates(g, c, n, rs[k].checkRekey) then whole.1 == octets + [] && whole.0.exceeded
      else
        && n >= 0 && octets + [n] <= whole.1
        && (next.exceeded ==> whole.1 == octets + [n] && whole.0.exceeded)
        && (!next.exceeded ==> Remaining(whole, octets + [n], next, c, rs, k + 1, clearLength))
  {
    RunHead(g, c, rs[k..], clearLength);
    assert Delegates(g, c, rs[k].n, rs[k].checkRekey) ==> rs[k].n >= 0;
    hide Run, Delegates, After;
    assert rs[k..][1..] == rs[k + 1..];
  }

  lemma RunDone(whole: (Guard, seq<int>), octets: seq<int>, g: Guard, c: Cipher, rs: seq<Request>, clearLength: nat)
    requires Remaining(whole, octets, g, c, rs, |rs|, clearLength)
    ensures whole == (g, octets)
  {
    RunNothing(g, c, rs[|rs|..], clearLength);
    assert octets + [] == octets;
  }

  /** Whatever is requested, and whatever the header says: the octets read for a
      completed packet are 4 + field + mac for an accepted field (the clear one
      where there is one), and no run reads more than one bounded packet. */
  lemma RunConserves(c: Cipher, rs: seq<Request>, clearLength: nat)
    ensures var (last, served) := Run(AtHeader, c, rs, clearLength);
            && 0 <= Sum(served) <= 4 + PACKET_MAX + MAC_MAX
            && (last.phase.Done? ==> last.packet.Some? && WholePacket(last.packet.value, served))
  {
    var g := AtHeader;
    var (last, served) := Run(g, c, rs, clearLength);
    RunProgress(g, c, rs, clearLength, []);
    assert [] + served == served;
    ProgressBounded(last, served);
  }

  /** The inbound ciphers that have been reviewed, spelled out. */
  predicate Supported(c: Cipher) {
    && (c.block == 8 || c.block == 16)
    && ((c.etm && !c.aead && 1 <= c.mac <= 64) || (c.aead && !c.etm && c.mac == 16)
        || (!c.etm && !c.aead && 0 <= c.mac <= 64))
  }

  /** Whatever is requested, and whatever the header says: an unsupported cipher reads nothing;
      the header is one block; the body stands for a packet_length from 5 to 256 KiB, the
      announced one where it is in clear; and a separate MAC follows in ETM mode only. */
  lemma ServedWithinBounds(c: Cipher, rs: seq<Request>, clearLength: nat)
    ensures var served := Run(AtHeader, c, rs, clearLength).1;
      && (served != [] ==> Supported(c) && served[0] == c.block && rs[0] == Request(c.block, true))
      && (|served| >= 2 ==>
            var field := served[1] + c.block - 4 - if c.etm then 0 else c.mac;
            5 <= field <= 262144 && (c.etm || c.aead ==> field == clearLength))
      && |served| <= (if c.etm then 3 else 2) && (|served| == 3 ==> served[2] == c.mac)
  {
    var g1 := After(AtHeader, c, clearLength);
    var g2 := After(g1, c, clearLength);
    var g3 := After(g2, c, clearLength);
    RunWhole(AtHeader, c, rs, clearLength);
    if |rs| > 0 { RunWhole(g1, c, rs[1..], clearLength); }
    if |rs| > 1 { RunWhole(g2, c, rs[1..][1..], clearLength); }
    if |rs| > 2 { RunWhole(g3, c, rs[1..][1..][1..], clearLength); }
    hide Run;
  }

  lemma RunWhole(g: Guard, c: Cipher, rs: seq<Request>, clearLength: nat)
    ensures var served, next := Run(g, c, rs, clearLength).1, After(g, c, clearLength);
      && (served == [] || (rs != [] && Delegates(g, c, rs[0].n, rs[0].checkRekey)))
      && (served != [] ==> served[0] == rs[0].n)
      && (served != [] && next.exceeded ==> |served| == 1)
      && (served != [] && !next.exceeded ==> served[1..] == Run(next, c, rs[1..], clearLength).1)
  {
  }

  lemma RunStep(g: Guard, c: Cipher, r: Request, rest: seq<Request>, clearLength: nat)
    requires Delegates(g, c, r.n, r.checkRekey) && !After(g, c, clearLength).exceeded
    ensures var (last, served) := Run(After(g, c, clearLength), c, rest, clearLength);
            Run(g, c, [r] + rest, clearLength) == (last, [r.n] + served)
  {
    assert ([r] + rest)[1..] == rest;
  }

  /** A reviewed caller with an acceptable length is served in full ... */
  lemma ReviewedCallerServed(c: Cipher, field: int)
    requires Supported(c) && 5 <= field <= 262144 && BodyRequest(c, field) >= 0
    ensures var (g, served) := Run(AtHeader, c, PacketRequests(c, field), field);
            && g.phase == Done && !g.exceeded
            && Sum(served) == 4 + field + c.mac && |served| == |PacketRequests(c, field)|
  {
    var rs, g0, n := PacketRequests(c, field), AtHeader, BodyRequest(c, field);
    var g1 := After(g0, c, field);
    var g2 := After(g1, c, field);
    assert Field(g1.packet.value, n) == field;
    var header, body, last := Request(c.block, true), Request(n, false), if c.etm then [Request(c.mac, false)] else [];
    assert rs == [header] + ([body] + last);
    assert Run(g2, c, last, field) == if c.etm then (After(g2, c, field), [c.mac]) else (g2, []) by {
      if c.etm {
        RunStep(g2, c, last[0], [], field);
        assert last == [last[0]] + [] && [c.mac] + [] == [c.mac];
        assert Run(After(g2, c, field), c, [], field) == (After(g2, c, field), []);
      }
    }
    RunStep(g1, c, body, last, field);
    RunStep(g0, c, header, [body] + last, field);
    SumSmall(Run(g0, c, rs, field).1);
  }

  /** ... and with any other length it is stopped after the header, before any body
      octet is requested. */
  lemma OversizedStopped(c: Cipher, field: nat)
    requires Supported(c) && (field > 262144 || field < 5)
    ensures var (g, served) := Run(AtHeader, c, PacketRequests(c, field), field);
            g.exceeded && served == [c.block]
  {
    var rs, g0 := PacketRequests(c, field), AtHeader;
    var g1 := After(g0, c, field);
    assert rs[1..][0] == Request(BodyRequest(c, field), false);
    assert Field(g1.packet.value, BodyRequest(c, field)) == field;
    assert [c.block] + [] == [c.block];
  }

  /** The coarse size guard in front refuses nothing that the phase checks of a
      message would let through. */
  lemma CoarseGuardRedundant(g: Guard, c: Cipher, n: int, served: seq<int>)
    requires Progress(g, served) && !g.exceeded && n > PACKET_MAX + 64
    ensures match g.phase
            case Header => !(n == c.block && Reviewed(c))
            case Body => !FieldAccepted(g.packet.value, n)
            case Mac => n != g.packet.value.mac
            case _ => true
  {
  }
}
