/** The two cumulative counters of the bounded CLI channel, as a machine over the
    operations that touch them, and what holds over every run of it. */
module ReadBudget {
  import opened Options

  const SETUP_READ_BYTES := 32 * 1024

  /** The outer counters that an open read_budget scope will restore. */
  datatype Saved = Saved(limit: int, used: int, processedLimit: int, processedUsed: int)

  /** The channel has a poison flag of its own. Poisoning the channel poisons its owner; an
      overflow of the packet layer poisons the owner alone. */
  datatype Meter = Meter(
    limit: int, used: int, processedLimit: int, processedUsed: int,
    channelPoisoned: bool, poisoned: bool, scope: Option<Saved>)

  const Initial := Meter(SETUP_READ_BYTES, 0, SETUP_READ_BYTES, 0, false, false, None)

  /** Text that Netmiko has retained, in UTF-8 octets and in characters. */
  datatype Retained = Retained(octets: nat, chars: nat)

  datatype Event =
    | Open(budget: int, retained: Retained)
    | Close(retained: Retained)
    | Ask                 // a recv request
    | Receive(octets: nat)
    | Send
    | Charge(chars: int)
    | Refuse              // an expansion that would not fit
    | Overflow            // the packet layer has exceeded its own limit

  datatype Traffic = RecvRequest(size: int) | Sent

  /** The recv request of read_buffer. */
  function Request(m: Meter, maxBuffer: nat): int {
    if maxBuffer < m.limit - m.used + 1 then maxBuffer else m.limit - m.used + 1
  }

  function Poison(m: Meter): Meter { m.(channelPoisoned := true, poisoned := true) }

  function Disposed(m: Meter): Meter { m.(poisoned := true) }

  function Opened(m: Meter, budget: int, r: Retained): Meter {
    if m.poisoned || budget <= 0 || m.scope.Some? then m
    else if r.octets > budget || r.chars > budget then Poison(m)
    else
      Meter(budget, r.octets, budget, r.chars, m.channelPoisoned, m.poisoned,
            Some(Saved(m.limit, m.used, m.processedLimit, m.processedUsed)))
  }

  function Closed(m: Meter, r: Retained): Meter {
    if m.scope.None? then m
    else
      var s := m.scope.value;
      var back := Meter(s.limit, s.used + r.octets, s.processedLimit, s.processedUsed + r.chars,
                        m.channelPoisoned, m.poisoned, None);
      if !back.channelPoisoned && (back.used > back.limit || back.processedUsed > back.processedLimit) then
        Poison(back)
      else back
  }

  function Received(m: Meter, octets: nat): Meter {
    var m' := m.(used := m.used + octets);
    if m'.used > m'.limit then Poison(m') else m'
  }

  function Charged(m: Meter, chars: int): Meter {
    if chars < 0 || m.processedUsed + chars > m.processedLimit then Poison(m)
    else m.(processedUsed := m.processedUsed + chars)
  }

  function Step(m: Meter, e: Event): Meter {
    match e
    case Open(budget, r) => Opened(m, budget, r)
    case Close(r) => Closed(m, r)
    case Ask => m
    case Receive(n) => Received(m, n)
    case Send => m
    case Charge(n) => Charged(m, n)
    case Refuse => Poison(m)
    case Overflow => Disposed(m)
  }

  /** What an event puts to the peer. */
  function TrafficOf(m: Meter, e: Event, maxBuffer: nat): seq<Traffic> {
    if e.Ask? then [RecvRequest(Request(m, maxBuffer))] else if e.Send? then [Sent] else []
  }

  /** The discipline that the channel keeps; BoundedArubaConnection.Valid says that every
      call does. */
  predicate Possible(m: Meter, e: Event, maxBuffer: nat) {
    match e
    case Ask => !m.poisoned
    case Receive(n) => !m.poisoned && 1 <= n <= Request(m, maxBuffer)
    case Send => !m.poisoned
    case _ => true
  }

  function Run(m: Meter, es: seq<Event>): Meter {
    if es == [] then m else Step(Run(m, es[..|es| - 1]), es[|es| - 1])
  }

  function AllTraffic(m: Meter, es: seq<Event>, maxBuffer: nat): seq<Traffic> {
    if es == [] then []
    else AllTraffic(m, es[..|es| - 1], maxBuffer)
         + TrafficOf(Run(m, es[..|es| - 1]), es[|es| - 1], maxBuffer)
  }

  predicate PossibleRun(m: Meter, es: seq<Event>, maxBuffer: nat) {
    es == [] || (PossibleRun(m, es[..|es| - 1], maxBuffer)
                 && Possible(Run(m, es[..|es| - 1]), es[|es| - 1], maxBuffer))
  }

  lemma RunSnoc(m: Meter, es: seq<Event>, e: Event, maxBuffer: nat)
    ensures Run(m, es + [e]) == Step(Run(m, es), e)
    ensures AllTraffic(m, es + [e], maxBuffer) == AllTraffic(m, es, maxBuffer) + TrafficOf(Run(m, es), e, maxBuffer)
    ensures PossibleRun(m, es + [e], maxBuffer) <==>
              PossibleRun(m, es, maxBuffer) && Possible(Run(m, es), e, maxBuffer)
  {
    assert (es + [e])[..|es|] == es;
  }

  /** What the two counters do, spelled out: a request is for one buffer or for one octet more
      than is left; octets are counted first and refused afterwards,
      characters are refused first; a count within its limit poisons nothing. */
  lemma CountersExactly(m: Meter, n: nat, k: int, maxBuffer: nat)
    ensures var received, charged := Step(m, Receive(n)), Step(m, Charge(k));
      && received.used == m.used + n && received.(used := m.used, poisoned := m.poisoned,
                                                  channelPoisoned := m.channelPoisoned) == m
      && (received.poisoned <==> m.poisoned || m.used + n > m.limit)
      && (received.channelPoisoned <==> m.channelPoisoned || m.used + n > m.limit)
      && Request(m, maxBuffer) <= maxBuffer && Request(m, maxBuffer) <= m.limit - m.used + 1
      && (Request(m, maxBuffer) == maxBuffer || Request(m, maxBuffer) == m.limit - m.used + 1)
      && (if 0 <= k <= m.processedLimit - m.processedUsed then
            charged == m.(processedUsed := m.processedUsed + k)
          else charged == m.(channelPoisoned := true, poisoned := true))
  {
  }

  /** What opening a scope does, spelled out: nothing if it is refused for its arguments or its
      state, poison if the retained text alone exceeds it. */
  lemma OpeningExactly(m: Meter, budget: int, r: Retained)
    ensures Initial == Meter(32768, 0, 32768, 0, false, false, None)
    ensures m.poisoned || budget <= 0 || m.scope.Some? ==> Step(m, Open(budget, r)) == m
    ensures !(m.poisoned || budget <= 0 || m.scope.Some?) && (r.octets > budget || r.chars > budget) ==>
      Step(m, Open(budget, r)) == m.(channelPoisoned := true, poisoned := true)
  {
  }

  predicate Healthy(m: Meter) {
    && (m.channelPoisoned ==> m.poisoned)
    && (!m.poisoned ==> m.used <= m.limit && m.processedUsed <= m.processedLimit)
    && (m.scope.Some? ==> m.used <= m.limit + 1)
  }

  lemma StepHealthy(m: Meter, e: Event, maxBuffer: nat)
    requires Healthy(m) && Possible(m, e, maxBuffer)
    ensures Healthy(Step(m, e))
    ensures m.poisoned ==> Step(m, e).poisoned
  {
  }

  /** Over every run: while the channel is not poisoned both counters are within
      their limits, and the next request is between one octet and one octet more
      than is left. */
  lemma {:induction false} RunHealthy(es: seq<Event>, maxBuffer: nat)
    requires PossibleRun(Initial, es, maxBuffer) && maxBuffer > 0
    ensures var m := Run(Initial, es);
            && Healthy(m)
            && (!m.poisoned ==> 1 <= Request(m, maxBuffer) <= m.limit - m.used + 1)
  {
    if es != [] {
      RunHealthy(es[..|es| - 1], maxBuffer);
      StepHealthy(Run(Initial, es[..|es| - 1]), es[|es| - 1], maxBuffer);
    }
  }

  /** Poison is permanent: whatever continues a poisoned run, nothing more is put to the
      peer. */
  lemma {:induction false} PoisonStays(es: seq<Event>, all: seq<Event>, maxBuffer: nat)
    requires es <= all && PossibleRun(Initial, all, maxBuffer) && Run(Initial, es).poisoned
    ensures Run(Initial, all).poisoned
    ensures AllTraffic(Initial, all, maxBuffer) == AllTraffic(Initial, es, maxBuffer)
    decreases |all|
  {
    if |all| > |es| {
      PoisonStays(es, all[..|all| - 1], maxBuffer);
    } else {
      assert all == es;
    }
  }

  // ---- One scope ----

  predicate Inside(es: seq<Event>) {
    forall e | e in es :: !e.Close?
  }

  function Octets(es: seq<Event>): nat {
    if es == [] then 0
    else Octets(es[..|es| - 1]) + if es[|es| - 1].Receive? then es[|es| - 1].octets else 0
  }

  function Chars(es: seq<Event>): int {
    if es == [] then 0
    else Chars(es[..|es| - 1]) + if es[|es| - 1].Charge? then es[|es| - 1].chars else 0
  }

  /** Inside a scope the raw counter is exactly what was retained plus what has
      been received, and the scope never receives more than one octet over its
      limit, whatever else happens, nested openings included. */
  lemma {:induction false} ScopeReceives(m: Meter, budget: int, r: Retained, es: seq<Event>, maxBuffer: nat)
    requires Healthy(m) && !m.poisoned && m.scope.None? && budget > 0 && r.octets <= budget && r.chars <= budget
    requires Inside(es) && PossibleRun(Opened(m, budget, r), es, maxBuffer)
    ensures var n := Run(Opened(m, budget, r), es);
            && n.limit == n.processedLimit == budget
            && n.scope == Some(Saved(m.limit, m.used, m.processedLimit, m.processedUsed))
            && n.used == r.octets + Octets(es) <= budget + 1 && (n.channelPoisoned ==> n.poisoned)
            && (!n.poisoned ==> n.processedUsed == r.chars + Chars(es) <= budget && n.used <= budget)
  {
    if es != [] {
      var front := es[..|es| - 1];
      assert forall e | e in front :: e in es;
      assert es[|es| - 1] in es;
      ScopeReceives(m, budget, r, front, maxBuffer);
    }
  }

  /** Closing the scope restores the outer limits and adds exactly the text that is
      still retained, whatever happened inside; it poisons a sound channel iff that no
      longer fits. */
  lemma ScopeClosed(m: Meter, budget: int, before: Retained, es: seq<Event>, after: Retained, maxBuffer: nat)
    requires Healthy(m) && !m.poisoned && m.scope.None?
    requires budget > 0 && before.octets <= budget && before.chars <= budget
    requires Inside(es) && PossibleRun(Opened(m, budget, before), es, maxBuffer)
    ensures var inner := Run(Opened(m, budget, before), es);
            var n := Closed(inner, after);
            && n.limit == m.limit && n.processedLimit == m.processedLimit && n.scope.None?
            && n.used == m.used + after.octets && n.processedUsed == m.processedUsed + after.chars
            && (n.channelPoisoned <==>
                  inner.channelPoisoned || n.used > n.limit || n.processedUsed > n.processedLimit)
            && (n.poisoned <==> inner.poisoned || n.channelPoisoned)
  {
    ScopeReceives(m, budget, before, es, maxBuffer);
  }
}
