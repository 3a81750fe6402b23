/** BoundedPacketizer.readline: the line splitter that reads the SSH identification
    exchange (section 4.2 of RFC 4253) in whatever chunks the peer sends. */
module BannerReader {
  import opened Bytes
  import opened Options

  const LINE_MAX := 255
  const PRE_IDENTIFICATION_LINES := 99
  const PREAUTH_TEXT_MAX := 25500
  const READ_CHUNK := 128
  const NEWLINE: byte := 10
  const CARRIAGE_RETURN: byte := 13
  const SSH_PREFIX: bytes := [83, 83, 72, 45]

  function Min(a: int, b: int): int { if a < b then a else b }

  datatype Received = Data(chunk: bytes, closed: bool) | TimedOut(expired: bool, closed: bool)

  /** The peer: every octet it will ever send, cut into chunks as it likes, with
      any finite number of receive timeouts between them. */
  class Socket {
    var stream: bytes
    var timeouts: nat
    /** Every answer so far, oldest first. */
    ghost var answers: seq<Received>

    method Recv(n: nat) returns (r: Received)
      requires n > 0
      modifies this
      ensures r.Data? ==>
              && r.chunk + stream == old(stream) && |r.chunk| <= n
              && (r.chunk == [] <==> old(stream) == []) && timeouts == old(timeouts)
      ensures r.TimedOut? ==> stream == old(stream) && timeouts < old(timeouts)
      ensures answers == old(answers) + [r]
    {
      r := Answer(n);
      answers := answers + [r];
    }

    method Answer(n: nat) returns (r: Received)
      requires n > 0
      modifies this`stream, this`timeouts
      ensures r.Data? ==>
              && r.chunk + stream == old(stream) && |r.chunk| <= n
              && (r.chunk == [] <==> old(stream) == []) && timeouts == old(timeouts)
      ensures r.TimedOut? ==> stream == old(stream) && timeouts < old(timeouts)
    {
      var closed: bool := *;
      var late: bool := *;
      if timeouts > 0 && late {
        timeouts := timeouts - 1;
        var expired: bool := *;
        return TimedOut(expired, closed);
      }
      var k: int := *;
      if !(1 <= k <= Min(n, |stream|)) { k := Min(n, |stream|); }
      r := Data(stream[..k], closed);
      stream := stream[k..];
    }
  }

  /** The result of one call; a dead connection ends it without a verdict. */
  datatype Outcome =
    | Line(text: bytes)
    | LimitExceeded
    | NotText
    | EndOfFile
    | Expired
    | Closed

  /** The connection is found closed when a wait times out or data has come. */
  predicate ClosedBy(r: Received) { r.closed && (r.TimedOut? || r.chunk != []) }

  predicate ExpiredBy(r: Received) { r.TimedOut? && !r.closed && r.expired }

  /** What the answers of one call say: each but the last lets it go on, and it ends as closed
      or expired exactly because of the last one. */
  ghost predicate EndsBy(before: seq<Received>, after: seq<Received>, verdict: Outcome) {
    && before <= after
    && (forall k | |before| <= k < |after| - 1 :: !ClosedBy(after[k]) && !ExpiredBy(after[k]))
    && (verdict.Closed? <==> |after| > |before| && ClosedBy(after[|after| - 1]))
    && (verdict.Expired? <==> |after| > |before| && ExpiredBy(after[|after| - 1]))
  }

  /** One answer more. */
  lemma EndsNext(before: seq<Received>, after: seq<Received>, r: Received, verdict: Outcome)
    requires EndsBy(before, after, Line([]))
    requires (verdict.Closed? <==> ClosedBy(r)) && (verdict.Expired? <==> ExpiredBy(r))
    ensures EndsBy(before, after + [r], verdict)
  {
    var all := after + [r];
    hide ClosedBy, ExpiredBy;
    forall k | |before| <= k < |after| ensures !ClosedBy(all[k]) && !ExpiredBy(all[k]) {
      assert all[k] == after[k];
    }
  }

  lemma EndsOtherwise(before: seq<Received>, after: seq<Received>, verdict: Outcome)
    requires EndsBy(before, after, Line([])) && !verdict.Closed? && !verdict.Expired?
    ensures EndsBy(before, after, verdict)
  {
  }

  lemma EndsYet(before: seq<Received>)
    ensures EndsBy(before, before, Line([]))
  {
  }

  // ---- The reference splitter: it sees the whole stream at once ----

  /** A line without its newline and an optional carriage return before it. */
  function Trimmed(line: bytes): bytes {
    if line != [] && line[|line| - 1] == CARRIAGE_RETURN then line[..|line| - 1] else line
  }

  function Allowance(textBytes: nat): int {
    Min(LINE_MAX, PREAUTH_TEXT_MAX - textBytes)
  }

  predicate Identifies(text: bytes) { SSH_PREFIX <= text }

  function FirstNewline(pending: bytes): int { Find(pending, NEWLINE, 0) }

  /** What readline must answer, whatever the chunks were. */
  function Reference(pending: bytes, textBytes: nat, lines: nat, decodable: bytes -> bool)
      : (r: Outcome)
    ensures r.Line? ==> 0 <= FirstNewline(pending) < Allowance(textBytes)
    ensures r.Line? ==> |r.text| <= FirstNewline(pending)
  {
    var i := FirstNewline(pending);
    if 0 <= i < Allowance(textBytes) then
      var text := Trimmed(pending[..i]);
      if !decodable(text) then NotText
      else if !(Identifies(text)) && lines >= PRE_IDENTIFICATION_LINES then LimitExceeded
      else Line(text)
    else if i >= 0 || |pending| >= Allowance(textBytes) then LimitExceeded
    else EndOfFile
  }

  /** What the loop says about the stream it found: the line up to the first newline, and then
      exactly it is taken and charged; or why there is none. */
  ghost predicate Answers(verdict: Outcome, pending: bytes, charged: nat, line: bytes, textBytes: nat, left: bytes) {
    var i, n := FirstNewline(pending), Allowance(charged);
    && (verdict.Line? ==>
        && 0 <= i < n && i < |pending| && line == pending[..i]
        && textBytes == charged + i + 1 && left == pending[i + 1..])
    && (verdict.LimitExceeded? ==> i >= n || (i < 0 && |pending| >= n))
    && (verdict.EndOfFile? ==> i < 0 && |pending| < n)
  }

  class BoundedPacketizer {
    const socket: Socket
    const decodable: bytes -> bool
    var remainder: bytes
    var textBytes: nat
    var preIdentificationLines: nat
    var bannerLimitExceeded: bool

    constructor (socket: Socket, decodable: bytes -> bool)
      ensures this.socket == socket && this.decodable == decodable && remainder == []
      ensures textBytes == 0 && preIdentificationLines == 0 && !bannerLimitExceeded
    {
      this.socket, this.decodable, remainder := socket, decodable, [];
      textBytes, preIdentificationLines, bannerLimitExceeded := 0, 0, false;
    }

    /** Every octet not yet returned in a line. */
    ghost function Pending(): bytes
      reads this, socket
    {
      remainder + socket.stream
    }

    ghost predicate Valid()
      reads this
    {
      textBytes <= PREAUTH_TEXT_MAX && preIdentificationLines <= PRE_IDENTIFICATION_LINES
    }

    /** No line has been returned yet except pre-identification lines. */
    ghost predicate BeforeIdentification()
      reads this
    {
      Valid() && textBytes <= LINE_MAX * preIdentificationLines
    }

    method Readline() returns (r: Outcome)
      requires Valid()
      modifies this, socket
      ensures Valid() && EndsBy(old(socket.answers), socket.answers, r)
      // Only a timeout or a local close can hide the answer of the reference.
      ensures !r.Expired? && !r.Closed? ==>
              r == Reference(old(Pending()), old(textBytes), old(preIdentificationLines), decodable)
      // A returned line takes exactly itself off the stream.
      ensures r.Line? ==>
              var next := FirstNewline(old(Pending())) + 1;
              && 1 <= next <= Allowance(old(textBytes)) && next <= |old(Pending())|
              && Pending() == old(Pending())[next..] && textBytes == old(textBytes) + next
              && preIdentificationLines
                 == old(preIdentificationLines) + if Identifies(r.text) then 0 else 1
      ensures bannerLimitExceeded == (old(bannerLimitExceeded) || r.LimitExceeded?)
      ensures old(textBytes) <= textBytes <= old(textBytes) + LINE_MAX
      ensures r.Line? && !Identifies(r.text) && old(BeforeIdentification()) ==> BeforeIdentification()
    {
      hide Find, Trimmed;
      var line, verdict := ReadRawLine();
      if !verdict.Line? {
        if verdict.LimitExceeded? { bannerLimitExceeded := true; }
        return verdict;
      }
      var raw := Trimmed(line);
      if !decodable(raw) { return NotText; }
      if !Identifies(raw) {
        if preIdentificationLines >= PRE_IDENTIFICATION_LINES {
          bannerLimitExceeded := true;
          return LimitExceeded;
        }
        preIdentificationLines := preIdentificationLines + 1;
      }
      r := Line(raw);
    }

    /** What has just been received either ends the line, breaks a limit, or is all taken. */
    method TakeRest(line: bytes, rest: bytes, ghost later: bytes, ghost charged: nat)
        returns (taken: bytes, answer: Option<Outcome>)
      requires Valid() && remainder == [] && textBytes == charged + |line| && |line| <= Allowance(charged)
      requires forall i | 0 <= i < |line| :: line[i] != NEWLINE
      modifies this`remainder, this`textBytes
      ensures Valid() && old(textBytes) <= textBytes <= charged + LINE_MAX
      ensures answer.None? ==>
                && taken == line + rest && remainder == [] && textBytes == charged + |taken|
                && |taken| <= Allowance(charged) && forall i | 0 <= i < |taken| :: taken[i] != NEWLINE
      ensures answer.Some? ==>
                && (answer.value.Line? || answer.value.LimitExceeded?)
                && Answers(answer.value, line + rest + later, charged, taken, textBytes, remainder + later)
    {
      hide FirstNewline, Answers;
      var newline := FirstNewline(rest);
      NewlineFound(rest);
      var length := if newline < 0 then |rest| else newline + 1;
      if length > LINE_MAX - |line| || length > PREAUTH_TEXT_MAX - textBytes {
        TooLongAnswers(line, rest, later, newline, charged, textBytes, remainder + later);
        return line, Some(LimitExceeded);
      }
      textBytes := textBytes + length;
      if newline >= 0 {
        LineAnswers(line, rest, later, newline, charged);
        remainder := rest[length..];
        return line + rest[..newline], Some(Line([]));
      }
      return line + rest, None;
    }

    /** The receiving loop: one line without its newline, or why there is none. */
    method ReadRawLine() returns (line: bytes, verdict: Outcome)
      requires Valid()
      modifies this`remainder, this`textBytes, socket
      ensures Valid() && !verdict.NotText?
      ensures old(textBytes) <= textBytes <= old(textBytes) + LINE_MAX
      ensures Answers(verdict, old(Pending()), old(textBytes), line, textBytes, Pending())
      ensures EndsBy(old(socket.answers), socket.answers, verdict)
    {
      hide FirstNewline, Answers, EndsBy;
      ghost var start := socket.answers;
      EndsYet(start);
      ghost var pending, charged := Pending(), textBytes;
      verdict := Line([]);
      line := [];
      var rest := remainder;
      remainder := [];
      while true
        invariant Valid() && charged == old(textBytes) && |line| <= Allowance(charged)
        invariant textBytes == charged + |line| && remainder == [] && verdict == Line([])
        invariant pending == line + rest + socket.stream
        invariant |line| <= LINE_MAX && EndsBy(start, socket.answers, verdict)
        invariant forall i | 0 <= i < |line| :: line[i] != NEWLINE
        decreases 2 * |socket.stream| + 2 * socket.timeouts + if rest == [] then 0 else 1
      {
        if rest != [] {
          var answer: Option<Outcome>;
          line, answer := TakeRest(line, rest, socket.stream, charged);
          if answer.Some? {
            EndsOtherwise(start, socket.answers, answer.value);
            return line, answer.value;
          }
          rest := [];
        }
        Nothing(line, socket.stream);
        var remaining := Min(LINE_MAX - |line|, PREAUTH_TEXT_MAX - textBytes);
        if remaining == 0 {
          FullAnswers(line, socket.stream, charged, textBytes, Pending());
          EndsOtherwise(start, socket.answers, LimitExceeded);
          return line, LimitExceeded;
        }
        ghost var before := socket.answers;
        var received := socket.Recv(Min(READ_CHUNK, remaining));
        EndsNext(start, before, received,
                 if ClosedBy(received) then Closed else if ExpiredBy(received) then Expired else Line([]));
        match received
        case TimedOut(expired, closed) =>
          NoAnswer(pending, charged, line, textBytes, Pending());
          if closed { return line, Closed; }
          if expired { return line, Expired; }
        case Data(chunk, closed) =>
          NoAnswer(pending, charged, line, textBytes, Pending());
          if chunk == [] {
            assert pending == line;
            EndAnswers(line, charged, textBytes, Pending());
            EndsOtherwise(start, socket.answers, EndOfFile);
            return line, EndOfFile;
          }
          if closed { return line, Closed; }
          Joined(line, chunk, socket.stream);
          rest := chunk;
      }
    }
  }

  lemma Nothing(a: bytes, b: bytes)
    ensures a + [] + b == a + b
  {
    assert a + [] == a;
  }

  lemma Joined(a: bytes, b: bytes, c: bytes)
    ensures a + (b + c) == a + b + c
  {
  }

  lemma NewlineFound(octets: bytes)
    ensures var n := FirstNewline(octets);
            if n < 0 then forall i | 0 <= i < |octets| :: octets[i] != NEWLINE else n < |octets| && octets[n] == NEWLINE
  {
  }

  lemma LineAnswers(line: bytes, rest: bytes, later: bytes, newline: nat, charged: nat)
    requires forall i | 0 <= i < |line| :: line[i] != NEWLINE
    requires newline == FirstNewline(rest) && newline < |rest| && |line| + newline < Allowance(charged)
    ensures Answers(Line([]), line + rest + later, charged, line + rest[..newline],
                    charged + |line| + newline + 1, rest[newline + 1..] + later)
  {
    FindIs(line + rest + later, NEWLINE, 0, |line| + newline);
  }

  lemma TooLongAnswers(line: bytes, rest: bytes, later: bytes, newline: int, charged: nat, textBytes: nat, left: bytes)
    requires forall i | 0 <= i < |line| :: line[i] != NEWLINE
    requires newline == FirstNewline(rest) && newline < |rest|
    requires |line| + (if newline < 0 then |rest| else newline + 1) > Allowance(charged)
    ensures Answers(LimitExceeded, line + rest + later, charged, line, textBytes, left)
  {
    var whole := line + rest + later;
    if newline >= 0 {
      FindIs(whole, NEWLINE, 0, |line| + newline);
    } else {
      NoneBefore(whole, |line| + |rest|);
    }
  }

  lemma NoneBefore(whole: bytes, n: nat)
    requires n <= |whole| && forall i | 0 <= i < n :: whole[i] != NEWLINE
    ensures FirstNewline(whole) < 0 || FirstNewline(whole) >= n
  {
  }

  lemma FullAnswers(line: bytes, later: bytes, charged: nat, textBytes: nat, left: bytes)
    requires forall i | 0 <= i < |line| :: line[i] != NEWLINE
    requires |line| >= Allowance(charged)
    ensures Answers(LimitExceeded, line + later, charged, line, textBytes, left)
  {
    NoneBefore(line + later, |line|);
  }

  lemma EndAnswers(line: bytes, charged: nat, textBytes: nat, left: bytes)
    requires forall i | 0 <= i < |line| :: line[i] != NEWLINE
    requires |line| < Allowance(charged)
    ensures Answers(EndOfFile, line, charged, line, textBytes, left)
  {
    NoneBefore(line, |line|);
  }

  /** A timeout or a local close says nothing about the stream. */
  lemma NoAnswer(pending: bytes, charged: nat, line: bytes, textBytes: nat, left: bytes)
    ensures Answers(Expired, pending, charged, line, textBytes, left)
    ensures Answers(Closed, pending, charged, line, textBytes, left)
  {
  }

  /** The cumulative guard is redundant: as long as only pre-identification lines
      have been returned, the line length alone decides. */
  lemma TextGuardRedundant(textBytes: nat, lines: nat, pending: bytes, decodable: bytes -> bool)
    requires lines <= PRE_IDENTIFICATION_LINES && textBytes <= LINE_MAX * lines
    ensures Allowance(textBytes) == LINE_MAX && textBytes + LINE_MAX <= PREAUTH_TEXT_MAX
    ensures Reference(pending, textBytes, lines, decodable) == Reference(pending, 0, lines, decodable)
  {
  }

  /** A line may have 255 octets, and all text together 25500. */
  lemma AllowanceExactly(textBytes: nat)
    ensures Allowance(textBytes) <= 255 && Allowance(textBytes) <= 25500 - textBytes
    ensures Allowance(textBytes) == 255 || Allowance(textBytes) == 25500 - textBytes
  {
  }

  // ---- Repeated calls ----

  datatype Conversation = Conversation(before: seq<bytes>, last: Outcome, left: bytes)

  /** The reference answer for a whole conversation: the lines returned before the
      first one that identifies, and that line or the reason for stopping. */
  function Lines(pending: bytes, textBytes: nat, lines: nat, decodable: bytes -> bool): Conversation
    decreases |pending|
  {
    var r := Reference(pending, textBytes, lines, decodable);
    if !r.Line? then Conversation([], r, [])
    else
      var next := FirstNewline(pending) + 1;
      if Identifies(r.text) then Conversation([], r, pending[next..])
      else
        var more := Lines(pending[next..], textBytes + next, lines + 1, decodable);
        more.(before := [r.text] + more.before)
  }

  /** Calling readline until identification, as the handshake does: the result is
      that of the reference on the whole stream, for every chunking. */
  method ReadIdentification(reader: BoundedPacketizer, ghost c: Conversation)
      returns (before: seq<bytes>, last: Outcome)
    requires reader.Valid()
    requires c == Lines(reader.Pending(), reader.textBytes, reader.preIdentificationLines,
                        reader.decodable)
    modifies reader, reader.socket
    decreases |reader.Pending()|
    ensures !last.Expired? && !last.Closed? ==>
            before == c.before && last == c.last && (last.Line? ==> reader.Pending() == c.left)
  {
    hide Lines, Reference, Identifies, FirstNewline, Allowance;
    before := [];
    ghost var pending, textBytes, lines, decodable :=
      reader.Pending(), reader.textBytes, reader.preIdentificationLines, reader.decodable;
    LinesStep(pending, textBytes, lines, decodable);
    last := reader.Readline();
    if last.Line? && !Identifies(last.text) {
      var text := last.text;
      ghost var next := FirstNewline(pending) + 1;
      ghost var more := Lines(pending[next..], textBytes + next, lines + 1, decodable);
      before, last := ReadIdentification(reader, more);
      before := [text] + before;
    }
  }

  lemma LinesStep(pending: bytes, textBytes: nat, lines: nat, decodable: bytes -> bool)
    ensures var r, next, c := Reference(pending, textBytes, lines, decodable), FirstNewline(pending) + 1,
                              Lines(pending, textBytes, lines, decodable);
            if r.Line? && !Identifies(r.text) then
              var more := Lines(pending[next..], textBytes + next, lines + 1, decodable);
              c == Conversation([r.text] + more.before, more.last, more.left)
            else c == Conversation([], r, if r.Line? then pending[next..] else [])
  {
  }

  lemma ReferenceLine(pending: bytes, textBytes: nat, lines: nat, decodable: bytes -> bool)
    ensures var r, next := Reference(pending, textBytes, lines, decodable), FirstNewline(pending) + 1;
            r.Line? ==>
            && 1 <= next <= LINE_MAX && next <= |pending| && |r.text| < LINE_MAX
            && (lines >= PRE_IDENTIFICATION_LINES ==> Identifies(r.text))
  {
  }

  /** Each returned line is shorter than the limit, and at most 99 precede the
      identification. */
  lemma {:induction false} LinesBounded(pending: bytes, textBytes: nat, lines: nat, decodable: bytes -> bool)
    requires lines <= PRE_IDENTIFICATION_LINES && textBytes <= LINE_MAX * lines
    ensures var c := Lines(pending, textBytes, lines, decodable);
            && lines + |c.before| <= PRE_IDENTIFICATION_LINES
            && (forall i | 0 <= i < |c.before| :: |c.before[i]| < LINE_MAX && !Identifies(c.before[i]))
            && (c.last.Line? ==> Identifies(c.last.text) && |c.last.text| < LINE_MAX)
    decreases |pending|
  {
    LinesStep(pending, textBytes, lines, decodable);
    ReferenceLine(pending, textBytes, lines, decodable);
    hide Lines, Reference, FirstNewline, Identifies;
    var r, next := Reference(pending, textBytes, lines, decodable), FirstNewline(pending) + 1;
    if r.Line? && !Identifies(r.text) {
      LinesBounded(pending[next..], textBytes + next, lines + 1, decodable);
    }
  }

  /** What follows the identification is left unread, whole and in order. */
  lemma {:induction false} LeftIsSuffix(pending: bytes, textBytes: nat, lines: nat, decodable: bytes -> bool)
    ensures var c := Lines(pending, textBytes, lines, decodable);
            c.last.Line? ==> |c.left| < |pending| && c.left == pending[|pending| - |c.left|..]
    decreases |pending|
  {
    LinesStep(pending, textBytes, lines, decodable);
    ReferenceLine(pending, textBytes, lines, decodable);
    hide Lines, Reference, FirstNewline, Identifies;
    var r, next := Reference(pending, textBytes, lines, decodable), FirstNewline(pending) + 1;
    if r.Line? && !Identifies(r.text) {
      var rest := pending[next..];
      LeftIsSuffix(rest, textBytes + next, lines + 1, decodable);
      SuffixOfSuffix(pending, next, Lines(rest, textBytes + next, lines + 1, decodable).left);
    }
  }

  lemma SuffixOfSuffix(s: bytes, n: nat, left: bytes)
    requires n <= |s|
    ensures |left| <= |s[n..]| && left == s[n..][|s[n..]| - |left|..] ==> left == s[|s| - |left|..]
  {
  }

  // ---- What a peer sends is what is read ----

  /** A line as a peer sends it, ended by CR LF or by LF alone. */
  datatype Sent = Sent(text: bytes, cr: bool)

  function Wire(s: Sent): bytes { s.text + (if s.cr then [13] else []) + [10] }

  function Wires(ss: seq<Sent>): bytes {
    if ss == [] then [] else Wire(ss[0]) + Wires(ss[1..])
  }

  function Texts(ss: seq<Sent>): seq<bytes> {
    if ss == [] then [] else [ss[0].text] + Texts(ss[1..])
  }

  /** At most 255 octets with its end, and not ambiguous. */
  predicate Sendable(s: Sent, decodable: bytes -> bool) {
    && 10 !in s.text && |Wire(s)| <= 255 && decodable(s.text)
    && (!s.cr && s.text != [] ==> s.text[|s.text| - 1] != 13)
  }

  /** "SSH-" */
  predicate Announces(s: Sent) { |s.text| >= 4 && s.text[..4] == [83, 83, 72, 45] }

  predicate Preface(ss: seq<Sent>, decodable: bytes -> bool) {
    forall s | s in ss :: Sendable(s, decodable) && !Announces(s)
  }

  lemma WireRead(s: Sent, later: bytes, textBytes: nat, lines: nat, decodable: bytes -> bool)
    requires Sendable(s, decodable) && lines <= PRE_IDENTIFICATION_LINES && textBytes <= LINE_MAX * lines
    ensures var pending := Wire(s) + later;
      && FirstNewline(pending) + 1 == |Wire(s)| && pending[|Wire(s)|..] == later
      && Reference(pending, textBytes, lines, decodable)
         == if Announces(s) || lines < 99 then Line(s.text) else LimitExceeded
    ensures Identifies(s.text) <==> Announces(s)
  {
    var pending, i := Wire(s) + later, |Wire(s)| - 1;
    forall k | 0 <= k < i ensures pending[k] != NEWLINE {
      if k < |s.text| { assert s.text[k] in s.text; }
    }
    FindIs(pending, NEWLINE, 0, i);
    assert pending[..i] == s.text + if s.cr then [13] else [];
    EndTrimmed(s, decodable);
    TextGuardRedundant(textBytes, lines, pending, decodable);
    hide Trimmed, FirstNewline, Allowance;
    assert pending[|Wire(s)|..] == later;
  }

  lemma EndTrimmed(s: Sent, decodable: bytes -> bool)
    requires Sendable(s, decodable)
    ensures Trimmed(s.text + if s.cr then [13] else []) == s.text
  {
    if s.cr {
      assert (s.text + [13])[..|s.text|] == s.text;
    } else {
      assert s.text + [] == s.text;
    }
  }

  /** Up to 99 lines and an identification: all are read as they were sent, and what follows
      is left. */
  lemma {:induction false} SentIsRead(ss: seq<Sent>, last: Sent, rest: bytes, textBytes: nat, lines: nat,
                                      decodable: bytes -> bool)
    requires Preface(ss, decodable) && Sendable(last, decodable) && Announces(last)
    requires lines + |ss| <= 99 && textBytes <= 255 * lines
    ensures Lines(Wires(ss) + Wire(last) + rest, textBytes, lines, decodable)
         == Conversation(Texts(ss), Line(last.text), rest)
    decreases |ss|
  {
    var pending := Wires(ss) + Wire(last) + rest;
    hide Lines, Reference, Wire, Sendable, Announces, Identifies, FirstNewline, Trimmed, Allowance;
    LinesStep(pending, textBytes, lines, decodable);
    if ss == [] {
      assert pending == Wire(last) + rest;
      WireRead(last, rest, textBytes, lines, decodable);
    } else {
      var later := Wires(ss[1..]) + Wire(last) + rest;
      assert pending == Wire(ss[0]) + later;
      assert ss[0] in ss && forall s | s in ss[1..] :: s in ss;
      WireRead(ss[0], later, textBytes, lines, decodable);
      LineAtMost(ss[0], decodable);
      SentIsRead(ss[1..], last, rest, textBytes + |Wire(ss[0])|, lines + 1, decodable);
    }
  }

  lemma LineAtMost(s: Sent, decodable: bytes -> bool)
    requires Sendable(s, decodable)
    ensures |Wire(s)| <= 255
  {
  }

  /** With a hundredth line before the identification the limit is exceeded. */
  lemma {:induction false} TooManyLines(ss: seq<Sent>, last: Sent, rest: bytes, textBytes: nat, lines: nat,
                                        decodable: bytes -> bool)
    requires Preface(ss, decodable) && Sendable(last, decodable) && !Announces(last)
    requires lines + |ss| == 99 && textBytes <= 255 * lines
    ensures Lines(Wires(ss) + Wire(last) + rest, textBytes, lines, decodable)
         == Conversation(Texts(ss), LimitExceeded, [])
    decreases |ss|
  {
    var pending := Wires(ss) + Wire(last) + rest;
    hide Lines, Reference, Wire, Sendable, Announces, Identifies, FirstNewline, Trimmed, Allowance;
    if ss == [] {
      LinesStep(pending, textBytes, lines, decodable);
      assert pending == Wire(last) + rest;
      WireRead(last, rest, textBytes, lines, decodable);
    } else {
      var later := Wires(ss[1..]) + Wire(last) + rest;
      assert ss[0] in ss && forall s | s in ss[1..] :: s in ss;
      LineAtMost(ss[0], decodable);
      TooManyLines(ss[1..], last, rest, textBytes + |Wire(ss[0])|, lines + 1, decodable);
      assert pending == Wire(ss[0]) + later;
      hide Wires, Preface;
      LinesStep(pending, textBytes, lines, decodable);
      WireRead(ss[0], later, textBytes, lines, decodable);
    }
  }

  /** 255 octets without an end of line exceed the limit as well. */
  lemma LineTooLong(pending: bytes, textBytes: nat, lines: nat, decodable: bytes -> bool)
    requires |pending| >= 255 && forall i | 0 <= i < 255 :: pending[i] != 10
    ensures Lines(pending, textBytes, lines, decodable) == Conversation([], LimitExceeded, [])
  {
    NoneBefore(pending, 255);
  }
}
