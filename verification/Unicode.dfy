/** Strict UTF-8 (section 4 of RFC 3629) from the side of the encoder. */
module Unicode {
  import opened Bytes

  /** A Unicode scalar value: no surrogate. */
  predicate Scalar(c: nat) { c < 0xD800 || 0xE000 <= c < 0x110000 }

  /** The one to four octets of a scalar value. */
  function Encode(c: nat): (e: bytes)
    requires Scalar(c)
  {
    if c < 0x80 then [c]
    else if c < 0x800 then [0xC0 + c / 0x40, 0x80 + c % 0x40]
    else if c < 0x10000 then [0xE0 + c / 0x1000, 0x80 + c / 0x40 % 0x40, 0x80 + c % 0x40]
    else [0xF0 + c / 0x40000, 0x80 + c / 0x1000 % 0x40, 0x80 + c / 0x40 % 0x40, 0x80 + c % 0x40]
  }

  ghost predicate Scalars(cs: seq<nat>) { forall i | 0 <= i < |cs| :: Scalar(cs[i]) }

  function Encoded(cs: seq<nat>): bytes
    requires Scalars(cs)
  {
    if cs == [] then [] else Encode(cs[0]) + Encoded(cs[1..])
  }

  lemma EncodeAccepted(c: nat, rest: bytes)
    requires Scalar(c)
    ensures Utf8(Encode(c) + rest) <==> Utf8(rest)
  {
    var e, s := Encode(c), Encode(c) + rest;
    assert s[|e|..] == rest && s[..|e|] == e;
    assert c == c / 0x40 * 0x40 + c % 0x40 && c / 0x1000 == c / 0x40 / 0x40 && c / 0x40000 == c / 0x1000 / 0x40;
  }

  lemma Two(lead: nat, second: nat)
    requires second < 0x40
    ensures var c := lead * 0x40 + second; c / 0x40 == lead && c % 0x40 == second
  {
  }

  lemma Three(lead: nat, second: nat, third: nat)
    requires second < 0x40 && third < 0x40
    ensures var c := (lead * 0x40 + second) * 0x40 + third;
            c / 0x1000 == lead && c / 0x40 % 0x40 == second && c % 0x40 == third
  {
    Two(lead, second);
    Two(lead * 0x40 + second, third);
    var c := (lead * 0x40 + second) * 0x40 + third;
    assert c / 0x1000 == c / 0x40 / 0x40;
  }

  lemma Four(lead: nat, second: nat, third: nat, fourth: nat)
    requires second < 0x40 && third < 0x40 && fourth < 0x40
    ensures var c := ((lead * 0x40 + second) * 0x40 + third) * 0x40 + fourth;
            && c / 0x40000 == lead && c / 0x1000 % 0x40 == second
            && c / 0x40 % 0x40 == third && c % 0x40 == fourth
  {
    Three(lead, second, third);
    Two((lead * 0x40 + second) * 0x40 + third, fourth);
    var c := ((lead * 0x40 + second) * 0x40 + third) * 0x40 + fourth;
    assert c / 0x40000 == c / 0x40 / 0x1000 && c / 0x1000 == c / 0x40 / 0x40;
  }

  lemma FirstOfTwo(s: bytes) returns (c: nat)
    requires |s| >= 2 && 0xC2 <= s[0] <= 0xDF && Continuation(s[1])
    ensures Scalar(c) && s[..2] == Encode(c)
  {
    var lead: int, second: int := s[0] - 0xC0, s[1] - 0x80;
    c := lead * 0x40 + second;
    Two(lead, second);
  }

  lemma FirstOfThree(s: bytes) returns (c: nat)
    requires |s| >= 3 && 0xE0 <= s[0] <= 0xEF && Continuation(s[1]) && Continuation(s[2])
    requires (s[0] == 0xE0 ==> s[1] >= 0xA0) && (s[0] == 0xED ==> s[1] < 0xA0)
    ensures Scalar(c) && s[..3] == Encode(c)
  {
    var lead: int, second: int, third: int := s[0] - 0xE0, s[1] - 0x80, s[2] - 0x80;
    c := (lead * 0x40 + second) * 0x40 + third;
    Three(lead, second, third);
  }

  lemma FirstOfFour(s: bytes) returns (c: nat)
    requires |s| >= 4 && 0xF0 <= s[0] <= 0xF4
    requires Continuation(s[1]) && Continuation(s[2]) && Continuation(s[3])
    requires (s[0] == 0xF0 ==> s[1] >= 0x90) && (s[0] == 0xF4 ==> s[1] < 0x90)
    ensures Scalar(c) && s[..4] == Encode(c)
  {
    var lead: int, second: int, third: int, fourth: int := s[0] - 0xF0, s[1] - 0x80, s[2] - 0x80, s[3] - 0x80;
    c := ((lead * 0x40 + second) * 0x40 + third) * 0x40 + fourth;
    Four(lead, second, third, fourth);
  }

  /** The first scalar value of valid text. */
  lemma FirstScalar(s: bytes) returns (c: nat, n: nat)
    requires s != [] && Utf8(s)
    ensures Scalar(c) && 1 <= n <= |s| && s[..n] == Encode(c) && Utf8(s[n..])
  {
    hide Encode, Scalar;
    if s[0] < 0x80 {
      c, n := s[0], 1;
      OneOctet(s);
    } else if s[0] <= 0xDF {
      c := FirstOfTwo(s);
      n := 2;
    } else if s[0] <= 0xEF {
      c := FirstOfThree(s);
      n := 3;
    } else {
      c := FirstOfFour(s);
      n := 4;
    }
  }

  lemma OneOctet(s: bytes)
    requires s != [] && s[0] < 0x80
    ensures Scalar(s[0]) && s[..1] == Encode(s[0])
  {
  }

  /** Exactly the encodings of scalar values are valid. */
  lemma {:induction false} Utf8Exactly(s: bytes)
    ensures Utf8(s) <==> exists cs :: Scalars(cs) && Encoded(cs) == s
    decreases |s|
  {
    if s == [] {
      assert Scalars([]) && Encoded([]) == s;
    } else if Utf8(s) {
      var c, n := FirstScalar(s);
      assert s == Encode(c) + s[n..];
      EncodeAccepted(c, s[n..]);
      Utf8Exactly(s[n..]);
      var cs :| Scalars(cs) && Encoded(cs) == s[n..];
      assert ([c] + cs)[1..] == cs;
      assert Scalars([c] + cs) && Encoded([c] + cs) == s;
    }
    forall cs | Scalars(cs) && Encoded(cs) == s ensures Utf8(s) { EncodedAccepted(cs); }
  }

  lemma {:induction false} EncodedAccepted(cs: seq<nat>)
    requires Scalars(cs)
    ensures Utf8(Encoded(cs))
  {
    if cs != [] {
      EncodedAccepted(cs[1..]);
      EncodeAccepted(cs[0], Encoded(cs[1..]));
    }
  }
}
