/** Octets, and the few bytes methods of Python that the parsers rely on. */
module Bytes {

  type byte = x: int | 0 <= x < 256
  type bytes = seq<byte>

  function Zeros(n: nat): (z: bytes)
    ensures |z| == n && forall i | 0 <= i < n :: z[i] == 0
  {
    seq(n, _ => 0)
  }

  /** raw.find(needle, start), -1 when absent. */
  function Find(raw: bytes, needle: byte, start: nat): (i: int)
    requires start <= |raw|
    ensures i == -1 || (start <= i < |raw| && raw[i] == needle)
    ensures forall k | start <= k < (if i < 0 then |raw| else i) :: raw[k] != needle
    decreases |raw| - start
  {
    if start == |raw| then -1
    else if raw[start] == needle then start
    else Find(raw, needle, start + 1)
  }

  /** The first occurrence is characterised by its position alone. */
  lemma FindIs(raw: bytes, needle: byte, start: nat, i: nat)
    requires start <= i < |raw| && raw[i] == needle
    requires forall k | start <= k < i :: raw[k] != needle
    ensures Find(raw, needle, start) == i
  {
  }

  /** raw.rstrip(strip). */
  function RightStrip(raw: bytes, strip: set<byte>): (r: bytes)
    ensures r <= raw
    ensures r != [] ==> r[|r| - 1] !in strip
    ensures forall i | |r| <= i < |raw| :: raw[i] in strip
  {
    if raw != [] && raw[|raw| - 1] in strip then RightStrip(raw[..|raw| - 1], strip) else raw
  }

  /** raw.lstrip(strip). */
  function LeftStrip(raw: bytes, strip: set<byte>): (r: bytes)
    ensures |r| <= |raw| && r == raw[|raw| - |r|..]
    ensures r != [] ==> r[0] !in strip
    ensures forall i | 0 <= i < |raw| - |r| :: raw[i] in strip
  {
    if raw != [] && raw[0] in strip then LeftStrip(raw[1..], strip) else raw
  }

  predicate IsDecimal(raw: bytes) {
    raw != [] && forall i | 0 <= i < |raw| :: 48 <= raw[i] <= 57
  }

  /** The digits of an ASCII numeral. */
  function FromAscii(raw: bytes): (d: seq<nat>)
    requires forall i | 0 <= i < |raw| :: 48 <= raw[i] <= 57
    ensures |d| == |raw| && forall i | 0 <= i < |d| :: d[i] == raw[i] - 48
  {
    seq(|raw|, i requires 0 <= i < |raw| => raw[i] - 48)
  }

  function ToAscii(digits: seq<nat>): (raw: bytes)
    requires forall i | 0 <= i < |digits| :: digits[i] <= 9
    ensures |raw| == |digits| && forall i | 0 <= i < |raw| :: raw[i] == digits[i] + 48
  {
    seq(|digits|, i requires 0 <= i < |digits| => digits[i] + 48)
  }

  lemma AsciiRoundTrip(digits: seq<nat>)
    requires forall i | 0 <= i < |digits| :: digits[i] <= 9
    ensures FromAscii(ToAscii(digits)) == digits
  {
  }

  predicate Continuation(b: byte) { 0x80 <= b < 0xC0 }

  /** Strict UTF-8, RFC 3629 section 4: no overlong forms, no surrogates. */
  predicate Utf8(s: bytes) {
    if s == [] then true
    else if s[0] < 0x80 then Utf8(s[1..])
    else if 0xC2 <= s[0] <= 0xDF then |s| >= 2 && Continuation(s[1]) && Utf8(s[2..])
    else if 0xE0 <= s[0] <= 0xEF then
      && |s| >= 3 && Continuation(s[1]) && Continuation(s[2])
      && (s[0] == 0xE0 ==> s[1] >= 0xA0) && (s[0] == 0xED ==> s[1] < 0xA0)
      && Utf8(s[3..])
    else if 0xF0 <= s[0] <= 0xF4 then
      && |s| >= 4 && Continuation(s[1]) && Continuation(s[2]) && Continuation(s[3])
      && (s[0] == 0xF0 ==> s[1] >= 0x90) && (s[0] == 0xF4 ==> s[1] < 0x90)
      && Utf8(s[4..])
    else false
  }

  /** ASCII text as octets. */
  function Ascii(text: string): bytes
    requires forall i | 0 <= i < |text| :: text[i] < '\U{80}'
  {
    seq(|text|, i requires 0 <= i < |text| => text[i] as int)
  }

  lemma Parts(a: bytes, b: bytes, c: bytes)
    ensures var s := a + b + c;
            s[..|a|] == a && s[|a|..|a| + |b|] == b && s[|a| + |b|..] == c
  {
  }
}
