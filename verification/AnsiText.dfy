/** Terminal text with ESC [ digits L insert-line codes, and what Netmiko's
    strip_ansi_escape_codes makes of it. */
module AnsiText {
  import opened Options
  import Numeral

  const ESC: char := '\U{1B}'
  const NEWLINE: char := '\n'

  /** What is left abstract of the vendor and of Unicode: the removal of all other
      escape codes, and the value of a decimal digit (-1 for any other character). */
  datatype Vendor = Vendor(removeOthers: string -> string, decimal: char -> int)

  predicate IsDigit(v: Vendor, c: char) { 0 <= v.decimal(c) <= 9 }

  /** text.replace(from, to). */
  function Rename(text: string, from: char, to: char): (r: string)
    ensures |r| == |text|
    ensures forall i | 0 <= i < |r| :: r[i] == if text[i] == from then to else text[i]
  {
    seq(|text|, i requires 0 <= i < |text| => if text[i] == from then to else text[i])
  }

  lemma RenameBack(text: string, from: char, to: char)
    requires to !in text
    ensures Rename(Rename(text, from, to), to, from) == text
  {
  }

  /** Private-use characters, from which the guard takes its sentinel. */
  predicate PrivateUse(c: char) { 0xF0000 <= c as int < 0x110000 }

  /** The reviewed vendor: removing the other codes treats L like a fresh private
      character, and invents no character but a newline. */
  ghost predicate Reviewed(v: Vendor) {
    && !IsDigit(v, 'L') && !IsDigit(v, ESC) && !IsDigit(v, '[')
    && (forall text: string, c: char | PrivateUse(c) && c !in text ::
          v.removeOthers(Rename(text, 'L', c)) == Rename(v.removeOthers(text), 'L', c))
    && (forall text: string, c: char | c in v.removeOthers(text) :: c in text || c == NEWLINE)
  }

  /** The end of the run of digits that starts at i. */
  function DigitsEnd(v: Vendor, text: string, i: nat): (j: nat)
    requires i <= |text|
    ensures i <= j <= |text|
    ensures forall k | i <= k < j :: IsDigit(v, text[k])
    ensures j < |text| ==> !IsDigit(v, text[j])
    decreases |text| - i
  {
    if i < |text| && IsDigit(v, text[i]) then DigitsEnd(v, text, i + 1) else i
  }

  /** re.match of ESC \[ (\d+) L at i: the index after the L. */
  function MatchEnd(v: Vendor, text: string, i: nat): (end: Option<nat>)
    requires i < |text|
    ensures end.Some? ==>
            && i + 4 <= end.value <= |text| && text[end.value - 1] == 'L'
            && forall k | i + 2 <= k < end.value - 1 :: IsDigit(v, text[k])
  {
    if text[i] != ESC || i + 1 >= |text| || text[i + 1] != '[' then None
    else
      var j := DigitsEnd(v, text, i + 2);
      if j == i + 2 || j == |text| || text[j] != 'L' then None else Some(j + 1)
  }

  /** text[i..end] is ESC [, at least one digit, and L. */
  predicate IsCode(v: Vendor, text: string, i: nat, end: nat)
    requires end <= |text|
  {
    && i + 4 <= end && text[i] == ESC && text[i + 1] == '[' && text[end - 1] == 'L'
    && forall k | i + 2 <= k < end - 1 :: v.decimal(text[k]) >= 0 && v.decimal(text[k]) <= 9
  }

  /** A match is found exactly where there is a code, and it is that one. */
  lemma MatchExactly(v: Vendor, text: string, i: nat, end: nat)
    requires i < |text| && end <= |text| && v.decimal('L') < 0
    ensures MatchEnd(v, text, i) == Some(end) <==> IsCode(v, text, i, end)
  {
    if i + 1 < |text| && text[i] == ESC && text[i + 1] == '[' {
      var j := DigitsEnd(v, text, i + 2);
      if IsCode(v, text, i, end) {
        assert j >= end - 1 by { DigitsReach(v, text, i + 2, end - 1); }
        assert j == end - 1;
      }
    }
  }

  lemma {:induction false} DigitsReach(v: Vendor, text: string, i: nat, end: nat)
    requires i <= end <= |text| && forall k | i <= k < end :: IsDigit(v, text[k])
    ensures DigitsEnd(v, text, i) >= end
    decreases end - i
  {
    if i < end { DigitsReach(v, text, i + 1, end); }
  }

  // ---- finditer, from a position on ----

  function Count(v: Vendor, text: string, i: nat): nat
    requires i <= |text|
    decreases |text| - i
  {
    if i == |text| then 0
    else if MatchEnd(v, text, i).Some? then 1 + Count(v, text, MatchEnd(v, text, i).value)
    else Count(v, text, i + 1)
  }

  function MatchedLength(v: Vendor, text: string, i: nat): nat
    requires i <= |text|
    decreases |text| - i
  {
    if i == |text| then 0
    else if MatchEnd(v, text, i).Some? then
      MatchEnd(v, text, i).value - i + MatchedLength(v, text, MatchEnd(v, text, i).value)
    else MatchedLength(v, text, i + 1)
  }

  /** group(1) of the first match. */
  function FirstDigits(v: Vendor, text: string, i: nat): (d: Option<string>)
    requires i <= |text|
    ensures d.Some? <==> Count(v, text, i) > 0
    ensures d.Some? ==> d.value != [] && forall k | 0 <= k < |d.value| :: IsDigit(v, d.value[k])
    decreases |text| - i
  {
    if i == |text| then None
    else if MatchEnd(v, text, i).Some? then Some(text[i + 2..MatchEnd(v, text, i).value - 1])
    else FirstDigits(v, text, i + 1)
  }

  /** re.sub of every match by one replacement. */
  function Substitute(v: Vendor, text: string, i: nat, replacement: string): string
    requires i <= |text|
    decreases |text| - i
  {
    if i == |text| then []
    else if MatchEnd(v, text, i).Some? then
      replacement + Substitute(v, text, MatchEnd(v, text, i).value, replacement)
    else [text[i]] + Substitute(v, text, i + 1, replacement)
  }

  function DigitValues(v: Vendor, digits: string): (d: seq<nat>)
    requires forall k | 0 <= k < |digits| :: IsDigit(v, digits[k])
    ensures |d| == |digits| && Numeral.InBase(10, d)
  {
    var d := seq(|digits|, k requires 0 <= k < |digits| =>
                             assert IsDigit(v, digits[k]); v.decimal(digits[k]));
    assert forall k | 0 <= k < |d| :: IsDigit(v, digits[k]) && d[k] == v.decimal(digits[k]);
    d
  }

  /** int(digits) */
  function CountOf(v: Vendor, digits: string): nat
    requires forall k | 0 <= k < |digits| :: IsDigit(v, digits[k])
  {
    Numeral.Value(10, DigitValues(v, digits))
  }

  function Newlines(n: nat): (s: string)
    ensures |s| == n
  {
    seq(n, _ => NEWLINE)
  }

  /** strip_ansi_escape_codes with RETURN = "\n": the first count for all codes. */
  function VendorStrip(v: Vendor, buffer: string): string {
    var text := v.removeOthers(buffer);
    match FirstDigits(v, text, 0)
    case None => text
    case Some(digits) => Substitute(v, text, 0, Newlines(CountOf(v, digits)))
  }

  lemma OneMore(n: nat, unit: nat)
    ensures (1 + n) * unit == unit + n * unit
  {
  }

  lemma {:induction false} SubstituteLength(v: Vendor, text: string, i: nat, replacement: string)
    requires i <= |text|
    ensures MatchedLength(v, text, i) <= |text| - i
    ensures |Substitute(v, text, i, replacement)|
         == |text| - i - MatchedLength(v, text, i) + Count(v, text, i) * |replacement|
    decreases |text| - i
  {
    if i < |text| {
      var m := MatchEnd(v, text, i);
      if m.Some? {
        SubstituteLength(v, text, m.value, replacement);
        OneMore(Count(v, text, m.value), |replacement|);
      } else {
        SubstituteLength(v, text, i + 1, replacement);
      }
    }
  }

  lemma {:induction false} NoMatchWithoutL(v: Vendor, text: string, i: nat)
    requires i <= |text| && 'L' !in text
    ensures Count(v, text, i) == 0
    decreases |text| - i
  {
    if i < |text| {
      NoMatchWithoutL(v, text, i + 1);
    }
  }

  /** The length of the vendor's result, known before it is built. */
  lemma VendorStripLength(v: Vendor, buffer: string)
    ensures var text := v.removeOthers(buffer);
            match FirstDigits(v, text, 0)
            case None => VendorStrip(v, buffer) == text
            case Some(digits) =>
              |VendorStrip(v, buffer)|
              == |text| - MatchedLength(v, text, 0) + Count(v, text, 0) * CountOf(v, digits)
  {
    var text := v.removeOthers(buffer);
    if FirstDigits(v, text, 0).Some? {
      SubstituteLength(v, text, 0, Newlines(CountOf(v, FirstDigits(v, text, 0).value)));
    }
  }

  /** Renaming L away, letting the vendor remove the rest, and renaming back shows
      exactly the text in which the vendor will look for insert-line codes. */
  lemma SentinelExposes(v: Vendor, buffer: string, sentinel: char)
    requires Reviewed(v) && PrivateUse(sentinel) && sentinel !in buffer
    ensures Rename(VendorStrip(v, Rename(buffer, 'L', sentinel)), sentinel, 'L') == v.removeOthers(buffer)
  {
    var safe := Rename(buffer, 'L', sentinel);
    assert v.removeOthers(safe) == Rename(v.removeOthers(buffer), 'L', sentinel);
    assert 'L' !in safe;
    NoMatchWithoutL(v, v.removeOthers(safe), 0);
    assert sentinel !in v.removeOthers(buffer);
    RenameBack(v.removeOthers(buffer), 'L', sentinel);
  }

  lemma QuotientDecides(unit: nat, count: nat, room: nat)
    requires unit > 0
    ensures count > room / unit <==> unit * count > room
  {
    var q := room / unit;
    assert room == unit * q + room % unit;
    Numeral.Multiples(unit, q, count);
    Numeral.Multiples(unit, count, q);
  }

  /** Dividing first and comparing digit strings decides the multiplicative fit. */
  lemma FitsDecided(base: nat, codes: nat, digits: seq<nat>, remaining: nat)
    requires codes > 0 && base <= remaining && Numeral.InBase(10, digits)
    ensures Numeral.Exceeds(Numeral.Canonical(digits), Numeral.Print(10, (remaining - base) / codes))
       <==> base + codes * Numeral.Value(10, digits) > remaining
  {
    var room, count := remaining - base, Numeral.Value(10, digits);
    var q := room / codes;
    Numeral.PaddedExceedsDecides(10, digits, q);
    QuotientDecides(codes, count, room);
  }
}
