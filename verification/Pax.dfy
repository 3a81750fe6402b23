/** The body of a PAX extended header: self-length-prefixed "key=value" records
    ("pax Extended Header" of IEEE Std 1003.1), parsed by _pax_values. */
module Pax {
  import opened Options
  import opened Bytes
  import Numeral

  const SPACE: byte := 32
  const EQUALS: byte := 61
  const NEWLINE: byte := 10
  // "GNU.sparse"
  const GNU_SPARSE: bytes := [71, 78, 85, 46, 115, 112, 97, 114, 115, 101]

  type Values = map<bytes, bytes>

  datatype Located = Located(end: nat, key: bytes, value: bytes)

  /** The record that starts at offset, if it is well formed. */
  function RecordAt(raw: bytes, offset: nat): (r: Option<Located>)
    requires offset < |raw|
    ensures r.Some? ==> offset + 3 <= r.value.end <= |raw|
  {
    var separator := Find(raw, SPACE, offset);
    if separator < 0 then None
    else
      var lengthText := raw[offset..separator];
      if !IsDecimal(lengthText) || |lengthText| > 5 then None
      else
        var length := Numeral.Value(10, FromAscii(lengthText));
        var end := offset + length;
        if length <= separator - offset + 2 || end > |raw| || raw[end - 1] != NEWLINE then None
        else
          var record := raw[separator + 1..end - 1];
          var equals := Find(record, EQUALS, 0);
          if equals < 0 || !Utf8(record[..equals]) || !Utf8(record[equals + 1..]) then None
          else Some(Located(end, record[..equals], record[equals + 1..]))
  }

  predicate KeyAllowed(key: bytes) {
    key != [] && !(GNU_SPARSE <= key)
  }

  /** The parser from a given offset on, with what the loop has gathered so far. */
  function ParseFrom(raw: bytes, offset: nat, values: Values, count: nat): Option<(Values, nat)>
    requires offset <= |raw|
    decreases |raw| - offset
  {
    if offset == |raw| then Some((values, count))
    else
      match RecordAt(raw, offset)
      case None => None
      case Some(r) =>
        if !KeyAllowed(r.key) || r.key in values then None
        else ParseFrom(raw, r.end, values[r.key := r.value], count + 1)
  }

  function Parse(raw: bytes): Option<(Values, nat)> {
    ParseFrom(raw, 0, map[], 0)
  }

  /** _pax_values: the offset only moves forward, so the loop ends. */
  method PaxValues(raw: bytes) returns (r: Option<(Values, nat)>)
    ensures r == Parse(raw)
  {
    var values: Values, offset, recordCount := map[], 0, 0;
    while offset < |raw|
      invariant offset <= |raw|
      invariant Parse(raw) == ParseFrom(raw, offset, values, recordCount)
      decreases |raw| - offset
    {
      var record := RecordAt(raw, offset);
      if record.None? || !KeyAllowed(record.value.key) || record.value.key in values {
        return None;
      }
      values := values[record.value.key := record.value.value];
      recordCount := recordCount + 1;
      offset := record.value.end;
    }
    r := Some((values, recordCount));
  }

  // ---- The declarative reading: a text is a list of records ----

  datatype Record = Record(lengthText: bytes, key: bytes, value: bytes)

  function Text(r: Record): bytes {
    r.lengthText + [SPACE] + r.key + [EQUALS] + r.value + [NEWLINE]
  }

  lemma TextSpelled(r: Record)
    ensures Text(r) == r.lengthText + Ascii(" ") + r.key + Ascii("=") + r.value + Ascii("\n")
  {
  }

  /** The length text is the decimal size of the whole record, itself included. */
  predicate WellFormed(r: Record) {
    && IsDecimal(r.lengthText) && |r.lengthText| <= 5
    && Numeral.Value(10, FromAscii(r.lengthText)) == |Text(r)|
    && (forall i | 0 <= i < |r.key| :: r.key[i] != EQUALS) && Utf8(r.key) && Utf8(r.value) && KeyAllowed(r.key)
  }

  function Concat(rs: seq<Record>): bytes {
    if rs == [] then [] else Concat(rs[..|rs| - 1]) + Text(rs[|rs| - 1])
  }

  function MapOf(rs: seq<Record>): Values {
    if rs == [] then map[]
    else MapOf(rs[..|rs| - 1])[rs[|rs| - 1].key := rs[|rs| - 1].value]
  }

  predicate Records(rs: seq<Record>) {
    && (forall i | 0 <= i < |rs| :: WellFormed(rs[i]))
    && (forall i, j | 0 <= i < j < |rs| :: rs[i].key != rs[j].key)
  }

  lemma {:induction false} ConcatPrefix(rs: seq<Record>, i: nat)
    requires i <= |rs|
    ensures Concat(rs[..i]) <= Concat(rs)
    decreases |rs|
  {
    if i < |rs| {
      ConcatPrefix(rs[..|rs| - 1], i);
      assert rs[..|rs| - 1][..i] == rs[..i];
    } else {
      assert rs[..i] == rs;
    }
  }

  lemma {:induction false} NotInMap(rs: seq<Record>, key: bytes)
    requires forall i | 0 <= i < |rs| :: rs[i].key != key
    ensures key !in MapOf(rs)
  {
    if rs != [] {
      NotInMap(rs[..|rs| - 1], key);
    }
  }

  lemma {:induction false} InMap(rs: seq<Record>, i: nat)
    requires i < |rs|
    ensures rs[i].key in MapOf(rs)
    ensures (forall j | i < j < |rs| :: rs[j].key != rs[i].key) ==> MapOf(rs)[rs[i].key] == rs[i].value
  {
    if i < |rs| - 1 {
      InMap(rs[..|rs| - 1], i);
    }
  }

  lemma Splits(before: bytes, r: Record, after: bytes)
    ensures var raw, o, n, t := before + Text(r) + after, |before|, |r.lengthText|, |Text(r)|;
            && raw[o..o + n] == r.lengthText && raw[o + n] == SPACE && raw[o + t - 1] == NEWLINE
            && raw[o + n + 1..o + t - 1] == r.key + [EQUALS] + r.value
  {
    var raw, o, n, t := before + Text(r) + after, |before|, |r.lengthText|, |Text(r)|;
    assert raw[o..o + t] == Text(r);
    assert raw[o..o + n] == raw[o..o + t][..n];
    assert raw[o + n] == raw[o..o + t][n];
    assert raw[o + t - 1] == raw[o..o + t][t - 1];
    assert raw[o + n + 1..o + t - 1] == raw[o..o + t][n + 1..t - 1];
  }

  lemma NoSpaceBefore(raw: bytes, offset: nat, separator: nat)
    requires offset <= separator < |raw| && raw[separator] == SPACE && IsDecimal(raw[offset..separator])
    ensures Find(raw, SPACE, offset) == separator
  {
    forall k | offset <= k < separator ensures raw[k] != SPACE {
      assert raw[k] == raw[offset..separator][k - offset];
    }
    FindIs(raw, SPACE, offset, separator);
  }

  lemma KeyEndsAtEquals(key: bytes, value: bytes)
    requires forall i | 0 <= i < |key| :: key[i] != EQUALS
    ensures var record := key + [EQUALS] + value;
            Find(record, EQUALS, 0) == |key| && record[..|key|] == key && record[|key| + 1..] == value
  {
    FindIs(key + [EQUALS] + value, EQUALS, 0, |key|);
  }

  /** A well-formed record is read back whole, whatever follows or precedes it. */
  lemma RecordReadBack(before: bytes, r: Record, after: bytes)
    requires WellFormed(r)
    ensures RecordAt(before + Text(r) + after, |before|)
         == Some(Located(|before| + |Text(r)|, r.key, r.value))
  {
    Splits(before, r, after);
    RecordReadAt(before + Text(r) + after, |before|, r);
  }

  lemma RecordReadAt(raw: bytes, offset: nat, r: Record)
    requires WellFormed(r) && offset + |Text(r)| <= |raw|
    requires var n, t := |r.lengthText|, |Text(r)|;
             && raw[offset..offset + n] == r.lengthText && raw[offset + n] == SPACE
             && raw[offset + t - 1] == NEWLINE
             && raw[offset + n + 1..offset + t - 1] == r.key + [EQUALS] + r.value
    ensures RecordAt(raw, offset) == Some(Located(offset + |Text(r)|, r.key, r.value))
  {
    hide Find, Numeral.Value, FromAscii, Utf8, IsDecimal, KeyAllowed;
    NoSpaceBefore(raw, offset, offset + |r.lengthText|);
    KeyEndsAtEquals(r.key, r.value);
  }

  lemma {:induction false} ParseRecords(rs: seq<Record>, i: nat)
    requires Records(rs) && i <= |rs|
    ensures |Concat(rs[..i])| <= |Concat(rs)|
    ensures ParseFrom(Concat(rs), |Concat(rs[..i])|, MapOf(rs[..i]), i) == Some((MapOf(rs), |rs|))
    decreases |rs| - i
  {
    hide RecordAt, WellFormed, KeyAllowed, Text, Concat, MapOf;
    ConcatPrefix(rs, i);
    if i == |rs| {
      assert rs[..i] == rs;
    } else {
      RecordInPlace(rs, i);
      NotInMap(rs[..i], rs[i].key);
      assert rs[..i + 1] == rs[..i] + [rs[i]];
      ConcatSnoc(rs[..i], rs[i]);
      ParseRecords(rs, i + 1);
    }
  }

  /** The parser finds record i where the first i records end. */
  lemma RecordInPlace(rs: seq<Record>, i: nat)
    requires Records(rs) && i < |rs|
    ensures |Concat(rs[..i])| < |Concat(rs)| && KeyAllowed(rs[i].key)
    ensures RecordAt(Concat(rs), |Concat(rs[..i])|)
         == Some(Located(|Concat(rs[..i + 1])|, rs[i].key, rs[i].value))
  {
    hide WellFormed, RecordAt, KeyAllowed;
    var before, r := Concat(rs[..i]), rs[i];
    ConcatPrefix(rs, i + 1);
    ConcatSnoc(rs[..i], r);
    assert rs[..i + 1] == rs[..i] + [r];
    var after := Concat(rs)[|before + Text(r)|..];
    assert Concat(rs) == before + Text(r) + after;
    assert WellFormed(r);
    KeyOfWellFormed(r);
    RecordReadBack(before, r, after);
  }

  lemma KeyOfWellFormed(r: Record)
    requires WellFormed(r)
    ensures KeyAllowed(r.key) && |Text(r)| >= 1
  {
  }

  lemma ConcatSnoc(rs: seq<Record>, r: Record)
    ensures Concat(rs + [r]) == Concat(rs) + Text(r)
    ensures MapOf(rs + [r]) == MapOf(rs)[r.key := r.value]
  {
    assert (rs + [r])[..|rs|] == rs;
  }

  lemma RecordsSnoc(rs: seq<Record>, r: Record)
    requires Records(rs) && WellFormed(r) && r.key !in MapOf(rs)
    ensures Records(rs + [r])
  {
    forall i | 0 <= i < |rs| ensures rs[i].key != r.key { InMap(rs, i); }
  }

  lemma Glue(raw: bytes, offset: nat, separator: nat, end: nat)
    requires offset <= separator < end - 1 < |raw| && raw[separator] == SPACE && raw[end - 1] == NEWLINE
    ensures raw[offset..end]
         == raw[offset..separator] + [SPACE] + raw[separator + 1..end - 1] + [NEWLINE]
  {
  }

  /** What RecordAt went by. */
  lemma RecordParts(raw: bytes, offset: nat)
    requires offset < |raw| && RecordAt(raw, offset).Some?
    ensures var at, separator := RecordAt(raw, offset).value, Find(raw, SPACE, offset);
      && offset <= separator < at.end - 1 < |raw| && raw[separator] == SPACE && raw[at.end - 1] == NEWLINE
      && raw[separator + 1..at.end - 1] == at.key + [EQUALS] + at.value
      && IsDecimal(raw[offset..separator]) && separator - offset <= 5
      && Numeral.Value(10, FromAscii(raw[offset..separator])) == at.end - offset
      && Utf8(at.key) && Utf8(at.value) && forall i | 0 <= i < |at.key| :: at.key[i] != EQUALS
  {
    hide Find, Numeral.Value, FromAscii, Utf8, IsDecimal;
    var at, separator := RecordAt(raw, offset).value, Find(raw, SPACE, offset);
    var record := raw[separator + 1..at.end - 1];
    var equals := Find(record, EQUALS, 0);
    assert record == record[..equals] + [EQUALS] + record[equals + 1..];
  }

  /** Soundness of one record: what RecordAt reads is a slice of that shape. */
  lemma RecordSound(raw: bytes, offset: nat) returns (r: Record)
    requires offset < |raw| && RecordAt(raw, offset).Some?
    requires KeyAllowed(RecordAt(raw, offset).value.key)
    ensures WellFormed(r)
    ensures Text(r) == raw[offset..RecordAt(raw, offset).value.end]
    ensures r.key == RecordAt(raw, offset).value.key && r.value == RecordAt(raw, offset).value.value
  {
    hide RecordAt, Find, Numeral.Value, FromAscii, Utf8, IsDecimal, KeyAllowed;
    var at, separator := RecordAt(raw, offset).value, Find(raw, SPACE, offset);
    RecordParts(raw, offset);
    Glue(raw, offset, separator, at.end);
    r := Record(raw[offset..separator], at.key, at.value);
    TextFrom(r, raw[separator + 1..at.end - 1]);
  }

  lemma TextFrom(r: Record, record: bytes)
    requires record == r.key + [EQUALS] + r.value
    ensures Text(r) == r.lengthText + [SPACE] + record + [NEWLINE]
  {
  }

  lemma AppendRecord(raw: bytes, rs: seq<Record>) returns (next: seq<Record>)
    requires Records(rs) && Concat(rs) <= raw && |Concat(rs)| < |raw|
    requires RecordAt(raw, |Concat(rs)|).Some?
    requires KeyAllowed(RecordAt(raw, |Concat(rs)|).value.key)
    requires RecordAt(raw, |Concat(rs)|).value.key !in MapOf(rs)
    ensures Records(next) && |next| == |rs| + 1
    ensures Concat(next) == raw[..RecordAt(raw, |Concat(rs)|).value.end]
    ensures var at := RecordAt(raw, |Concat(rs)|).value; MapOf(next) == MapOf(rs)[at.key := at.value]
  {
    hide RecordAt, WellFormed, KeyAllowed, Text, MapOf;
    var offset := |Concat(rs)|;
    var r := RecordSound(raw, offset);
    next := rs + [r];
    RecordsSnoc(rs, r);
    ConcatSnoc(rs, r);
    assert raw[..offset] == Concat(rs);
    assert raw[..offset + |Text(r)|] == raw[..offset] + raw[offset..offset + |Text(r)|];
  }

  lemma {:induction false} ParseSound(raw: bytes, rs: seq<Record>) returns (all: seq<Record>)
    requires Records(rs) && Concat(rs) <= raw
    requires ParseFrom(raw, |Concat(rs)|, MapOf(rs), |rs|).Some?
    ensures Records(all) && Concat(all) == raw
    ensures ParseFrom(raw, |Concat(rs)|, MapOf(rs), |rs|) == Some((MapOf(all), |all|))
    decreases |raw| - |Concat(rs)|
  {
    if |Concat(rs)| == |raw| {
      all := rs;
    } else {
      var next := AppendRecord(raw, rs);
      all := ParseSound(raw, next);
    }
  }

  /** The parser decides the record grammar and returns exactly the records' map. */
  lemma ParseDecidesRecords(raw: bytes, values: Values, count: nat)
    ensures Parse(raw) == Some((values, count)) <==>
            exists rs :: Records(rs) && Concat(rs) == raw && MapOf(rs) == values && |rs| == count
  {
    if Parse(raw) == Some((values, count)) {
      var rs := ParseSound(raw, []);
    }
    if rs :| Records(rs) && Concat(rs) == raw && MapOf(rs) == values && |rs| == count {
      assert rs[..0] == [];
      ParseRecords(rs, 0);
    }
  }

  // ---- The printer ----

  /** str(length).encode(). */
  function Decimal(n: nat): (t: bytes)
    ensures IsDecimal(t) && Numeral.Value(10, FromAscii(t)) == n
  {
    Numeral.ValuePrint(10, n);
    AsciiRoundTrip(Numeral.Print(10, n));
    ToAscii(Numeral.Print(10, n))
  }

  lemma {:induction false} DigitsBound(n: nat)
    requires n >= 1
    ensures |Decimal(2 * n)| <= n
    decreases n
  {
    if n >= 5 {
      Numeral.Shrinks(10, 2 * n);
      DigitsBound(n / 5);
      assert 2 * n / 10 == n / 5;
      DecimalMonotone(2 * n / 10, 2 * (n / 5));
    }
  }

  lemma {:induction false} DecimalMonotone(m: nat, n: nat)
    requires m <= n
    ensures |Decimal(m)| <= |Decimal(n)|
    decreases n
  {
    if m >= 10 {
      DecimalMonotone(m / 10, n / 10);
    }
  }

  /** Printing one record: the length includes its own digits, so it is found as
      a fixed point. Iteration from below never passes twice the payload. */
  method PrintRecord(key: bytes, value: bytes) returns (r: Record)
    ensures r.key == key && r.value == value
    ensures IsDecimal(r.lengthText) && Numeral.Value(10, FromAscii(r.lengthText)) == |Text(r)|
    ensures WellFormed(r) <==>
            && (forall i | 0 <= i < |key| :: key[i] != EQUALS) && Utf8(key) && Utf8(value)
            && KeyAllowed(key) && |Text(r)| <= 99999
  {
    var payload := |key| + |value| + 3;
    var length := payload + 1;
    DigitsBound(payload);
    while true
      invariant payload < length <= 2 * payload
      invariant length <= payload + |Decimal(length)|
      decreases 2 * payload - length
    {
      r := Record(Decimal(length), key, value);
      if |Text(r)| == length {
        FiveDigits(length);
        return;
      }
      DecimalMonotone(length, 2 * payload);
      DecimalMonotone(length, payload + |Decimal(length)|);
      length := |Text(r)|;
    }
  }

  lemma FiveDigits(n: nat)
    ensures |Decimal(n)| <= 5 <==> n <= 99999
  {
    if n <= 99999 {
      DecimalMonotone(n, 99999);
      assert |Decimal(99999)| == 5 by {
        assert 99999 / 10 == 9999 && 9999 / 10 == 999 && 999 / 10 == 99 && 99 / 10 == 9;
        assert |Numeral.Print(10, 99)| == 2;
        assert |Numeral.Print(10, 9999)| == 4;
      }
    } else {
      DecimalMonotone(100000, n);
      assert |Numeral.Print(10, 100)| == 3;
      assert |Numeral.Print(10, 10000)| == 5;
      assert |Decimal(100000)| == 6;
    }
  }

  /** Printing distinct allowed keys and parsing the concatenation gives exactly
      those pairs back, whatever the values contain. */
  lemma PaxRoundTrip(rs: seq<Record>)
    requires Records(rs)
    ensures Parse(Concat(rs)) == Some((MapOf(rs), |rs|))
    ensures forall i | 0 <= i < |rs| ::
              rs[i].key in MapOf(rs) && MapOf(rs)[rs[i].key] == rs[i].value
  {
    assert rs[..0] == [];
    ParseRecords(rs, 0);
    forall i | 0 <= i < |rs| ensures rs[i].key in MapOf(rs) && MapOf(rs)[rs[i].key] == rs[i].value {
      InMap(rs, i);
    }
  }
}
