/** The 512-octet header block of the ustar interchange format: its numbers, its
    checksum, and a writer whose blocks the reader accepts. */
module TarHeader {
  import opened Options
  import opened Bytes
  import Numeral

  const BLOCK := 512

  predicate IsOctal(raw: bytes) {
    forall i | 0 <= i < |raw| :: 48 <= raw[i] <= 55
  }

  /** _tar_number: octal text between blanks, or a base-256 number flagged by the
      top bit; a set sign bit is refused. */
  function TarNumber(raw: bytes): Option<nat> {
    if raw != [] && raw[0] >= 0x80 then
      if raw[0] >= 0xC0 then None
      else Some(Numeral.Value(256, [raw[0] - 0x80] + raw[1..]))
    else
      var value := LeftStrip(RightStrip(raw, {0, 32}), {32});
      if value == [] then Some(0)
      else if !IsOctal(value) then None
      else Some(Numeral.Value(8, FromAscii(value)))
  }

  function Sum(raw: bytes): nat {
    if raw == [] then 0 else Sum(raw[..|raw| - 1]) + raw[|raw| - 1]
  }

  /** The checksum field counts as eight blanks. */
  function Checksum(header: bytes): nat
    requires |header| == BLOCK
  {
    Sum(header[..148]) + 8 * 32 + Sum(header[156..])
  }

  function StoredSize(header: bytes): Option<nat>
    requires |header| == BLOCK
  {
    TarNumber(header[124..136])
  }

  function Kind(header: bytes): byte
    requires |header| == BLOCK
  {
    header[156]
  }

  predicate ChecksumMatches(header: bytes)
    requires |header| == BLOCK
  {
    TarNumber(header[148..156]) == Some(Checksum(header))
  }

  // ---- What the fields say, without the reader ----

  /** Blanks, octal digits, and a trailer of blanks and NULs; nothing else. */
  predicate OctalShape(raw: bytes, i: nat, j: nat) {
    && i <= j <= |raw|
    && (forall k | 0 <= k < i :: raw[k] == 32) && IsOctal(raw[i..j])
    && (forall k | j <= k < |raw| :: raw[k] == 0 || raw[k] == 32)
  }

  /** The number of a field is that of its octal digits, or of its octets without the flag in
      the top bit; a field of any other shape has none. */
  lemma NumberExactly(raw: bytes, n: nat)
    ensures raw != [] && raw[0] >= 128 ==>
              (TarNumber(raw) == Some(n) <==> raw[0] < 192 && n == Numeral.Value(256, [raw[0] - 128] + raw[1..]))
    ensures raw == [] || raw[0] < 128 ==>
              (TarNumber(raw) == Some(n) <==>
                 exists i: nat, j: nat :: OctalShape(raw, i, j) && n == Numeral.Value(8, FromAscii(raw[i..j])))
  {
    if raw == [] || raw[0] < 128 {
      hide Numeral.Value, FromAscii;
      if TarNumber(raw).Some? {
        var i, j := ReadShape(raw);
      }
      forall a: nat, b: nat | OctalShape(raw, a, b)
        ensures TarNumber(raw) == Some(Numeral.Value(8, FromAscii(raw[a..b])))
      {
        ShapeRead(raw, a, b);
      }
    }
  }

  lemma StrippedParts(raw: bytes) returns (i: nat, j: nat)
    ensures i <= j <= |raw| && LeftStrip(RightStrip(raw, {0, 32}), {32}) == raw[i..j]
    ensures forall k | 0 <= k < i :: raw[k] == 32
    ensures forall k | j <= k < |raw| :: raw[k] == 0 || raw[k] == 32
  {
    var blank: set<byte> := {32};
    var right := RightStrip(raw, {0, 32});
    var value := LeftStrip(right, blank);
    i, j := |right| - |value|, |right|;
    hide RightStrip, LeftStrip;
    forall k | 0 <= k < i ensures raw[k] == 32 {
      assert right[k] in blank && right[k] == raw[k];
    }
  }

  lemma ReadShape(raw: bytes) returns (i: nat, j: nat)
    requires (raw == [] || raw[0] < 128) && TarNumber(raw).Some?
    ensures OctalShape(raw, i, j) && TarNumber(raw) == Some(Numeral.Value(8, FromAscii(raw[i..j])))
  {
    NoDigits();
    hide RightStrip, LeftStrip, Numeral.Value, FromAscii;
    i, j := StrippedParts(raw);
  }

  lemma NoDigits()
    ensures Numeral.Value(8, FromAscii([])) == 0
  {
  }

  lemma {:induction false} BlanksStripped(raw: bytes, i: nat)
    requires i <= |raw| && (forall k | 0 <= k < i :: raw[k] == 32) && (i < |raw| ==> raw[i] != 32)
    ensures LeftStrip(raw, {32}) == raw[i..]
    decreases i
  {
    if i > 0 {
      BlanksStripped(raw[1..], i - 1);
      assert raw[1..][i - 1..] == raw[i..];
    }
  }

  lemma TextStripped(raw: bytes, a: nat, b: nat)
    requires OctalShape(raw, a, b)
    ensures LeftStrip(RightStrip(raw, {0, 32}), {32}) == raw[a..b]
  {
    hide RightStrip, LeftStrip;
    if a < b {
      assert raw[a..b][b - a - 1] == raw[b - 1] && raw[a..b][0] == raw[a];
      assert raw == raw[..b] + raw[b..];
      StripTrailer(raw[..b], raw[b..], {0, 32});
      BlanksStripped(raw[..b], a);
      assert raw[..b][a..] == raw[a..b];
    } else {
      assert raw == [] + raw;
      StripTrailer([], raw, {0, 32});
      BlanksStripped([], 0);
    }
  }

  lemma ShapeRead(raw: bytes, a: nat, b: nat)
    requires OctalShape(raw, a, b) && (raw == [] || raw[0] < 128)
    ensures TarNumber(raw) == Some(Numeral.Value(8, FromAscii(raw[a..b])))
  {
    TextStripped(raw, a, b);
    NoDigits();
    hide RightStrip, LeftStrip, Numeral.Value, FromAscii;
  }

  /** A single changed octet outside the checksum field is always noticed. */
  lemma ChangeDetected(h: bytes, i: nat, b: byte)
    requires |h| == BLOCK && ChecksumMatches(h) && i < BLOCK && (i < 148 || i >= 156) && b != h[i]
    ensures !ChecksumMatches(h[i := b])
  {
    hide TarNumber, Sum;
    var changed := h[i := b];
    assert changed[148..156] == h[148..156];
    if i < 148 {
      assert changed[..148] == h[..148][i := b] && changed[156..] == h[156..];
      SumChanged(h[..148], i, b);
    } else {
      assert changed[..148] == h[..148] && changed[156..] == h[156..][i - 156 := b];
      SumChanged(h[156..], i - 156, b);
    }
  }

  lemma {:induction false} SumChanged(raw: bytes, i: nat, b: byte)
    requires i < |raw|
    ensures var before: int, after: int := raw[i], b; Sum(raw[i := b]) == Sum(raw) - before + after
    decreases |raw|
  {
    var n := |raw| - 1;
    if i < n {
      SumChanged(raw[..n], i, b);
      assert raw[i := b][..n] == raw[..n][i := b];
    } else {
      assert raw[i := b][..n] == raw[..n];
    }
  }

  // ---- Writing numbers and headers ----

  function ZeroPad(digits: seq<nat>, width: nat): (p: seq<nat>)
    requires |digits| <= width
    ensures |p| == width
    decreases width - |digits|
  {
    if |digits| == width then digits else ZeroPad([0] + digits, width)
  }

  lemma {:induction false} ZeroPadValue(base: nat, digits: seq<nat>, width: nat)
    requires base >= 2 && Numeral.InBase(base, digits) && |digits| <= width
    ensures Numeral.InBase(base, ZeroPad(digits, width))
    ensures Numeral.Value(base, ZeroPad(digits, width)) == Numeral.Value(base, digits)
    decreases width - |digits|
  {
    if |digits| < width {
      Numeral.ValueLeadingZero(base, digits);
      ZeroPadValue(base, [0] + digits, width);
    }
  }

  function Pow(base: nat, width: nat): nat {
    if width == 0 then 1 else base * Pow(base, width - 1)
  }

  lemma Quotient(base: nat, n: nat, p: nat)
    requires base >= 1 && n < base * p
    ensures n / base < p
  {
    assert n == base * (n / base) + n % base;
    Numeral.Multiples(base, p, n / base);
  }

  lemma {:induction false} PrintWidth(base: nat, n: nat, width: nat)
    requires base >= 2 && width >= 1 && n < Pow(base, width)
    ensures |Numeral.Print(base, n)| <= width
    decreases width
  {
    if n >= base {
      Numeral.Shrinks(base, n);
      if width > 1 {
        Quotient(base, n, Pow(base, width - 1));
        PrintWidth(base, n / base, width - 1);
      }
    }
  }

  /** A fixed-width octal field: padded digits, then a trailer of NULs and blanks. */
  function OctalField(n: nat, width: nat, trailer: bytes): (f: bytes)
    requires width >= 1 && n < Pow(8, width)
    ensures |f| == width + |trailer|
  {
    PrintWidth(8, n, width);
    ZeroPadValue(8, Numeral.Print(8, n), width);
    ToAscii(ZeroPad(Numeral.Print(8, n), width)) + trailer
  }

  lemma {:induction false} StripTrailer(text: bytes, trailer: bytes, strip: set<byte>)
    requires forall i | 0 <= i < |trailer| :: trailer[i] in strip
    requires text != [] ==> text[|text| - 1] !in strip
    ensures RightStrip(text + trailer, strip) == text
  {
    if trailer == [] {
      assert text + trailer == text;
    } else {
      var n := |trailer| - 1;
      assert (text + trailer)[..|text| + n] == text + trailer[..n];
      StripTrailer(text, trailer[..n], strip);
    }
  }

  lemma OctalTextRead(text: bytes, trailer: bytes)
    requires text != [] && IsOctal(text)
    requires forall i | 0 <= i < |trailer| :: trailer[i] in {0, 32}
    ensures TarNumber(text + trailer) == Some(Numeral.Value(8, FromAscii(text)))
  {
    var strip: set<byte> := {0, 32};
    StripTrailer(text, trailer, strip);
    assert (text + trailer)[0] == text[0];
    assert LeftStrip(text, {32}) == text;
  }

  lemma OctalRoundTrip(n: nat, width: nat, trailer: bytes)
    requires width >= 1 && n < Pow(8, width)
    requires forall i | 0 <= i < |trailer| :: trailer[i] in {0, 32}
    ensures TarNumber(OctalField(n, width, trailer)) == Some(n)
  {
    PrintWidth(8, n, width);
    ZeroPadValue(8, Numeral.Print(8, n), width);
    Numeral.ValuePrint(8, n);
    var digits := ZeroPad(Numeral.Print(8, n), width);
    AsciiRoundTrip(digits);
    OctalTextRead(ToAscii(digits), trailer);
  }

  /** The GNU base-256 form, for sizes beyond octal. */
  function Base256Field(n: nat, width: nat): (f: bytes)
    requires width >= 1 && n < Pow(256, width)
    ensures |f| == width + 1
  {
    PrintWidth(256, n, width);
    ZeroPadValue(256, Numeral.Print(256, n), width);
    var digits := ZeroPad(Numeral.Print(256, n), width);
    [0x80] + seq(width, i requires 0 <= i < width => digits[i])
  }

  lemma Base256RoundTrip(n: nat, width: nat)
    requires width >= 1 && n < Pow(256, width)
    ensures TarNumber(Base256Field(n, width)) == Some(n)
  {
    PrintWidth(256, n, width);
    ZeroPadValue(256, Numeral.Print(256, n), width);
    Numeral.ValuePrint(256, n);
    var digits := ZeroPad(Numeral.Print(256, n), width);
    Numeral.ValueLeadingZero(256, digits);
    var f := Base256Field(n, width);
    assert f[1..] == digits;
  }

  lemma {:induction false} SumBound(raw: bytes)
    ensures Sum(raw) <= 255 * |raw|
  {
    if raw != [] {
      SumBound(raw[..|raw| - 1]);
    }
  }

  /** A header block around a given size field: the checksum is six octal digits,
      a NUL and a blank. */
  function WriteHeader(front: bytes, sizeField: bytes, mtime: bytes, kind: byte, rest: bytes): (h: bytes)
    requires |front| == 124 && |sizeField| == 12 && |mtime| == 12 && |rest| == 355
    ensures |h| == BLOCK
  {
    var before := front + sizeField + mtime;
    var after := [kind] + rest;
    ChecksumFits(before, after);
    before + OctalField(Sum(before) + 256 + Sum(after), 6, [0, 32]) + after
  }

  /** Six octal digits hold every checksum. */
  lemma ChecksumFits(before: bytes, after: bytes)
    requires |before| == 148 && |after| == 356
    ensures Sum(before) + 256 + Sum(after) < Pow(8, 6)
  {
    SumBound(before);
    SumBound(after);
    assert Pow(8, 6) == 262144;
  }

  lemma ChecksumReads(h: bytes, before: bytes, field: bytes, after: bytes)
    requires |before| == 148 && |field| == 8 && |after| == 356 && h == before + field + after
    requires TarNumber(field) == Some(Sum(before) + 256 + Sum(after))
    ensures |h| == BLOCK && ChecksumMatches(h)
  {
    hide TarNumber, Sum;
    Parts(before, field, after);
  }

  lemma FieldsRead(h: bytes, front: bytes, sizeField: bytes, mtime: bytes, field: bytes, kind: byte, rest: bytes)
    requires |front| == 124 && |sizeField| == 12 && |mtime| == 12 && |field| == 8 && |rest| == 355
    requires h == front + sizeField + mtime + field + ([kind] + rest) && field[7] == 32
    ensures |h| == BLOCK && Kind(h) == kind && StoredSize(h) == TarNumber(sizeField) && h != Zeros(BLOCK)
  {
    assert h[124..136] == sizeField;
    assert h[155] == 32;
  }

  lemma TrailerKept(n: nat, width: nat, trailer: bytes)
    requires width >= 1 && n < Pow(8, width)
    ensures OctalField(n, width, trailer)[width..] == trailer
  {
    hide Pow, Numeral.Print, ZeroPad, Numeral.Value;
  }

  lemma WrittenHeaderAccepted(front: bytes, sizeField: bytes, mtime: bytes, kind: byte, rest: bytes)
    requires |front| == 124 && |sizeField| == 12 && |mtime| == 12 && |rest| == 355
    ensures var h := WriteHeader(front, sizeField, mtime, kind, rest);
            && ChecksumMatches(h) && Kind(h) == kind && StoredSize(h) == TarNumber(sizeField)
            && h != Zeros(BLOCK)
  {
    hide TarNumber, Sum, Pow, Checksum, ChecksumMatches, StoredSize, Kind, Zeros, OctalField;
    var before := front + sizeField + mtime;
    var after := [kind] + rest;
    ChecksumFits(before, after);
    var sum := Sum(before) + 256 + Sum(after);
    var field := OctalField(sum, 6, [0, 32]);
    OctalRoundTrip(sum, 6, [0, 32]);
    TrailerKept(sum, 6, [0, 32]);
    assert field[7] == field[6..][1];
    var h := WriteHeader(front, sizeField, mtime, kind, rest);
    ChecksumReads(h, before, field, after);
    FieldsRead(h, front, sizeField, mtime, field, kind, rest);
  }
}
