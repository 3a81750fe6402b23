/** What an accepted archive is, spelled out octet by octet: names, kinds, sizes and bounds. */
module ArchiveFacts {
  import opened Options
  import opened Bytes
  import opened TarHeader
  import opened TarGrammar
  import Numeral
  import Pax
  import Preflight
  import Unicode

  lemma NamesSpelled()
    ensures SIZE_KEY == Ascii("size") && PATH_KEY == Ascii("path") && Pax.GNU_SPARSE == Ascii("GNU.sparse")
    ensures forall kind: byte :: IsExtension(kind) <==> kind as char in "xXgLK"
    ensures forall kind: byte :: IsPax(kind) <==> kind as char in "xXg"
    ensures KIND_G as char == 'g' && KIND_LONG_NAME as char == 'L'
    ensures KIND_LONG_LINK as char == 'K' && KIND_SPARSE as char == 'S'
    ensures ARCHIVE_MAX == 1073741824 && MEMBER_MAX == 1024 && EXTENSION_MAX == 65536
    ensures EXTENSIONS_TOTAL_MAX == 262144 && EXTENSION_COUNT_MAX == 2048 && CONSECUTIVE_EXTENSION_MAX == 4
    ensures PAX_RECORD_MAX == 4096 && PAX_GLOBAL_RECORD_MAX == 64 && TRAILING_MAX == 1048576
  {
  }

  lemma KeysExactly(key: bytes)
    ensures Pax.KeyAllowed(key) <==> key != [] && !exists rest :: key == Ascii("GNU.sparse") + rest
  {
    NamesSpelled();
    if Pax.GNU_SPARSE <= key {
      assert key == Pax.GNU_SPARSE + key[|Pax.GNU_SPARSE|..];
    }
  }

  lemma PaddingExactly(size: nat)
    ensures 0 <= Padding(size) < 512 && (size + Padding(size)) % 512 == 0
  {
  }

  /** A size record counts if and only if it is the decimal form of a number below 10 ** 10. */
  lemma SizeTextExactly(text: bytes)
    ensures PaxSizeValid(text) <==> exists n: nat :: n < 10000000000 && text == Pax.Decimal(n)
    ensures PaxSizeValid(text) ==> text == Pax.Decimal(Numeral.Value(10, FromAscii(text)))
  {
    if PaxSizeValid(text) {
      var digits := FromAscii(text);
      Numeral.PrintUnique(10, digits);
      assert ToAscii(digits) == text;
      ValueBelow(digits);
      TenDigits(|text|);
      var n := Numeral.Value(10, digits);
      assert n < 10000000000 && text == Pax.Decimal(n);
    }
    forall n: nat | n < 10000000000 && text == Pax.Decimal(n) ensures PaxSizeValid(text) {
      Preflight.DecimalSizeValid(n);
    }
  }

  lemma {:induction false} ValueBelow(digits: seq<nat>)
    requires Numeral.InBase(10, digits)
    ensures Numeral.Value(10, digits) < Pow(10, |digits|)
  {
    if digits != [] {
      ValueBelow(digits[..|digits| - 1]);
    }
  }

  lemma {:induction false} TenDigits(n: nat)
    requires n <= 10
    ensures Pow(10, n) <= 10000000000
    decreases 10 - n
  {
    if n < 10 {
      TenDigits(n + 1);
    } else {
      assert Pow(10, 3) == 1000;
      assert Pow(10, 6) == 1000000;
    }
  }

  // ---- Which size a member has ----

  function SizeRecord(e: Entry): Option<bytes> {
    if Ascii("size") in PaxMap(e) then Some(PaxMap(e)[Ascii("size")]) else None
  }

  /** The last size record since the last member. */
  function OwnSize(es: seq<Entry>): Option<bytes> {
    if es == [] then None
    else
      var e := es[|es| - 1];
      if KindOf(e) as char !in "xXgLK" then None
      else if KindOf(e) as char in "xX" && SizeRecord(e).Some? then SizeRecord(e)
      else OwnSize(es[..|es| - 1])
  }

  /** The last size record of all g headers. */
  function GlobalSize(es: seq<Entry>): Option<bytes> {
    if es == [] then None
    else
      var e := es[|es| - 1];
      if KindOf(e) as char == 'g' && SizeRecord(e).Some? then SizeRecord(e)
      else GlobalSize(es[..|es| - 1])
  }

  function InMap(m: Pax.Values): Option<bytes> { if SIZE_KEY in m then Some(m[SIZE_KEY]) else None }

  lemma {:induction false} OwnInForce(es: seq<Entry>)
    ensures OwnSize(es) == InMap(LocalPax(es))
  {
    NamesSpelled();
    if es != [] {
      OwnInForce(es[..|es| - 1]);
    }
  }

  lemma {:induction false} GlobalInForce(es: seq<Entry>)
    ensures GlobalSize(es) == InMap(GlobalPax(es))
  {
    NamesSpelled();
    if es != [] {
      GlobalInForce(es[..|es| - 1]);
    }
  }

  /** The payload of a member is as long as its own size record says, else as the last global
      one says, else as its header says. */
  lemma SizePrecedence(before: seq<Entry>, e: Entry)
    requires EntryValid(before, e) && KindOf(e) as char !in "xXgLK"
    ensures match OwnSize(before)
            case Some(text) => text == Pax.Decimal(|e.payload|)
            case None =>
              match GlobalSize(before)
              case Some(text) => text == Pax.Decimal(|e.payload|)
              case None => TarNumber(e.header[124..136]) == Some(|e.payload|)
  {
    NamesSpelled();
    OwnInForce(before);
    GlobalInForce(before);
    hide OwnSize, GlobalSize, LocalPax, GlobalPax, TarNumber, Checksum, ChecksumMatches;
    var override := SizeOverride(LocalPax(before), GlobalPax(before));
    if override.Some? { SizeTextExactly(override.value); }
  }

  // ---- Bounds ----

  /** What every entry of an accepted archive is. */
  ghost predicate Harmless(e: Entry) {
    && |e.header| == 512 && ChecksumMatches(e.header)
    && var kind := e.header[156] as char;
       && kind != 'K' && kind != 'S'
       && |e.payload| <= (if kind in "xXgL" then 65536 else 1073741824)
       && (kind == 'L' ==> exists cs | Unicode.Scalars(cs) :: cs != [] && Unicode.Encoded(cs) == LongName(e.payload))
  }

  function MembersOf(es: seq<Entry>): set<nat> {
    set i: nat | i < |es| && KindOf(es[i]) as char !in "xXgLK"
  }

  lemma {:induction false} MembersCounted(es: seq<Entry>)
    ensures Members(es) == |MembersOf(es)| && Extensions(es) == |es| - |MembersOf(es)|
  {
    NamesSpelled();
    if es != [] {
      var n := |es| - 1;
      MembersCounted(es[..n]);
      assert MembersOf(es) == MembersOf(es[..n]) + if KindOf(es[n]) as char !in "xXgLK" then {n} else {};
    }
  }

  lemma EntryHarmless(before: seq<Entry>, e: Entry)
    requires EntryValid(before, e)
    ensures Harmless(e)
  {
    NamesSpelled();
    if Kind(e.header) == KIND_LONG_NAME { Unicode.Utf8Exactly(LongName(e.payload)); }
  }

  lemma {:induction false} AllHarmless(es: seq<Entry>)
    requires EntriesValid(es)
    ensures forall e | e in es :: Harmless(e)
  {
    hide EntryValid, Harmless;
    if es != [] {
      var n := |es| - 1;
      AllHarmless(es[..n]);
      EntryHarmless(es[..n], es[n]);
      assert es == es[..n] + [es[n]];
    }
  }

  ghost predicate MemberNear(es: seq<Entry>, i: nat) { exists j | i <= j < i + 5 :: j in MembersOf(es) }

  lemma FourInARow(es: seq<Entry>)
    requires NoLongRun(es)
    ensures forall i: nat | i + 5 <= |es| :: MemberNear(es, i)
  {
    NamesSpelled();
    forall i: nat | i + 5 <= |es| ensures MemberNear(es, i) {
      assert MemberWithin(es, i);
      var j :| i <= j <= i + CONSECUTIVE_EXTENSION_MAX && !IsExtension(KindOf(es[j]));
      assert j in MembersOf(es);
    }
  }

  lemma EndZeros(start: nat, data: bytes)
    requires start <= |data| && EndMarker(data[start..])
    ensures start + 1024 <= |data| <= start + 1024 + 1048576
    ensures forall k | start <= k < |data| :: data[k] == 0
  {
    forall k | start <= k < |data| ensures data[k] == 0 {
      assert data[start..][k - start] == data[k];
    }
  }

  /** An accepted archive has at most 1024 members and 2048 extensions, at most four of them in
      a row, of at most 256 KiB and 4096 records, 64 of them global, and harmless entries only. */
  lemma AcceptedWithinBounds(es: seq<Entry>, data: bytes)
    requires Archive(es, data)
    ensures forall e | e in es :: Harmless(e)
    ensures |MembersOf(es)| <= 1024 && |es| - |MembersOf(es)| <= 2048
    ensures ExtensionBytes(es) <= 262144 && Records(es) <= 4096 && GlobalRecords(es) <= 64
    ensures forall i: nat | i + 5 <= |es| :: MemberNear(es, i)
    ensures |Concat(es)| + 1024 <= |data| <= |Concat(es)| + 1024 + 1048576
    ensures forall k | |Concat(es)| <= k < |data| :: data[k] == 0
  {
    hide EntriesValid, NoLongRun, EndMarker, Harmless, MembersOf, MemberNear, Concat;
    AllHarmless(es);
    MembersCounted(es);
    FourInARow(es);
    EndZeros(|Concat(es)|, data);
  }
}
