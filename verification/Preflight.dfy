/** The streaming preflight itself: a bounded reader over the decoded archive and
    one pass of counters and overrides, proved to decide the archive grammar. */
module Preflight {
  import opened Options
  import opened Bytes
  import opened TarHeader
  import opened TarGrammar
  import Numeral
  import Pax

  const CHUNK := 64 * 1024

  function Min(a: int, b: int): int { if a < b then a else b }

  /** _BoundedReader over a decoded stream. A read that passes the maximum raises;
      it never takes more than one octet beyond it. */
  class BoundedReader {
    const data: bytes
    const maximum: nat
    var consumed: nat

    constructor (data: bytes, maximum: nat)
      ensures this.data == data && this.maximum == maximum && consumed == 0 && Valid()
    {
      this.data, this.maximum, consumed := data, maximum, 0;
    }

    ghost predicate Valid()
      reads this
    {
      consumed <= |data| && consumed <= maximum + 1
    }

    method Read(size: int) returns (r: Option<bytes>)
      requires Valid()
      modifies this
      ensures Valid()
      ensures r.None? <==> size < 0 || Min(old(consumed) + size, |data|) > maximum
      ensures r.Some? ==> && consumed == Min(old(consumed) + size, |data|) <= maximum
                          && r.value == data[old(consumed)..consumed]
    {
      if size < 0 { return None; }
      var wanted := Min(size, maximum - consumed + 1);
      var raw := data[consumed..Min(consumed + wanted, |data|)];
      consumed := consumed + |raw|;
      if consumed > maximum { return None; }
      return Some(raw);
    }
  }

  /** The stretch of the stream that a read of exactly size octets must return. */
  predicate Available(source: BoundedReader, start: nat, size: nat)
  {
    start + size <= |source.data| && start + size <= source.maximum
  }

  method ReadExact(source: BoundedReader, size: nat) returns (r: Option<bytes>)
    requires source.Valid() && source.consumed <= source.maximum
    modifies source
    ensures source.Valid()
    ensures r.Some? <==> Available(source, old(source.consumed), size)
    ensures r.Some? ==> && source.consumed == old(source.consumed) + size
                        && r.value == source.data[old(source.consumed)..source.consumed]
  {
    ghost var start := source.consumed;
    var chunks: bytes, remaining: nat := [], size;
    while remaining > 0
      invariant source.Valid() && source.consumed <= source.maximum
      invariant start <= source.consumed && remaining == start + size - source.consumed
      invariant chunks == source.data[start..source.consumed]
      decreases remaining
    {
      var chunk := source.Read(Min(remaining, CHUNK));
      if chunk.None? || chunk.value == [] { return None; }
      chunks := chunks + chunk.value;
      remaining := remaining - |chunk.value|;
    }
    r := Some(chunks);
  }

  method SkipExact(source: BoundedReader, size: nat) returns (ok: bool)
    requires source.Valid() && source.consumed <= source.maximum
    modifies source
    ensures source.Valid()
    ensures ok <==> Available(source, old(source.consumed), size)
    ensures ok ==> source.consumed == old(source.consumed) + size
  {
    ghost var start := source.consumed;
    var remaining: nat := size;
    while remaining > 0
      invariant source.Valid() && source.consumed <= source.maximum
      invariant start <= source.consumed && remaining == start + size - source.consumed
      decreases remaining
    {
      var chunk := source.Read(Min(remaining, CHUNK));
      if chunk.None? || chunk.value == [] { return false; }
      remaining := remaining - |chunk.value|;
    }
    ok := true;
  }

  predicate AllZero(raw: bytes) { forall i | 0 <= i < |raw| :: raw[i] == 0 }

  /** The padding after the second zero block, up to the end of the stream. */
  method OnlyPaddingLeft(source: BoundedReader) returns (ok: bool)
    requires source.Valid() && source.consumed <= source.maximum
    modifies source
    ensures source.Valid()
    ensures ok <==> && |source.data| <= source.maximum
                    && |source.data| - old(source.consumed) <= TRAILING_MAX
                    && AllZero(source.data[old(source.consumed)..])
    ensures ok ==> source.consumed == |source.data|
  {
    ghost var start := source.consumed;
    var trailingSize := 0;
    while true
      invariant source.Valid() && source.consumed <= source.maximum
      invariant start <= source.consumed && trailingSize == source.consumed - start <= TRAILING_MAX
      invariant forall i | start <= i < source.consumed :: source.data[i] == 0
      decreases |source.data| - source.consumed
    {
      ghost var before := source.consumed;
      var trailing := source.Read(CHUNK);
      if trailing.None? { return false; }
      if trailing.value == [] {
        return true;
      }
      trailingSize := trailingSize + |trailing.value|;
      if trailingSize > TRAILING_MAX { return false; }
      if !AllZero(trailing.value) {
        ghost var i :| 0 <= i < |trailing.value| && trailing.value[i] != 0;
        assert source.data[start..][before - start + i] != 0;
        return false;
      }
      assert forall i | before <= i < source.consumed :: source.data[i] == trailing.value[i - before];
    }
  }

  // ---- The counters, tied to the entries read so far ----

  datatype Counters = Counters(
    members: nat, extensions: nat, consecutive: nat, extensionBytes: nat,
    records: nat, globalRecords: nat, globalPax: Pax.Values, nextPax: Pax.Values)

  /** How many extensions end the list. */
  function Trailing(es: seq<Entry>): nat {
    if es == [] || !IsExtension(KindOf(es[|es| - 1])) then 0 else 1 + Trailing(es[..|es| - 1])
  }

  ghost function CountersOf(es: seq<Entry>): Counters {
    Counters(Members(es), Extensions(es), Trailing(es), ExtensionBytes(es),
             Records(es), GlobalRecords(es), GlobalPax(es), LocalPax(es))
  }

  lemma {:induction false} TrailingRun(es: seq<Entry>)
    ensures Trailing(es) <= |es|
    ensures forall i | |es| - Trailing(es) <= i < |es| :: IsExtension(KindOf(es[i]))
    ensures Trailing(es) < |es| ==> !IsExtension(KindOf(es[|es| - Trailing(es) - 1]))
  {
    if es != [] && IsExtension(KindOf(es[|es| - 1])) {
      TrailingRun(es[..|es| - 1]);
    }
  }

  /** The consecutive-extension counter watches every window of five. */
  lemma RunCounter(es: seq<Entry>, e: Entry)
    requires NoLongRun(es)
    ensures Trailing(es + [e]) == if IsExtension(KindOf(e)) then Trailing(es) + 1 else 0
    ensures NoLongRun(es + [e]) <==> Trailing(es + [e]) <= CONSECUTIVE_EXTENSION_MAX
  {
    var all := es + [e];
    assert all[..|es|] == es;
    TrailingRun(all);
    var last := |all| - CONSECUTIVE_EXTENSION_MAX - 1;
    forall i | 0 <= i < |es| - CONSECUTIVE_EXTENSION_MAX ensures MemberWithin(all, i) {
      assert MemberWithin(es, i);
      var j :| i <= j <= i + CONSECUTIVE_EXTENSION_MAX && !IsExtension(KindOf(es[j]));
      assert !IsExtension(KindOf(all[j]));
    }
    if Trailing(all) <= CONSECUTIVE_EXTENSION_MAX {
      if last >= 0 {
        assert !IsExtension(KindOf(all[|all| - Trailing(all) - 1]));
        assert MemberWithin(all, last);
      }
    } else {
      assert !MemberWithin(all, last);
    }
  }

  /** The header at the next position, once its checksum and size field are read. */
  predicate HeaderRead(data: bytes, es: seq<Entry>, header: bytes, size: nat) {
    && |Concat(es)| + BLOCK <= |data|
    && header == data[|Concat(es)|..|Concat(es)| + BLOCK]
    && header != Zeros(BLOCK) && ChecksumMatches(header) && StoredSize(header) == Some(size)
  }

  function RecordCount(kind: byte, payload: bytes): nat {
    if IsPax(kind) && Pax.Parse(payload).Some? then Pax.Parse(payload).value.1 else 0
  }

  predicate ExtensionLimits(c: Counters, kind: byte, payload: bytes) {
    && c.extensions + 1 <= EXTENSION_COUNT_MAX
    && c.consecutive + 1 <= CONSECUTIVE_EXTENSION_MAX
    && c.extensionBytes + |payload| <= EXTENSIONS_TOTAL_MAX
    && c.records + RecordCount(kind, payload) <= PAX_RECORD_MAX
    && (kind == KIND_G ==> c.globalRecords + RecordCount(kind, payload) <= PAX_GLOBAL_RECORD_MAX)
  }

  function AfterExtension(c: Counters, kind: byte, payload: bytes): Counters {
    var values := if Pax.Parse(payload).Some? then Pax.Parse(payload).value.0 else map[];
    Counters(c.members, c.extensions + 1, c.consecutive + 1, c.extensionBytes + |payload|,
             c.records + RecordCount(kind, payload),
             c.globalRecords + if kind == KIND_G then RecordCount(kind, payload) else 0,
             if kind == KIND_G then c.globalPax + values else c.globalPax,
             if IsLocalPax(kind) then c.nextPax + values
             else if kind == KIND_LONG_NAME then c.nextPax[PATH_KEY := LongName(payload)]
             else c.nextPax)
  }

  function AfterMember(c: Counters): Counters {
    c.(members := c.members + 1, consecutive := 0, nextPax := map[])
  }

  lemma CountersAfter(es: seq<Entry>, e: Entry)
    requires |e.header| == BLOCK
    ensures CountersOf(es + [e])
         == if IsExtension(Kind(e.header)) then AfterExtension(CountersOf(es), Kind(e.header), e.payload)
            else AfterMember(CountersOf(es))
  {
    Snoc(es, e);
    TrailingSnoc(es, e);
    PaxAfter(es, e);
  }

  lemma TrailingSnoc(es: seq<Entry>, e: Entry)
    ensures Trailing(es + [e]) == if IsExtension(KindOf(e)) then Trailing(es) + 1 else 0
  {
    assert (es + [e])[..|es|] == es;
  }

  lemma PaxAfter(es: seq<Entry>, e: Entry)
    requires |e.header| == BLOCK
    ensures IsExtension(Kind(e.header)) ==>
            var after := AfterExtension(CountersOf(es), Kind(e.header), e.payload);
            GlobalPax(es + [e]) == after.globalPax && LocalPax(es + [e]) == after.nextPax
    ensures !IsExtension(Kind(e.header)) ==>
            GlobalPax(es + [e]) == GlobalPax(es) && LocalPax(es + [e]) == map[]
  {
    SnocPax(es, e);
    assert GlobalPax(es) + map[] == GlobalPax(es);
  }

  lemma LimitsAfter(es: seq<Entry>, e: Entry)
    requires Limits(es) && |e.header| == BLOCK
    ensures Limits(es + [e]) <==>
            if IsExtension(Kind(e.header)) then
              ExtensionLimits(CountersOf(es), Kind(e.header), e.payload)
            else Members(es) + 1 <= MEMBER_MAX
  {
    RunCounter(es, e);
    Snoc(es, e);
  }

  function OverrideIn(es: seq<Entry>): Option<bytes> {
    SizeOverride(LocalPax(es), GlobalPax(es))
  }

  lemma NextShape(data: bytes, es: seq<Entry>, header: bytes, stored: nat)
    requires HeaderRead(data, es, header, stored)
    ensures var start, size := |Concat(es)| + BLOCK, PayloadSize(es, header);
            && (NextEntry(data, es).Some? <==>
                size.Some? && start + size.value + Padding(size.value) <= |data|)
            && (NextEntry(data, es).Some? ==>
                var e := NextEntry(data, es).value;
                && e.header == header && e.payload == data[start..start + size.value]
                && |e.payload| == size.value && |e.padding| == Padding(size.value))
  {
    hide PayloadSize, StoredSize, ChecksumMatches, Padding, Concat;
  }

  lemma ValidWhen(before: seq<Entry>, e: Entry)
    requires HeaderValid(e.header) && PayloadSize(before, e.header) == Some(|e.payload|)
    requires |e.padding| == Padding(|e.payload|)
    ensures EntryValid(before, e) <==>
            if IsExtension(Kind(e.header)) then ExtensionValid(Kind(e.header), e.payload)
            else Kind(e.header) != KIND_SPARSE && |e.payload| <= ARCHIVE_MAX
  {
  }

  /** When the next entry is an extension: exactly what lets the scan go on. */
  lemma ExtensionStep(data: bytes, es: seq<Entry>, header: bytes, size: nat)
    requires Limits(es) && HeaderRead(data, es, header, size) && IsExtension(Kind(header))
    ensures var start := |Concat(es)| + BLOCK;
            Extends(data, es) <==>
            && start + size + Padding(size) <= |data|
            && ExtensionValid(Kind(header), data[start..start + size])
            && ExtensionLimits(CountersOf(es), Kind(header), data[start..start + size])
  {
    hide Limits, ExtensionLimits, CountersOf, EntryValid, ExtensionValid, Padding, Concat, StoredSize;
    NextShape(data, es, header, size);
    if NextEntry(data, es).Some? {
      var e := NextEntry(data, es).value;
      ValidWhen(es, e);
      LimitsAfter(es, e);
    }
  }

  /** The same for a member, whose size may be overridden. */
  lemma MemberStep(data: bytes, es: seq<Entry>, header: bytes, stored: nat)
    requires Limits(es) && HeaderRead(data, es, header, stored) && !IsExtension(Kind(header))
    ensures var start, size := |Concat(es)| + BLOCK, EffectiveSize(OverrideIn(es), header);
            Extends(data, es) <==>
            && size.Some? && start + size.value + Padding(size.value) <= |data|
            && Kind(header) != KIND_SPARSE && size.value <= ARCHIVE_MAX
            && Members(es) + 1 <= MEMBER_MAX
  {
    NextShape(data, es, header, stored);
    if NextEntry(data, es).Some? {
      var e := NextEntry(data, es).value;
      ValidWhen(es, e);
      LimitsAfter(es, e);
    }
  }

  /** The preflight's running counters and the PAX overrides in force. */
  class Tally {
    var memberCount: nat
    var extensionCount: nat
    var consecutiveExtensionCount: nat
    var extensionTotal: nat
    var paxRecordCount: nat
    var globalPaxRecordCount: nat
    var globalPax: Pax.Values
    var nextPax: Pax.Values

    constructor ()
      ensures Now() == CountersOf([])
    {
      memberCount, extensionCount, consecutiveExtensionCount, extensionTotal := 0, 0, 0, 0;
      paxRecordCount, globalPaxRecordCount := 0, 0;
      globalPax, nextPax := map[], map[];
    }

    function Now(): Counters
      reads this
    {
      Counters(memberCount, extensionCount, consecutiveExtensionCount, extensionTotal,
               paxRecordCount, globalPaxRecordCount, globalPax, nextPax)
    }

    /** An extension header: its counts, its body, and what the body sets. */
    method Extension(source: BoundedReader, kind: byte, size: nat) returns (ok: bool)
      requires source.Valid() && source.consumed <= source.maximum && IsExtension(kind)
      requires paxRecordCount <= PAX_RECORD_MAX
      modifies this, source
      ensures source.Valid()
      ensures ok <==>
              && Available(source, old(source.consumed), size + Padding(size))
              && var payload := source.data[old(source.consumed)..old(source.consumed) + size];
                 ExtensionValid(kind, payload) && ExtensionLimits(old(Now()), kind, payload)
      ensures ok ==>
              && source.consumed == old(source.consumed) + size + Padding(size)
              && var payload := source.data[old(source.consumed)..old(source.consumed) + size];
                 Now() == AfterExtension(old(Now()), kind, payload)
    {
      hide Pax.Parse, LongName, Utf8, RecordCount, Padding;
      extensionCount := extensionCount + 1;
      consecutiveExtensionCount := consecutiveExtensionCount + 1;
      if extensionCount > EXTENSION_COUNT_MAX { return false; }
      if consecutiveExtensionCount > CONSECUTIVE_EXTENSION_MAX { return false; }
      if size > EXTENSION_MAX { return false; }
      extensionTotal := extensionTotal + size;
      if extensionTotal > EXTENSIONS_TOTAL_MAX { return false; }
      var body := ReadExact(source, size);
      if body.None? { return false; }
      var padded := SkipExact(source, Padding(size));
      if !padded { return false; }
      ok := Apply(kind, body.value);
    }

    /** What the body of an extension sets: a long name, or PAX values. */
    method Apply(kind: byte, extension: bytes) returns (ok: bool)
      requires IsExtension(kind) && |extension| <= EXTENSION_MAX
      requires paxRecordCount <= PAX_RECORD_MAX
      modifies this`nextPax, this`globalPax, this`paxRecordCount, this`globalPaxRecordCount
      ensures ok <==>
              && ExtensionValid(kind, extension)
              && old(paxRecordCount) + RecordCount(kind, extension) <= PAX_RECORD_MAX
              && (kind == KIND_G ==>
                  old(globalPaxRecordCount) + RecordCount(kind, extension) <= PAX_GLOBAL_RECORD_MAX)
      ensures ok ==>
              var after := AfterExtension(old(Now()), kind, extension);
              && nextPax == after.nextPax && globalPax == after.globalPax
              && paxRecordCount == after.records && globalPaxRecordCount == after.globalRecords
    {
      if kind == KIND_LONG_LINK { return false; }
      if kind == KIND_LONG_NAME {
        var longName := LongName(extension);
        if longName == [] || !Utf8(longName) { return false; }
        nextPax := nextPax[PATH_KEY := longName];
      } else {
        var parsed := Pax.PaxValues(extension);
        if parsed.None? { return false; }
        paxRecordCount := paxRecordCount + parsed.value.1;
        if paxRecordCount > PAX_RECORD_MAX { return false; }
        if kind == KIND_G {
          globalPaxRecordCount := globalPaxRecordCount + parsed.value.1;
          if globalPaxRecordCount > PAX_GLOBAL_RECORD_MAX { return false; }
          globalPax := globalPax + parsed.value.0;
        } else {
          nextPax := nextPax + parsed.value.0;
        }
      }
      ok := true;
    }

    /** A member, whose body is skipped unread. */
    method Member(source: BoundedReader, header: bytes) returns (ok: bool)
      requires source.Valid() && source.consumed <= source.maximum
      requires |header| == BLOCK && !IsExtension(Kind(header)) && StoredSize(header).Some?
      modifies this, source
      ensures source.Valid()
      ensures var size := EffectiveSize(SizeOverride(old(nextPax), old(globalPax)), header);
              && (ok <==>
                  && Kind(header) != KIND_SPARSE && old(memberCount) + 1 <= MEMBER_MAX
                  && size.Some? && size.value <= ARCHIVE_MAX
                  && Available(source, old(source.consumed), size.value + Padding(size.value)))
              && (ok ==>
                  source.consumed == old(source.consumed) + size.value + Padding(size.value))
      ensures ok ==> Now() == AfterMember(old(Now()))
    {
      var size := StoredSize(header).value;
      if Kind(header) == KIND_SPARSE { return false; }
      consecutiveExtensionCount := 0;
      memberCount := memberCount + 1;
      if memberCount > MEMBER_MAX { return false; }
      var paxSize := SizeOverride(nextPax, globalPax);
      nextPax := map[];
      if paxSize.Some? {
        if !PaxSizeValid(paxSize.value) { return false; }
        size := Numeral.Value(10, FromAscii(paxSize.value));
      }
      if size > ARCHIVE_MAX { return false; }
      var skipped := SkipExact(source, size);
      if !skipped { return false; }
      ok := SkipExact(source, Padding(size));
    }
  }

  lemma NothingYet()
    ensures Limits([]) && Concat([]) == []
  {
  }

  lemma ScanStops(data: bytes, es: seq<Entry>)
    ensures |Concat(es)| + BLOCK > |data| ==> !Scan(data, es)
    ensures |Concat(es)| + BLOCK <= |data| ==>
              data[|Concat(es)|..|Concat(es)| + BLOCK] == Zeros(BLOCK) || Extends(data, es) || !Scan(data, es)
  {
  }

  lemma FirstZeroBlock(data: bytes, es: seq<Entry>)
    requires |Concat(es)| + BLOCK <= |data|
    requires data[|Concat(es)|..|Concat(es)| + BLOCK] == Zeros(BLOCK)
    ensures Scan(data, es) <==>
            && |Concat(es)| + 2 * BLOCK <= |data|
            && data[|Concat(es)| + BLOCK..|Concat(es)| + 2 * BLOCK] == Zeros(BLOCK)
            && |data| - (|Concat(es)| + 2 * BLOCK) <= TRAILING_MAX
            && AllZero(data[|Concat(es)| + 2 * BLOCK..])
  {
    var pos := |Concat(es)|;
    if pos + 2 * BLOCK <= |data| {
      var first, second := data[pos..pos + BLOCK], data[pos + BLOCK..pos + 2 * BLOCK];
      var rest := data[pos + 2 * BLOCK..];
      assert data[pos..] == first + second + rest;
      assert AllZero(first);
      if EndMarker(data[pos..]) {
        ZeroParts(first + second, rest);
        ZeroParts(first, second);
        assert second == Zeros(BLOCK);
      }
    }
  }

  lemma ZeroParts(a: bytes, b: bytes)
    requires AllZero(a + b)
    ensures AllZero(a) && AllZero(b)
  {
    forall i | 0 <= i < |a| ensures a[i] == 0 { assert a[i] == (a + b)[i]; }
    forall i | 0 <= i < |b| ensures b[i] == 0 { assert b[i] == (a + b)[|a| + i]; }
  }

  /** The whole loop: header, end marker, or one more entry. */
  method ScanEntries(source: BoundedReader) returns (ok: bool)
    requires source.Valid() && source.consumed == 0 && source.maximum == ARCHIVE_MAX
    modifies source
    ensures source.Valid() && source.consumed <= ARCHIVE_MAX + 1
    ensures ok <==> |source.data| <= ARCHIVE_MAX && Scan(source.data, [])
    ensures ok ==> source.consumed == |source.data|
  {
    hide Limits, CountersOf, Extends, EndMarker, NextEntry, Advanced, Concat, Scan, Zeros, AllZero, Kind;
    var tally := new Tally();
    var data := source.data;
    var zeroBlocks := 0;
    ghost var es: seq<Entry> := [];
    NothingYet();
    while true
      invariant source.Valid() && source.consumed <= ARCHIVE_MAX && fresh(tally)
      invariant zeroBlocks <= 1 && source.consumed == |Concat(es)| + zeroBlocks * BLOCK
      invariant Limits(es) && tally.Now() == CountersOf(es)
      invariant Scan(data, []) == Scan(data, es)
      invariant zeroBlocks == 1 ==> data[|Concat(es)|..|Concat(es)| + BLOCK] == Zeros(BLOCK)
      decreases |data| - source.consumed
    {
      if zeroBlocks == 1 { FirstZeroBlock(data, es); } else { ScanStops(data, es); }
      var head := source.Read(BLOCK);
      if head.None? { return false; }
      var header := head.value;
      if |header| != BLOCK { return false; }
      if header == Zeros(BLOCK) {
        zeroBlocks := zeroBlocks + 1;
        if zeroBlocks == 2 {
          ok := OnlyPaddingLeft(source);
          return;
        }
        continue;
      }
      if zeroBlocks > 0 { return false; }
      ok := NextHeader(source, tally, header, es);
      if !ok { return; }
      es := Advance(data, es, source.consumed, tally.Now());
    }
  }

  /** What one more entry means for the reader and the tally. */
  ghost predicate Advanced(data: bytes, es: seq<Entry>, consumed: nat, c: Counters) {
    && |Concat(es)| + BLOCK <= |data| && Extends(data, es)
    && var next := es + [NextEntry(data, es).value];
       c == CountersOf(next) && consumed == |Concat(next)|
  }

  lemma ExtensionRead(data: bytes, es: seq<Entry>, header: bytes, size: nat)
    requires HeaderRead(data, es, header, size) && IsExtension(Kind(header))
    requires |Concat(es)| + BLOCK + size + Padding(size) <= |data|
    ensures NextEntry(data, es).Some?
    ensures var start, next := |Concat(es)| + BLOCK, es + [NextEntry(data, es).value];
            && |Concat(next)| == start + size + Padding(size)
            && CountersOf(next) == AfterExtension(CountersOf(es), Kind(header), data[start..start + size])
  {
    hide CountersOf, AfterExtension, StoredSize, ChecksumMatches, Concat;
    NextShape(data, es, header, size);
    ConcatNext(es, NextEntry(data, es).value);
    CountersAfter(es, NextEntry(data, es).value);
  }

  lemma ExtensionAdvances(data: bytes, es: seq<Entry>, header: bytes, size: nat)
    requires Limits(es) && HeaderRead(data, es, header, size) && IsExtension(Kind(header))
    ensures var start := |Concat(es)| + BLOCK;
            if start + size + Padding(size) <= |data|
               && ExtensionValid(Kind(header), data[start..start + size])
               && ExtensionLimits(CountersOf(es), Kind(header), data[start..start + size])
            then Advanced(data, es, start + size + Padding(size),
                          AfterExtension(CountersOf(es), Kind(header), data[start..start + size]))
            else !Extends(data, es)
  {
    ExtensionStep(data, es, header, size);
    if |Concat(es)| + BLOCK + size + Padding(size) <= |data| {
      ExtensionRead(data, es, header, size);
    }
  }

  lemma MemberAdvances(data: bytes, es: seq<Entry>, header: bytes, stored: nat)
    requires Limits(es) && HeaderRead(data, es, header, stored) && !IsExtension(Kind(header))
    ensures var start, size := |Concat(es)| + BLOCK, EffectiveSize(OverrideIn(es), header);
            if size.Some? && start + size.value + Padding(size.value) <= |data|
               && Kind(header) != KIND_SPARSE && size.value <= ARCHIVE_MAX
               && Members(es) + 1 <= MEMBER_MAX
            then Advanced(data, es, start + size.value + Padding(size.value), AfterMember(CountersOf(es)))
            else !Extends(data, es)
  {
    MemberStep(data, es, header, stored);
    NextShape(data, es, header, stored);
    if NextEntry(data, es).Some? {
      ConcatNext(es, NextEntry(data, es).value);
      CountersAfter(es, NextEntry(data, es).value);
    }
  }

  /** One non-zero header: both of its numbers, then the entry behind it. */
  method NextHeader(source: BoundedReader, tally: Tally, header: bytes, ghost es: seq<Entry>)
      returns (ok: bool)
    requires source.Valid() && source.consumed <= source.maximum
    requires source.consumed == |Concat(es)| + BLOCK && |header| == BLOCK && header != Zeros(BLOCK)
    requires header == source.data[|Concat(es)|..|Concat(es)| + BLOCK]
    requires Limits(es) && tally.Now() == CountersOf(es)
    modifies source, tally
    ensures source.Valid()
    ensures |source.data| <= source.maximum && !ok ==> !Extends(source.data, es)
    ensures ok ==> Advanced(source.data, es, source.consumed, tally.Now())
    ensures ok ==> old(source.consumed) <= source.consumed <= source.maximum
  {
    if TarNumber(header[148..156]) != Some(Checksum(header)) {
      HeaderNeeded(source.data, es);
      return false;
    }
    var stored := StoredSize(header);
    if stored.None? {
      HeaderNeeded(source.data, es);
      return false;
    }
    if IsExtension(Kind(header)) {
      ok := NextExtension(source, tally, header, stored.value, es);
    } else {
      ok := NextMember(source, tally, header, stored.value, es);
    }
  }

  lemma Advance(data: bytes, es: seq<Entry>, consumed: nat, c: Counters) returns (next: seq<Entry>)
    requires Advanced(data, es, consumed, c) && data[|Concat(es)|..|Concat(es)| + BLOCK] != Zeros(BLOCK)
    ensures Limits(next) && c == CountersOf(next) && consumed == |Concat(next)|
    ensures Scan(data, es) == Scan(data, next)
  {
    next := es + [NextEntry(data, es).value];
  }

  lemma HeaderNeeded(data: bytes, es: seq<Entry>)
    requires |Concat(es)| + BLOCK <= |data|
    ensures Extends(data, es) ==> HeaderValid(data[|Concat(es)|..|Concat(es)| + BLOCK])
  {
  }

  lemma CountersShape(es: seq<Entry>, c: Counters)
    requires Limits(es) && c == CountersOf(es)
    ensures c.nextPax == LocalPax(es) && c.globalPax == GlobalPax(es) && c.members == Members(es)
    ensures c.records <= PAX_RECORD_MAX
  {
  }

  lemma HeaderShape(data: bytes, es: seq<Entry>, header: bytes, size: nat)
    requires HeaderRead(data, es, header, size)
    ensures |header| == BLOCK && StoredSize(header) == Some(size)
  {
  }

  method NextExtension(source: BoundedReader, tally: Tally, header: bytes, size: nat,
                       ghost es: seq<Entry>) returns (ok: bool)
    requires source.Valid() && source.consumed <= source.maximum
    requires source.consumed == |Concat(es)| + BLOCK
    requires HeaderRead(source.data, es, header, size) && IsExtension(Kind(header))
    requires Limits(es) && tally.Now() == CountersOf(es)
    modifies source, tally
    ensures source.Valid()
    ensures |source.data| <= source.maximum && !ok ==> !Extends(source.data, es)
    ensures ok ==> Advanced(source.data, es, source.consumed, tally.Now())
    ensures ok ==> old(source.consumed) <= source.consumed <= source.maximum
  {
    hide Limits, HeaderRead, ExtensionValid, ExtensionLimits, AfterExtension, Advanced, Extends, CountersOf, Padding,
      Concat, Kind, IsExtension, StoredSize;
    CountersShape(es, tally.Now());
    HeaderShape(source.data, es, header, size);
    ExtensionAdvances(source.data, es, header, size);
    ok := tally.Extension(source, Kind(header), size);
  }

  method NextMember(source: BoundedReader, tally: Tally, header: bytes, size: nat,
                    ghost es: seq<Entry>) returns (ok: bool)
    requires source.Valid() && source.consumed <= source.maximum
    requires source.consumed == |Concat(es)| + BLOCK
    requires HeaderRead(source.data, es, header, size) && !IsExtension(Kind(header))
    requires Limits(es) && tally.Now() == CountersOf(es)
    modifies source, tally
    ensures source.Valid()
    ensures |source.data| <= source.maximum && !ok ==> !Extends(source.data, es)
    ensures ok ==> Advanced(source.data, es, source.consumed, tally.Now())
    ensures ok ==> old(source.consumed) <= source.consumed <= source.maximum
  {
    hide Limits, HeaderRead, Extends, Advanced, CountersOf, Padding, Concat, EffectiveSize, AfterMember, StoredSize,
      SizeOverride;
    CountersShape(es, tally.Now());
    HeaderShape(source.data, es, header, size);
    MemberAdvances(source.data, es, header, size);
    ok := tally.Member(source, header);
  }

  lemma ConcatNext(es: seq<Entry>, e: Entry)
    ensures |Concat(es + [e])| == |Concat(es)| + |Text(e)|
  {
    assert (es + [e])[..|es|] == es;
  }

  /** _preflight_archive on the decoded stream: accept exactly the archives of the
      grammar that fit the cap, never reading more than one octet past it. */
  method PreflightArchive(data: bytes) returns (ok: bool)
    ensures ok <==> |data| <= ARCHIVE_MAX && exists es :: Archive(es, data)
  {
    var source := new BoundedReader(data, ARCHIVE_MAX);
    ok := ScanEntries(source);
    ScanDecidesArchive(data);
  }

  // ---- What a writer has to do to be accepted ----

  /** A member written with an octal or a base-256 size and no PAX override. */
  lemma WrittenMemberValid(before: seq<Entry>, front: bytes, mtime: bytes, kind: byte, rest: bytes,
                           payload: bytes, binary: bool)
    requires |front| == 124 && |mtime| == 12 && |rest| == 355
    requires !IsExtension(kind) && kind != KIND_SPARSE && OverrideIn(before).None?
    requires |payload| <= ARCHIVE_MAX
    ensures |payload| < Pow(8, 11) && |payload| < Pow(256, 11)
    ensures var field := if binary then Base256Field(|payload|, 11) else OctalField(|payload|, 11, [0]);
            EntryValid(before, Entry(WriteHeader(front, field, mtime, kind, rest), payload,
                                     Zeros(Padding(|payload|))))
  {
    PowGrows();
    OctalRoundTrip(|payload|, 11, [0]);
    Base256RoundTrip(|payload|, 11);
    var field := if binary then Base256Field(|payload|, 11) else OctalField(|payload|, 11, [0]);
    WrittenHeaderAccepted(front, field, mtime, kind, rest);
  }

  /** The same for a member whose size is carried by a PAX record, local or global:
      whatever the size field says is then ignored. */
  lemma OverriddenMemberValid(before: seq<Entry>, front: bytes, mtime: bytes, kind: byte, rest: bytes,
                              payload: bytes, stored: nat)
    requires |front| == 124 && |mtime| == 12 && |rest| == 355
    requires !IsExtension(kind) && kind != KIND_SPARSE && |payload| <= ARCHIVE_MAX
    requires stored < Pow(8, 11) && OverrideIn(before) == Some(Pax.Decimal(|payload|))
    ensures EntryValid(before, Entry(WriteHeader(front, OctalField(stored, 11, [0]), mtime, kind, rest),
                                     payload, Zeros(Padding(|payload|))))
  {
    OctalRoundTrip(stored, 11, [0]);
    WrittenHeaderAccepted(front, OctalField(stored, 11, [0]), mtime, kind, rest);
    DecimalSizeValid(|payload|);
  }

  lemma DecimalSizeValid(n: nat)
    requires n < 10000000000
    ensures PaxSizeValid(Pax.Decimal(n))
  {
    assert Pow(10, 3) == 1000;
    assert Pow(10, 6) == 1000000;
    assert Pow(10, 10) == 10000000000;
    PrintWidth(10, n, 10);
  }

  lemma PowGrows()
    ensures ARCHIVE_MAX < Pow(8, 11) && ARCHIVE_MAX < Pow(256, 11)
  {
    assert Pow(8, 4) == 4096;
    assert Pow(8, 8) == 16777216;
    assert Pow(8, 11) == 8589934592;
    assert Pow(256, 4) == 4294967296;
    assert Pow(256, 8) == 18446744073709551616;
    assert Pow(256, 11) == 309485009821345068724781056;
  }
}
