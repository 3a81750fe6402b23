/** What an acceptable candidate archive is, said about a list of entries rather
    than about a parser: block layout, effective sizes, and the resource limits. */
module TarGrammar {
  import opened Options
  import opened Bytes
  import opened TarHeader
  import Numeral
  import Pax

  const ARCHIVE_MAX := 1024 * 1024 * 1024
  const MEMBER_MAX := 1024
  const EXTENSION_MAX := 64 * 1024
  const EXTENSIONS_TOTAL_MAX := 256 * 1024
  const EXTENSION_COUNT_MAX := 2 * MEMBER_MAX
  const CONSECUTIVE_EXTENSION_MAX := 4
  const PAX_RECORD_MAX := 4 * MEMBER_MAX
  const PAX_GLOBAL_RECORD_MAX := 64
  const TRAILING_MAX := 1024 * 1024

  const KIND_X: byte := 120          // local PAX records
  const KIND_SOLARIS_X: byte := 88   // "X"
  const KIND_G: byte := 103          // global PAX records
  const KIND_LONG_NAME: byte := 76   // "L"
  const KIND_LONG_LINK: byte := 75   // "K"
  const KIND_SPARSE: byte := 83      // "S"
  const SIZE_KEY: bytes := [115, 105, 122, 101]
  const PATH_KEY: bytes := [112, 97, 116, 104]

  datatype Entry = Entry(header: bytes, payload: bytes, padding: bytes)

  predicate IsExtension(kind: byte) {
    IsPax(kind) || kind == KIND_LONG_NAME || kind == KIND_LONG_LINK
  }

  predicate IsLocalPax(kind: byte) {
    kind == KIND_X || kind == KIND_SOLARIS_X
  }

  predicate IsPax(kind: byte) {
    IsLocalPax(kind) || kind == KIND_G
  }

  function KindOf(e: Entry): byte {
    if |e.header| == BLOCK then Kind(e.header) else 0
  }

  /** (-size) % 512. */
  function Padding(size: nat): nat { (0 - size) % BLOCK }

  function Text(e: Entry): bytes { e.header + e.payload + e.padding }

  function Concat(es: seq<Entry>): bytes {
    if es == [] then [] else Concat(es[..|es| - 1]) + Text(es[|es| - 1])
  }

  // ---- Counts over a list of entries ----

  function Members(es: seq<Entry>): nat {
    if es == [] then 0
    else Members(es[..|es| - 1]) + if IsExtension(KindOf(es[|es| - 1])) then 0 else 1
  }

  function Extensions(es: seq<Entry>): nat {
    if es == [] then 0
    else Extensions(es[..|es| - 1]) + if IsExtension(KindOf(es[|es| - 1])) then 1 else 0
  }

  function ExtensionBytes(es: seq<Entry>): nat {
    if es == [] then 0
    else
      ExtensionBytes(es[..|es| - 1])
      + if IsExtension(KindOf(es[|es| - 1])) then |es[|es| - 1].payload| else 0
  }

  function RecordsIn(e: Entry): nat {
    if IsPax(KindOf(e)) && Pax.Parse(e.payload).Some? then Pax.Parse(e.payload).value.1 else 0
  }

  function Records(es: seq<Entry>): nat {
    if es == [] then 0 else Records(es[..|es| - 1]) + RecordsIn(es[|es| - 1])
  }

  function GlobalRecords(es: seq<Entry>): nat {
    if es == [] then 0
    else
      GlobalRecords(es[..|es| - 1])
      + if KindOf(es[|es| - 1]) == KIND_G then RecordsIn(es[|es| - 1]) else 0
  }

  /** Among any five consecutive entries one is not an extension. */
  predicate NoLongRun(es: seq<Entry>) {
    forall i | 0 <= i < |es| - CONSECUTIVE_EXTENSION_MAX :: MemberWithin(es, i)
  }

  predicate MemberWithin(es: seq<Entry>, i: nat)
    requires i < |es| - CONSECUTIVE_EXTENSION_MAX
  {
    exists j :: i <= j <= i + CONSECUTIVE_EXTENSION_MAX && !IsExtension(KindOf(es[j]))
  }

  predicate Limits(es: seq<Entry>) {
    && Members(es) <= MEMBER_MAX
    && Extensions(es) <= EXTENSION_COUNT_MAX
    && ExtensionBytes(es) <= EXTENSIONS_TOTAL_MAX
    && Records(es) <= PAX_RECORD_MAX
    && GlobalRecords(es) <= PAX_GLOBAL_RECORD_MAX
    && NoLongRun(es)
  }

  // ---- PAX overrides in force after a list of entries ----

  function PaxMap(e: Entry): Pax.Values {
    if Pax.Parse(e.payload).Some? then Pax.Parse(e.payload).value.0 else map[]
  }

  function GlobalPax(es: seq<Entry>): Pax.Values {
    if es == [] then map[]
    else
      var e := es[|es| - 1];
      GlobalPax(es[..|es| - 1]) + if KindOf(e) == KIND_G then PaxMap(e) else map[]
  }

  /** trailing NULs of a GNU long name do not belong to it. */
  function LongName(payload: bytes): bytes { RightStrip(payload, {0}) }

  /** Local values hold for the next member only. */
  function LocalPax(es: seq<Entry>): Pax.Values {
    if es == [] then map[]
    else
      var e, before := es[|es| - 1], LocalPax(es[..|es| - 1]);
      if IsLocalPax(KindOf(e)) then before + PaxMap(e)
      else if KindOf(e) == KIND_LONG_NAME then before[PATH_KEY := LongName(e.payload)]
      else if IsExtension(KindOf(e)) then before
      else map[]
  }

  function SizeOverride(local: Pax.Values, global: Pax.Values): Option<bytes> {
    if SIZE_KEY in local then Some(local[SIZE_KEY])
    else if SIZE_KEY in global then Some(global[SIZE_KEY])
    else None
  }

  /** A decimal without leading zeros of at most ten digits. */
  predicate PaxSizeValid(text: bytes) {
    IsDecimal(text) && |text| <= 10 && (text[0] == 48 ==> |text| == 1)
  }

  /** Local PAX over global PAX over the header field. */
  function EffectiveSize(override: Option<bytes>, header: bytes): Option<nat>
    requires |header| == BLOCK
  {
    match override
    case None => StoredSize(header)
    case Some(text) =>
      if PaxSizeValid(text) then Some(Numeral.Value(10, FromAscii(text))) else None
  }

  function PayloadSize(before: seq<Entry>, header: bytes): Option<nat>
    requires |header| == BLOCK
  {
    if IsExtension(Kind(header)) then StoredSize(header)
    else EffectiveSize(SizeOverride(LocalPax(before), GlobalPax(before)), header)
  }

  predicate HeaderValid(header: bytes) {
    && |header| == BLOCK && header != Zeros(BLOCK)
    && ChecksumMatches(header) && StoredSize(header).Some?
  }

  predicate ExtensionValid(kind: byte, payload: bytes) {
    && |payload| <= EXTENSION_MAX
    && kind != KIND_LONG_LINK
    && (kind == KIND_LONG_NAME ==> LongName(payload) != [] && Utf8(LongName(payload)))
    && (IsPax(kind) ==> Pax.Parse(payload).Some?)
  }

  predicate EntryValid(before: seq<Entry>, e: Entry) {
    && HeaderValid(e.header)
    && PayloadSize(before, e.header) == Some(|e.payload|)
    && |e.padding| == Padding(|e.payload|)
    && (if IsExtension(Kind(e.header)) then ExtensionValid(Kind(e.header), e.payload)
        else Kind(e.header) != KIND_SPARSE && |e.payload| <= ARCHIVE_MAX)
  }

  predicate EntriesValid(es: seq<Entry>) {
    es == []
    || (EntriesValid(es[..|es| - 1]) && EntryValid(es[..|es| - 1], es[|es| - 1]))
  }

  /** Two zero blocks and at most 1 MiB of further zeros. */
  predicate EndMarker(tail: bytes) {
    && 2 * BLOCK <= |tail| <= 2 * BLOCK + TRAILING_MAX
    && forall i | 0 <= i < |tail| :: tail[i] == 0
  }

  /** data is exactly these entries followed by an end marker. */
  predicate Reads(es: seq<Entry>, data: bytes) {
    EntriesValid(es) && Concat(es) <= data && EndMarker(data[|Concat(es)|..])
  }

  predicate Archive(es: seq<Entry>, data: bytes) {
    Reads(es, data) && Limits(es)
  }

  // ---- The scan: the one entry that may come next ----

  /** One entry of this payload size cut out at a position. */
  function Cut(data: bytes, pos: nat, size: Option<nat>): Option<Entry>
    requires pos + BLOCK <= |data|
  {
    match size
    case None => None
    case Some(n) =>
      var start := pos + BLOCK;
      var end := start + n + Padding(n);
      if end > |data| then None
      else Some(Entry(data[pos..start], data[start..start + n], data[start + n..end]))
  }

  function NextEntry(data: bytes, es: seq<Entry>): Option<Entry>
    requires |Concat(es)| + BLOCK <= |data|
  {
    var pos := |Concat(es)|;
    Cut(data, pos, PayloadSize(es, data[pos..pos + BLOCK]))
  }

  predicate Extends(data: bytes, es: seq<Entry>)
    requires |Concat(es)| + BLOCK <= |data|
  {
    && NextEntry(data, es).Some?
    && EntryValid(es, NextEntry(data, es).value)
    && Limits(es + [NextEntry(data, es).value])
  }

  predicate Scan(data: bytes, es: seq<Entry>)
    decreases |data| - |Concat(es)|
  {
    if |Concat(es)| + BLOCK > |data| then false
    else if data[|Concat(es)|..|Concat(es)| + BLOCK] == Zeros(BLOCK) then
      EndMarker(data[|Concat(es)|..])
    else if !Extends(data, es) then false
    else
      var e := NextEntry(data, es).value;
      Snoc(es, e);
      Scan(data, es + [e])
  }

  lemma Snoc(es: seq<Entry>, e: Entry)
    ensures Concat(es + [e]) == Concat(es) + Text(e)
    ensures Members(es + [e]) == Members(es) + if IsExtension(KindOf(e)) then 0 else 1
    ensures Extensions(es + [e]) == Extensions(es) + if IsExtension(KindOf(e)) then 1 else 0
    ensures ExtensionBytes(es + [e])
         == ExtensionBytes(es) + if IsExtension(KindOf(e)) then |e.payload| else 0
    ensures Records(es + [e]) == Records(es) + RecordsIn(e)
    ensures GlobalRecords(es + [e])
         == GlobalRecords(es) + if KindOf(e) == KIND_G then RecordsIn(e) else 0
  {
    assert (es + [e])[..|es|] == es;
  }

  lemma SnocPax(es: seq<Entry>, e: Entry)
    ensures GlobalPax(es + [e]) == GlobalPax(es) + if KindOf(e) == KIND_G then PaxMap(e) else map[]
    ensures LocalPax(es + [e])
         == if IsLocalPax(KindOf(e)) then LocalPax(es) + PaxMap(e)
            else if KindOf(e) == KIND_LONG_NAME then LocalPax(es)[PATH_KEY := LongName(e.payload)]
            else if IsExtension(KindOf(e)) then LocalPax(es)
            else map[]
  {
    assert (es + [e])[..|es|] == es;
  }

  lemma {:induction false} ConcatPrefix(es: seq<Entry>, i: nat)
    requires i <= |es|
    ensures Concat(es[..i]) <= Concat(es)
    decreases |es|
  {
    if i < |es| {
      ConcatPrefix(es[..|es| - 1], i);
      assert es[..|es| - 1][..i] == es[..i];
    } else {
      assert es[..i] == es;
    }
  }

  lemma {:induction false} LimitsPrefix(es: seq<Entry>, i: nat)
    requires Limits(es) && i <= |es|
    ensures Limits(es[..i])
    decreases |es|
  {
    if i < |es| {
      var front := es[..|es| - 1];
      assert NoLongRun(front) by {
        forall k | 0 <= k < |front| - CONSECUTIVE_EXTENSION_MAX ensures MemberWithin(front, k) {
          assert MemberWithin(es, k);
          var j :| k <= j <= k + CONSECUTIVE_EXTENSION_MAX && !IsExtension(KindOf(es[j]));
          assert front[j] == es[j];
        }
      }
      LimitsPrefix(front, i);
      assert front[..i] == es[..i];
    } else {
      assert es[..i] == es;
    }
  }

  predicate Shaped(e: Entry) {
    |e.header| == BLOCK && |e.padding| == Padding(|e.payload|)
  }

  lemma CutBack(data: bytes, pos: nat, e: Entry)
    requires Shaped(e) && pos + |Text(e)| <= |data| && data[pos..pos + |Text(e)|] == Text(e)
    ensures pos + BLOCK <= |data| && data[pos..pos + BLOCK] == e.header
    ensures Cut(data, pos, Some(|e.payload|)) == Some(e)
  {
    Slices(data, pos, e);
  }

  lemma TextAfter(data: bytes, before: bytes, text: bytes)
    requires before + text <= data
    ensures |before| + |text| <= |data| && data[|before|..|before| + |text|] == text
  {
    assert data[..|before| + |text|] == before + text;
  }

  /** The entries of an archive are the ones the scan finds, in order. */
  lemma NextIs(data: bytes, es: seq<Entry>, i: nat)
    requires EntriesValid(es) && Concat(es) <= data && i < |es|
    ensures es[..i + 1] == es[..i] + [es[i]]
    ensures |Concat(es[..i])| + BLOCK <= |data|
    ensures data[|Concat(es[..i])|..|Concat(es[..i])| + BLOCK] == es[i].header
    ensures NextEntry(data, es[..i]) == Some(es[i])
  {
    hide *;
    ShapeAt(es, i);
    NextIsShaped(data, es, i);
  }

  lemma NextIsShaped(data: bytes, es: seq<Entry>, i: nat)
    requires i < |es| && Concat(es) <= data
    requires Shaped(es[i]) && PayloadSize(es[..i], es[i].header) == Some(|es[i].payload|)
    ensures |Concat(es[..i])| + BLOCK <= |data|
    ensures data[|Concat(es[..i])|..|Concat(es[..i])| + BLOCK] == es[i].header
    ensures NextEntry(data, es[..i]) == Some(es[i])
  {
    hide PayloadSize, Cut, Concat;
    ConcatAt(es, i);
    PrefixTransitive(Concat(es[..i]) + Text(es[i]), Concat(es), data);
    TextAfter(data, Concat(es[..i]), Text(es[i]));
    CutBack(data, |Concat(es[..i])|, es[i]);
  }

  lemma {:induction false} ConcatAt(es: seq<Entry>, i: nat)
    requires i < |es|
    ensures Concat(es[..i]) + Text(es[i]) <= Concat(es)
    decreases |es|
  {
    if i < |es| - 1 {
      ConcatAt(es[..|es| - 1], i);
      assert es[..|es| - 1][..i] == es[..i];
    }
  }

  lemma PrefixTransitive(a: bytes, b: bytes, c: bytes)
    requires a <= b <= c
    ensures a <= c
  {
  }

  lemma {:induction false} ValidAt(es: seq<Entry>, i: nat)
    requires EntriesValid(es) && i < |es|
    ensures EntryValid(es[..i], es[i]) && HeaderValid(es[i].header)
    decreases |es|
  {
    var front := es[..|es| - 1];
    if i < |front| {
      ValidAt(front, i);
      assert front[..i] == es[..i];
    }
  }

  lemma ShapeAt(es: seq<Entry>, i: nat)
    requires EntriesValid(es) && i < |es|
    ensures Shaped(es[i]) && PayloadSize(es[..i], es[i].header) == Some(|es[i].payload|)
  {
    ValidAt(es, i);
  }

  /** Cutting an entry out of the text at its position gives back its parts. */
  lemma Slices(data: bytes, pos: nat, e: Entry)
    requires pos + |Text(e)| <= |data| && data[pos..pos + |Text(e)|] == Text(e)
    ensures var h, n := pos + |e.header|, |e.payload|;
            && data[pos..h] == e.header && data[h..h + n] == e.payload
            && data[h + n..pos + |Text(e)|] == e.padding
  {
    var h, n, t := |e.header|, |e.payload|, data[pos..pos + |Text(e)|];
    assert t[..h] == e.header && t[h..h + n] == e.payload && t[h + n..] == e.padding;
    SubSlice(data, pos, pos + |t|, 0, h);
    SubSlice(data, pos, pos + |t|, h, h + n);
    SubSlice(data, pos, pos + |t|, h + n, |t|);
  }

  lemma SubSlice(data: bytes, lo: nat, hi: nat, i: nat, j: nat)
    requires lo <= hi <= |data| && i <= j <= hi - lo
    ensures data[lo..hi][i..j] == data[lo + i..lo + j]
  {
    var a, b := data[lo..hi][i..j], data[lo + i..lo + j];
    assert forall k | 0 <= k < j - i :: a[k] == data[lo + i + k];
    assert forall k | 0 <= k < j - i :: b[k] == data[lo + i + k];
  }

  lemma EndIsZeros(data: bytes, pos: nat)
    requires pos <= |data| && EndMarker(data[pos..])
    ensures pos + BLOCK <= |data| && data[pos..pos + BLOCK] == Zeros(BLOCK)
  {
    var block := data[pos..pos + BLOCK];
    forall k | 0 <= k < BLOCK ensures block[k] == 0 {
      assert block[k] == data[pos..][k];
    }
  }

  lemma {:induction false} ScanComplete(data: bytes, es: seq<Entry>, i: nat)
    requires Archive(es, data) && i <= |es|
    ensures Scan(data, es[..i])
    decreases |es| - i
  {
    if i == |es| {
      assert es[..i] == es;
      EndIsZeros(data, |Concat(es)|);
    } else {
      NextIs(data, es, i);
      ValidAt(es, i);
      LimitsPrefix(es, i + 1);
      ScanComplete(data, es, i + 1);
    }
  }

  lemma {:induction false} ScanSound(data: bytes, es: seq<Entry>) returns (all: seq<Entry>)
    requires EntriesValid(es) && Limits(es) && Concat(es) <= data && Scan(data, es)
    ensures Archive(all, data)
    decreases |data| - |Concat(es)|
  {
    var pos := |Concat(es)|;
    if data[pos..pos + BLOCK] == Zeros(BLOCK) {
      all := es;
    } else {
      var e := NextEntry(data, es).value;
      AppendText(data, es);
      ValidSnoc(es, e);
      all := ScanSound(data, es + [e]);
    }
  }

  lemma CutText(data: bytes, pos: nat, size: Option<nat>)
    requires pos + BLOCK <= |data| && Cut(data, pos, size).Some?
    ensures var e := Cut(data, pos, size).value;
            Shaped(e) && pos + |Text(e)| <= |data| && data[pos..pos + |Text(e)|] == Text(e)
  {
    hide Padding;
    var e := Cut(data, pos, size).value;
    var text := data[pos..pos + |Text(e)|];
    var h, n := BLOCK, size.value;
    SubSlice(data, pos, pos + |text|, 0, h);
    SubSlice(data, pos, pos + |text|, h, h + n);
    SubSlice(data, pos, pos + |text|, h + n, |text|);
    assert text == text[0..h] + text[h..h + n] + text[h + n..|text|];
  }

  lemma AppendCut(data: bytes, es: seq<Entry>, e: Entry)
    requires Concat(es) <= data && |Concat(es)| + |Text(e)| <= |data|
    requires data[|Concat(es)|..|Concat(es)| + |Text(e)|] == Text(e)
    ensures Concat(es + [e]) <= data && |Concat(es + [e])| == |Concat(es)| + |Text(e)|
  {
    var pos := |Concat(es)|;
    Snoc(es, e);
    assert data[..pos] == Concat(es);
    assert data[..pos + |Text(e)|] == data[..pos] + data[pos..pos + |Text(e)|];
  }

  lemma AppendText(data: bytes, es: seq<Entry>)
    requires Concat(es) <= data && |Concat(es)| + BLOCK <= |data| && NextEntry(data, es).Some?
    ensures var e := NextEntry(data, es).value;
            Concat(es + [e]) <= data && |Concat(es + [e])| >= |Concat(es)| + BLOCK && Shaped(e)
  {
    hide PayloadSize, Cut;
    var e, pos := NextEntry(data, es).value, |Concat(es)|;
    CutText(data, pos, PayloadSize(es, data[pos..pos + BLOCK]));
    AppendCut(data, es, e);
  }

  lemma ValidSnoc(es: seq<Entry>, e: Entry)
    requires EntriesValid(es) && EntryValid(es, e)
    ensures EntriesValid(es + [e])
  {
    assert (es + [e])[..|es + [e]| - 1] == es;
  }

  /** The scan decides the grammar. */
  lemma ScanDecidesArchive(data: bytes)
    ensures Scan(data, []) <==> exists es :: Archive(es, data)
  {
    if Scan(data, []) {
      assert Limits([]);
      var es := ScanSound(data, []);
    }
    if es :| Archive(es, data) {
      ScanComplete(data, es, 0);
      assert es[..0] == [];
    }
  }

  lemma SameNext(data: bytes, es: seq<Entry>, fs: seq<Entry>, i: nat)
    requires EntriesValid(es) && Concat(es) <= data && EntriesValid(fs) && Concat(fs) <= data
    requires i < |es| && i < |fs| && es[..i] == fs[..i]
    ensures es[..i + 1] == fs[..i + 1]
  {
    hide *;
    NextIs(data, es, i);
    NextIs(data, fs, i);
  }

  /** Whatever the limits, the octets read as one list of entries only. */
  lemma {:induction false} ReadsUnambiguous(data: bytes, es: seq<Entry>, fs: seq<Entry>, i: nat)
    requires Reads(es, data) && Reads(fs, data) && i <= |es| && i <= |fs| && es[..i] == fs[..i]
    ensures es == fs
    decreases |es| - i
  {
    hide EntriesValid, EndMarker, Concat;
    if i < |es| && i < |fs| {
      SameNext(data, es, fs, i);
      ReadsUnambiguous(data, es, fs, i + 1);
    } else if i < |es| {
      assert fs == fs[..i];
      AtEnd(data, fs);
      NotAtEnd(data, es, i);
    } else if i < |fs| {
      assert es == es[..i];
      AtEnd(data, es);
      NotAtEnd(data, fs, i);
    } else {
      assert es == es[..i] && fs == fs[..i];
    }
  }

  lemma AtEnd(data: bytes, es: seq<Entry>)
    requires Reads(es, data)
    ensures |Concat(es)| + BLOCK <= |data| && data[|Concat(es)|..|Concat(es)| + BLOCK] == Zeros(BLOCK)
  {
    EndIsZeros(data, |Concat(es)|);
  }

  lemma NotAtEnd(data: bytes, es: seq<Entry>, i: nat)
    requires Reads(es, data) && i < |es|
    ensures |Concat(es[..i])| + BLOCK <= |data|
    ensures data[|Concat(es[..i])|..|Concat(es[..i])| + BLOCK] != Zeros(BLOCK)
  {
    NextIs(data, es, i);
    ValidAt(es, i);
  }

  /** An archive reads in one way only. */
  lemma ArchiveUnambiguous(data: bytes, es: seq<Entry>, fs: seq<Entry>)
    requires Archive(es, data) && Archive(fs, data)
    ensures es == fs
  {
    hide Reads, Limits;
    ReadsUnambiguous(data, es, fs, 0);
  }

  /** Every entry starts on a block boundary. */
  lemma Aligned(es: seq<Entry>)
    requires EntriesValid(es)
    ensures |Concat(es)| % BLOCK == 0
  {
    forall i | 0 <= i < |es| ensures Shaped(es[i]) {
      ShapeAt(es, i);
    }
    AlignedShapes(es);
  }

  lemma {:induction false} AlignedShapes(es: seq<Entry>)
    requires forall i | 0 <= i < |es| :: Shaped(es[i])
    ensures |Concat(es)| % BLOCK == 0
  {
    if es != [] {
      var n := |es| - 1;
      AlignedShapes(es[..n]);
      assert Shaped(es[n]);
      AlignedStep(|Concat(es[..n])|, |es[n].payload|);
    }
  }

  lemma AlignedStep(position: nat, size: nat)
    requires position % BLOCK == 0
    ensures (position + (BLOCK + size + Padding(size))) % BLOCK == 0
  {
    var blocks := position / BLOCK + 1 - (0 - size) / BLOCK;
    assert position + (BLOCK + size + Padding(size)) == BLOCK * blocks;
  }
}
