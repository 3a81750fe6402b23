/** What a tar writer produces: headers with checksums, long names, PAX headers and
    members, and that the preflight accepts exactly what stays within the limits. */
module ArchiveWriter {
  import opened Options
  import opened Bytes
  import opened TarHeader
  import opened TarGrammar
  import Pax
  import Preflight

  /** The octets of a header that the writer is free to choose. */
  datatype Header = Header(front: bytes, mtime: bytes, rest: bytes)

  /** A member with what may precede it: a GNU long name and local PAX records. stored is
      what its size field says; binary asks for the base-256 form. */
  datatype Member = Member(
    header: Header, kind: byte, payload: bytes, stored: nat, binary: bool,
    longName: Option<bytes>, records: Option<seq<Pax.Record>>)

  /** What is written, piece by piece: a g header for everything that follows, or a member. */
  datatype Item = Globals(header: Header, records: seq<Pax.Record>) | File(member: Member)

  predicate Framed(h: Header) { |h.front| == 124 && |h.mtime| == 12 && |h.rest| == 355 }

  /** Records that fit one extension body. */
  ghost predicate Printable(rs: seq<Pax.Record>) {
    Pax.Records(rs) && |Pax.Concat(rs)| <= EXTENSION_MAX
  }

  /** A name as GNU tar stores it: UTF-8, not empty, and not ended by a NUL of its own. */
  predicate NameValid(name: bytes) {
    name != [] && name[|name| - 1] != 0 && Utf8(name) && |name| < EXTENSION_MAX
  }

  /** The value of the size record, if there is one. */
  function SizeIn(rs: seq<Pax.Record>): Option<bytes> {
    if rs == [] then None
    else if rs[|rs| - 1].key == Ascii("size") then Some(rs[|rs| - 1].value)
    else SizeIn(rs[..|rs| - 1])
  }

  /** The size record of the last g header that has one. */
  function LatestSize(items: seq<Item>): Option<bytes> {
    if items == [] then None
    else
      var last := items[|items| - 1];
      if last.Globals? && SizeIn(last.records).Some? then SizeIn(last.records)
      else LatestSize(items[..|items| - 1])
  }

  function OwnSize(m: Member): Option<bytes> { if m.records.Some? then SizeIn(m.records.value) else None }

  /** A size record is right: the payload's length in decimal. */
  predicate RecordRight(m: Member, text: bytes) { text == Pax.Decimal(|m.payload|) && !m.binary }

  /** The member's own size record is right if it has one, whatever the g headers say; else that
      of the last g header that has one; else the size field. */
  predicate SizeTold(m: Member, before: seq<Item>) {
    match OwnSize(m)
    case Some(text) => RecordRight(m, text)
    case None =>
      match LatestSize(before)
      case Some(text) => RecordRight(m, text)
      case None => m.stored == |m.payload|
  }

  ghost predicate Storable(m: Member) {
    && Framed(m.header) && !IsExtension(m.kind) && m.kind != KIND_SPARSE && |m.payload| <= ARCHIVE_MAX
    && m.stored < Pow(8, 11)
    && (m.longName.Some? ==> NameValid(m.longName.value))
    && (m.records.Some? ==> Printable(m.records.value))
  }

  ghost predicate Writable(item: Item) {
    match item
    case Globals(h, rs) => Framed(h) && Printable(rs)
    case File(m) => Storable(m)
  }

  ghost predicate Specified(item: Item, before: seq<Item>) {
    Writable(item) && (item.File? ==> SizeTold(item.member, before))
  }

  lemma SizesFit(n: nat)
    requires n <= ARCHIVE_MAX
    ensures n < Pow(8, 11) && n < Pow(256, 11)
  {
    Preflight.PowGrows();
  }

  function Block(h: Header, kind: byte, stored: nat, binary: bool, payload: bytes): Entry
    requires Framed(h) && stored < Pow(8, 11) && stored < Pow(256, 11)
  {
    var field := if binary then Base256Field(stored, 11) else OctalField(stored, 11, [0]);
    Entry(WriteHeader(h.front, field, h.mtime, kind, h.rest), payload, Zeros(Padding(|payload|)))
  }

  function Extension(h: Header, kind: byte, payload: bytes): Entry
    requires Framed(h) && |payload| <= EXTENSION_MAX
  {
    SizesFit(|payload|);
    Block(h, kind, |payload|, false, payload)
  }

  lemma PowOrder()
    ensures Pow(8, 11) < Pow(256, 11)
  {
    assert Pow(8, 4) == 4096;
    assert Pow(8, 11) == 8589934592;
    Preflight.PowGrows();
    assert Pow(256, 4) == 4294967296;
    assert Pow(256, 5) == 1099511627776;
    PowMonotone(256, 5, 11);
  }

  lemma {:induction false} PowMonotone(base: nat, a: nat, b: nat)
    requires base >= 1 && a <= b
    ensures Pow(base, a) <= Pow(base, b)
    decreases b
  {
    if a < b {
      PowMonotone(base, a, b - 1);
      PowPositive(base, b - 1);
    }
  }

  lemma {:induction false} PowPositive(base: nat, n: nat)
    requires base >= 1
    ensures Pow(base, n) >= 1 && base * Pow(base, n) >= Pow(base, n)
  {
    if n > 0 { PowPositive(base, n - 1); }
  }

  ghost function LongNameEntries(m: Member): seq<Entry>
    requires Storable(m)
  {
    if m.longName.Some? then [Extension(m.header, KIND_LONG_NAME, m.longName.value + [0])] else []
  }

  ghost function PaxEntries(m: Member): seq<Entry>
    requires Storable(m)
  {
    if m.records.Some? then [Extension(m.header, KIND_X, Pax.Concat(m.records.value))] else []
  }

  ghost function MemberEntry(m: Member): Entry
    requires Storable(m)
  {
    PowOrder();
    Block(m.header, m.kind, m.stored, m.binary, m.payload)
  }

  ghost function ItemEntries(item: Item): seq<Entry>
    requires Writable(item)
  {
    match item
    case Globals(h, rs) => [Extension(h, KIND_G, Pax.Concat(rs))]
    case File(m) => LongNameEntries(m) + PaxEntries(m) + [MemberEntry(m)]
  }

  /** The global records in force behind the items: a later value replaces an earlier one. */
  ghost function GlobalsAfter(items: seq<Item>): Pax.Values {
    if items == [] then map[]
    else
      var last := items[|items| - 1];
      GlobalsAfter(items[..|items| - 1]) + if last.Globals? then Pax.MapOf(last.records) else map[]
  }

  /** Every item fits what has been written before it. */
  ghost predicate AllSpecified(items: seq<Item>) {
    items == []
    || (AllSpecified(items[..|items| - 1]) && Specified(items[|items| - 1], items[..|items| - 1]))
  }

  ghost function Entries(items: seq<Item>): seq<Entry>
    requires AllSpecified(items)
  {
    if items == [] then []
    else
      var front := items[..|items| - 1];
      Entries(front) + ItemEntries(items[|items| - 1])
  }

  /** The whole archive: entries, two zero blocks, and more zeros as padding. */
  ghost function WriteArchive(items: seq<Item>, padding: nat): bytes
    requires AllSpecified(items)
  {
    Concat(Entries(items)) + Zeros(2 * BLOCK + padding)
  }

  // ---- One entry ----

  lemma ExtensionHeader(before: seq<Entry>, h: Header, kind: byte, payload: bytes)
    requires Framed(h) && |payload| <= EXTENSION_MAX && IsExtension(kind)
    ensures var e := Extension(h, kind, payload);
      && HeaderValid(e.header) && Kind(e.header) == kind && e.payload == payload && |e.header| == BLOCK
      && PayloadSize(before, e.header) == Some(|payload|) && |e.padding| == Padding(|payload|)
  {
    SizesFit(|payload|);
    OctalRoundTrip(|payload|, 11, [0]);
    WrittenHeaderAccepted(h.front, OctalField(|payload|, 11, [0]), h.mtime, kind, h.rest);
  }

  /** What makes a written extension a valid entry. */
  lemma ExtensionIsValid(before: seq<Entry>, h: Header, kind: byte, payload: bytes)
    requires Framed(h) && IsExtension(kind) && ExtensionValid(kind, payload)
    ensures EntryValid(before, Extension(h, kind, payload)) && KindOf(Extension(h, kind, payload)) == kind
    ensures Extension(h, kind, payload).payload == payload
  {
    ExtensionHeader(before, h, kind, payload);
    hide HeaderValid, PayloadSize, Extension, ExtensionValid, Padding, IsExtension;
    assert KindOf(Extension(h, kind, payload)) == Kind(Extension(h, kind, payload).header);
  }

  /** A written PAX header is a valid entry anywhere, and puts exactly its records in
      force: local ones for the next member, global ones for the rest. */
  lemma PaxEntryInForce(before: seq<Entry>, h: Header, kind: byte, rs: seq<Pax.Record>)
    requires Framed(h) && Printable(rs) && IsPax(kind)
    ensures var e := Extension(h, kind, Pax.Concat(rs));
      && EntryValid(before, e) && RecordsIn(e) == |rs| && KindOf(e) == kind
      && LocalPax(before + [e]) == LocalPax(before) + (if IsLocalPax(kind) then Pax.MapOf(rs) else map[])
      && GlobalPax(before + [e]) == GlobalPax(before) + (if kind == KIND_G then Pax.MapOf(rs) else map[])
  {
    hide EntryValid, Extension, Pax.Parse, Pax.Records, Pax.Concat, Pax.MapOf, LocalPax, GlobalPax, Utf8, LongName;
    var e := Extension(h, kind, Pax.Concat(rs));
    Pax.PaxRoundTrip(rs);
    ExtensionIsValid(before, h, kind, Pax.Concat(rs));
    SnocPax(before, e);
    assert PaxMap(e) == Pax.MapOf(rs);
    assert LocalPax(before) + map[] == LocalPax(before) && GlobalPax(before) + map[] == GlobalPax(before);
  }

  lemma {:induction false} NulStripped(name: bytes)
    requires name != [] && name[|name| - 1] != 0
    ensures LongName(name + [0]) == name
  {
    StripTrailer(name, [0], {0});
  }

  /** A written long name is a valid entry and names the next member. */
  lemma LongNameInForce(before: seq<Entry>, h: Header, name: bytes)
    requires Framed(h) && NameValid(name)
    ensures var e := Extension(h, KIND_LONG_NAME, name + [0]);
      && EntryValid(before, e) && RecordsIn(e) == 0 && KindOf(e) == KIND_LONG_NAME
      && LocalPax(before + [e]) == LocalPax(before)[PATH_KEY := name]
      && GlobalPax(before + [e]) == GlobalPax(before)
  {
    hide EntryValid, Extension, LongName, LocalPax, GlobalPax, Utf8;
    var e := Extension(h, KIND_LONG_NAME, name + [0]);
    NulStripped(name);
    ExtensionIsValid(before, h, KIND_LONG_NAME, name + [0]);
    SnocPax(before, e);
    assert GlobalPax(before) + map[] == GlobalPax(before);
  }

  /** The size field is right, unless a PAX record is in force; then that one is. */
  predicate InForce(m: Member, override: Option<bytes>) {
    match override
    case None => m.stored == |m.payload|
    case Some(text) => RecordRight(m, text)
  }

  /** A written member is a valid entry once its size is told, by its field or by the
      override in force, local or global, and it ends the local values. */
  lemma MemberInForce(before: seq<Entry>, m: Member)
    requires Storable(m) && InForce(m, Preflight.OverrideIn(before))
    ensures var e := MemberEntry(m);
      EntryValid(before, e) && LocalPax(before + [e]) == map[] && GlobalPax(before + [e]) == GlobalPax(before)
  {
    hide *;
    var e := MemberEntry(m);
    MemberValid(before, m);
    MemberKind(m);
    SnocPax(before, e);
    assert GlobalPax(before) + map[] == GlobalPax(before);
  }

  lemma MemberValid(before: seq<Entry>, m: Member)
    requires Storable(m) && InForce(m, Preflight.OverrideIn(before))
    ensures EntryValid(before, MemberEntry(m))
  {
    hide EntryValid, WriteHeader, OctalField, Base256Field, Padding, Zeros, LocalPax, GlobalPax, Pow, Printable,
      NameValid, Pax.MapOf, Pax.Decimal, IsExtension, Preflight.OverrideIn;
    PowOrder();
    if Preflight.OverrideIn(before).Some? {
      Preflight.OverriddenMemberValid(before, m.header.front, m.header.mtime, m.kind, m.header.rest, m.payload,
                                      m.stored);
    } else {
      Preflight.WrittenMemberValid(before, m.header.front, m.header.mtime, m.kind, m.header.rest, m.payload,
                                   m.binary);
    }
  }

  lemma MemberKind(m: Member)
    requires Storable(m)
    ensures KindOf(MemberEntry(m)) == m.kind && !IsExtension(m.kind)
    ensures !IsLocalPax(m.kind) && m.kind != KIND_LONG_NAME && m.kind != KIND_G
  {
    PowOrder();
    var field := if m.binary then Base256Field(m.stored, 11) else OctalField(m.stored, 11, [0]);
    WrittenHeaderAccepted(m.header.front, field, m.header.mtime, m.kind, m.header.rest);
  }

  // ---- The whole archive ----

  /** Between two items no local value is left, and exactly these global ones are in force. */
  ghost predicate Between(es: seq<Entry>, globals: Pax.Values) {
    EntriesValid(es) && LocalPax(es) == map[] && GlobalPax(es) == globals
  }

  lemma LongNameStep(before: seq<Entry>, globals: Pax.Values, m: Member)
    requires Between(before, globals) && Storable(m)
    ensures var now := before + LongNameEntries(m);
      && EntriesValid(now) && GlobalPax(now) == globals && SIZE_KEY !in LocalPax(now)
  {
    if m.longName.Some? {
      var e := Extension(m.header, KIND_LONG_NAME, m.longName.value + [0]);
      LongNameInForce(before, m.header, m.longName.value);
      hide EntriesValid, EntryValid, LocalPax, GlobalPax, Extension;
      ValidSnoc(before, e);
      assert PATH_KEY[0] != SIZE_KEY[0];
    } else {
      assert before + [] == before;
    }
  }

  function InMap(m: Pax.Values): Option<bytes> { if SIZE_KEY in m then Some(m[SIZE_KEY]) else None }

  /** What the parser takes for the size is the own record, else the global one. */
  lemma OwnFirst(local: Pax.Values, own: Pax.Values, globals: Pax.Values)
    requires SIZE_KEY !in local
    ensures SizeOverride(local + own, globals) == if InMap(own).Some? then InMap(own) else InMap(globals)
    ensures SizeOverride(local, globals) == InMap(globals)
  {
  }

  lemma SizeSpelled()
    ensures SIZE_KEY == Ascii("size")
  {
  }

  lemma {:induction false} SizeInMap(rs: seq<Pax.Record>)
    ensures SizeIn(rs) == InMap(Pax.MapOf(rs))
  {
    SizeSpelled();
    if rs != [] { SizeInMap(rs[..|rs| - 1]); }
  }

  lemma {:induction false} LatestInForce(items: seq<Item>)
    ensures LatestSize(items) == InMap(GlobalsAfter(items))
  {
    if items != [] {
      var last := items[|items| - 1];
      LatestInForce(items[..|items| - 1]);
      if last.Globals? { SizeInMap(last.records); }
    }
  }

  lemma OwnPax(before: seq<Entry>, m: Member)
    requires Storable(m) && m.records.Some?
    ensures Framed(m.header) && |Pax.Concat(m.records.value)| <= EXTENSION_MAX
    ensures var e, own := Extension(m.header, KIND_X, Pax.Concat(m.records.value)), Pax.MapOf(m.records.value);
      && PaxEntries(m) == [e] && EntryValid(before, e)
      && LocalPax(before + [e]) == LocalPax(before) + own && GlobalPax(before + [e]) == GlobalPax(before)
  {
    hide EntryValid, LocalPax, GlobalPax, Extension, Pax.MapOf, Pax.Concat, Pax.Records, NameValid;
    PaxEntryInForce(before, m.header, KIND_X, m.records.value);
    assert GlobalPax(before) + map[] == GlobalPax(before);
  }

  lemma PaxStep(before: seq<Entry>, globals: Pax.Values, m: Member)
    requires EntriesValid(before) && GlobalPax(before) == globals && SIZE_KEY !in LocalPax(before) && Storable(m)
    ensures var now := before + PaxEntries(m);
      && EntriesValid(now) && GlobalPax(now) == globals
      && Preflight.OverrideIn(now) == if OwnSize(m).Some? then OwnSize(m) else InMap(globals)
  {
    if m.records.Some? {
      hide PaxEntries, EntriesValid, EntryValid, LocalPax, GlobalPax, Extension, Pax.MapOf, Pax.Concat, Storable,
        SizeOverride;
      OwnPax(before, m);
      ValidSnoc(before, Extension(m.header, KIND_X, Pax.Concat(m.records.value)));
      SizeInMap(m.records.value);
      OwnFirst(LocalPax(before), Pax.MapOf(m.records.value), globals);
    } else {
      OwnFirst(LocalPax(before), map[], globals);
      assert before + PaxEntries(m) == before;
    }
  }

  lemma MemberStep(before: seq<Entry>, globals: Pax.Values, m: Member)
    requires Between(before, globals) && Storable(m)
    requires InForce(m, if OwnSize(m).Some? then OwnSize(m) else InMap(globals))
    ensures Between(before + LongNameEntries(m) + PaxEntries(m) + [MemberEntry(m)], globals)
  {
    LongNameStep(before, globals, m);
    var named := before + LongNameEntries(m);
    PaxStep(named, globals, m);
    var told := named + PaxEntries(m);
    MemberInForce(told, m);
    hide EntriesValid, EntryValid, LocalPax, GlobalPax, LongNameEntries, PaxEntries, MemberEntry;
    ValidSnoc(told, MemberEntry(m));
  }

  lemma GlobalStep(before: seq<Entry>, globals: Pax.Values, h: Header, rs: seq<Pax.Record>)
    requires Between(before, globals) && Framed(h) && Printable(rs)
    ensures Between(before + [Extension(h, KIND_G, Pax.Concat(rs))], globals + Pax.MapOf(rs))
  {
    var e := Extension(h, KIND_G, Pax.Concat(rs));
    PaxEntryInForce(before, h, KIND_G, rs);
    hide EntriesValid, EntryValid, LocalPax, GlobalPax, Extension, Pax.MapOf, Pax.Concat, Printable;
    ValidSnoc(before, e);
    assert LocalPax(before) + map[] == LocalPax(before);
  }

  lemma ItemStep(before: seq<Entry>, items: seq<Item>, item: Item)
    requires Between(before, GlobalsAfter(items)) && Specified(item, items)
    ensures Between(before + ItemEntries(item),
                    GlobalsAfter(items) + if item.Globals? then Pax.MapOf(item.records) else map[])
  {
    LatestInForce(items);
    hide Between, Storable, Printable, Pax.MapOf, LongNameEntries, PaxEntries, MemberEntry, Extension, GlobalsAfter,
      LatestSize, SizeIn, RecordRight;
    var globals := GlobalsAfter(items);
    match item
    case Globals(h, rs) => GlobalStep(before, globals, h, rs);
    case File(m) =>
      MemberStep(before, globals, m);
      var named, own := LongNameEntries(m), PaxEntries(m);
      assert before + (named + own + [MemberEntry(m)]) == before + named + own + [MemberEntry(m)];
      assert globals + map[] == globals;
  }

  /** Everything the writer writes is a valid list of entries, with exactly the global records
      in force that have been written. */
  lemma {:induction false} EntriesWritten(items: seq<Item>)
    requires AllSpecified(items)
    ensures EntriesValid(Entries(items)) && LocalPax(Entries(items)) == map[]
    ensures GlobalPax(Entries(items)) == GlobalsAfter(items)
    decreases |items|
  {
    hide Specified, ItemEntries;
    if items != [] {
      var front, last := items[..|items| - 1], items[|items| - 1];
      EntriesWritten(front);
      ItemStep(Entries(front), front, last);
    }
  }

  lemma EndWritten(es: seq<Entry>, padding: nat)
    requires EntriesValid(es) && padding <= TRAILING_MAX
    ensures Reads(es, Concat(es) + Zeros(2 * BLOCK + padding))
  {
    var tail := Zeros(2 * BLOCK + padding);
    hide EntriesValid, Concat;
    assert (Concat(es) + tail)[|Concat(es)|..] == tail;
  }

  /** A written archive is accepted if and only if its entries respect the limits: the
      preflight refuses nothing else that the writer can produce. */
  lemma WrittenArchiveAccepted(items: seq<Item>, padding: nat)
    requires AllSpecified(items) && padding <= TRAILING_MAX
    ensures (exists es :: Archive(es, WriteArchive(items, padding))) <==> Limits(Entries(items))
  {
    var data, written := WriteArchive(items, padding), Entries(items);
    EntriesWritten(items);
    EndWritten(written, padding);
    hide EntriesValid, Concat, EndMarker, Limits, Entries, WriteArchive, AllSpecified;
    if es :| Archive(es, data) {
      ReadsUnambiguous(data, es, written, 0);
    }
    if Limits(written) {
      assert Archive(written, data);
    }
  }

  // ---- Which limits a writer can meet ----

  lemma CountOne(es: seq<Entry>, e: Entry)
    ensures NoLongRun(es + [e]) <==> NoLongRun(es) && Preflight.Trailing(es + [e]) <= CONSECUTIVE_EXTENSION_MAX
    ensures Preflight.Trailing(es + [e]) == if IsExtension(KindOf(e)) then Preflight.Trailing(es) + 1 else 0
    ensures Members(es + [e]) == Members(es) + if IsExtension(KindOf(e)) then 0 else 1
    ensures GlobalRecords(es + [e]) == GlobalRecords(es) + if KindOf(e) == KIND_G then RecordsIn(e) else 0
  {
    Snoc(es, e);
    assert (es + [e])[..|es|] == es;
    hide NoLongRun;
    if NoLongRun(es) {
      Preflight.RunCounter(es, e);
    } else if NoLongRun(es + [e]) {
      NoLongRunBefore(es, e);
    }
  }

  lemma NoLongRunBefore(es: seq<Entry>, e: Entry)
    requires NoLongRun(es + [e])
    ensures NoLongRun(es)
  {
    forall i | 0 <= i < |es| - CONSECUTIVE_EXTENSION_MAX ensures MemberWithin(es, i) {
      assert MemberWithin(es + [e], i);
      var j :| i <= j <= i + CONSECUTIVE_EXTENSION_MAX && !IsExtension(KindOf((es + [e])[j]));
      assert es[j] == (es + [e])[j];
    }
  }

  /** How many extensions precede the member itself. */
  function OwnExtensions(m: Member): nat {
    (if m.longName.Some? then 1 else 0) + if m.records.Some? then 1 else 0
  }

  /** One more extension or none, in front of a member. */
  ghost predicate Grown(es: seq<Entry>, more: seq<Entry>, n: nat) {
    && Preflight.Trailing(more) == Preflight.Trailing(es) + n
    && Members(more) == Members(es) && GlobalRecords(more) == GlobalRecords(es)
    && (NoLongRun(more) <==> NoLongRun(es) && (n > 0 ==> Preflight.Trailing(more) <= CONSECUTIVE_EXTENSION_MAX))
  }

  lemma LongNameCounts(es: seq<Entry>, m: Member)
    requires Storable(m)
    ensures Grown(es, es + LongNameEntries(m), if m.longName.Some? then 1 else 0)
  {
    if m.longName.Some? {
      var e := Extension(m.header, KIND_LONG_NAME, m.longName.value + [0]);
      LongNameInForce(es, m.header, m.longName.value);
      hide NoLongRun, Preflight.Trailing, Members, GlobalRecords, EntryValid, LocalPax, GlobalPax, Extension;
      CountOne(es, e);
    } else {
      assert es + LongNameEntries(m) == es;
    }
  }

  lemma PaxCounts(es: seq<Entry>, m: Member)
    requires Storable(m)
    ensures Grown(es, es + PaxEntries(m), if m.records.Some? then 1 else 0)
  {
    if m.records.Some? {
      var e := Extension(m.header, KIND_X, Pax.Concat(m.records.value));
      PaxEntryInForce(es, m.header, KIND_X, m.records.value);
      hide NoLongRun, Preflight.Trailing, Members, GlobalRecords, EntryValid, LocalPax, GlobalPax, Extension;
      CountOne(es, e);
    } else {
      assert es + PaxEntries(m) == es;
    }
  }

  lemma MemberCounts(es: seq<Entry>, m: Member)
    requires Storable(m)
    ensures var more := es + LongNameEntries(m) + PaxEntries(m) + [MemberEntry(m)];
      && Preflight.Trailing(more) == 0 && Members(more) == Members(es) + 1
      && GlobalRecords(more) == GlobalRecords(es)
      && (Preflight.Trailing(es) <= CONSECUTIVE_EXTENSION_MAX ==>
            (NoLongRun(more) <==>
               NoLongRun(es) && Preflight.Trailing(es) + OwnExtensions(m) <= CONSECUTIVE_EXTENSION_MAX))
      && (NoLongRun(more) ==> NoLongRun(es))
  {
    hide NoLongRun, Preflight.Trailing, Members, GlobalRecords, Storable, LongNameEntries, PaxEntries, MemberEntry;
    LongNameCounts(es, m);
    var named := es + LongNameEntries(m);
    PaxCounts(named, m);
    MemberKind(m);
    CountOne(named + PaxEntries(m), MemberEntry(m));
  }

  /** g headers at the end of the list. */
  function TrailingGlobals(items: seq<Item>): nat {
    if items == [] || items[|items| - 1].File? then 0 else 1 + TrailingGlobals(items[..|items| - 1])
  }

  function Files(items: seq<Item>): nat {
    if items == [] then 0 else Files(items[..|items| - 1]) + if items[|items| - 1].File? then 1 else 0
  }

  function GlobalCount(items: seq<Item>): nat {
    if items == [] then 0
    else
      var last := items[|items| - 1];
      GlobalCount(items[..|items| - 1]) + if last.Globals? then |last.records| else 0
  }

  /** No member, and not the end either, has more than four extensions right before it. */
  predicate RunsShort(items: seq<Item>) {
    items == []
    || var front, last := items[..|items| - 1], items[|items| - 1];
       && RunsShort(front)
       && TrailingGlobals(front) + (if last.File? then OwnExtensions(last.member) else 1) <= CONSECUTIVE_EXTENSION_MAX
  }

  lemma ItemCounts(es: seq<Entry>, item: Item)
    requires Writable(item)
    ensures var more := es + ItemEntries(item);
      && Preflight.Trailing(more) == (if item.File? then 0 else Preflight.Trailing(es) + 1)
      && Members(more) == Members(es) + (if item.File? then 1 else 0)
      && GlobalRecords(more) == GlobalRecords(es) + (if item.Globals? then |item.records| else 0)
      && (NoLongRun(more) ==> NoLongRun(es))
      && (Preflight.Trailing(es) <= CONSECUTIVE_EXTENSION_MAX ==>
            (NoLongRun(more) <==>
               && NoLongRun(es)
               && Preflight.Trailing(es) + (if item.File? then OwnExtensions(item.member) else 1)
                  <= CONSECUTIVE_EXTENSION_MAX))
  {
    hide NoLongRun, Preflight.Trailing, Members, GlobalRecords, LongNameEntries, PaxEntries, MemberEntry,
      EntryValid, LocalPax, GlobalPax, Storable, Extension, RecordsIn;
    match item
    case Globals(h, rs) =>
      PaxEntryInForce(es, h, KIND_G, rs);
      CountOne(es, Extension(h, KIND_G, Pax.Concat(rs)));
    case File(m) =>
      MemberCounts(es, m);
      var named, own := LongNameEntries(m), PaxEntries(m);
      assert es + (named + own + [MemberEntry(m)]) == es + named + own + [MemberEntry(m)];
  }

  lemma WrittenSnoc(items: seq<Item>)
    requires AllSpecified(items) && items != []
    ensures var front, last := items[..|items| - 1], items[|items| - 1];
      && AllSpecified(front) && Writable(last)
      && Entries(items) == Entries(front) + ItemEntries(last)
  {
  }

  lemma NothingWritten()
    ensures AllSpecified([]) && Entries([]) == [] && NoLongRun([])
    ensures Members([]) == GlobalRecords([]) == Preflight.Trailing([]) == 0
  {
  }

  /** The limits on runs, members and global records hold of what is written if and only if
      they hold of what was asked for. */
  lemma {:induction false} WrittenCounts(items: seq<Item>)
    requires AllSpecified(items)
    ensures var es := Entries(items);
      && Members(es) == Files(items) && GlobalRecords(es) == GlobalCount(items)
      && Preflight.Trailing(es) == TrailingGlobals(items) && (NoLongRun(es) <==> RunsShort(items))
    decreases |items|
  {
    hide AllSpecified, Writable, Entries, ItemEntries, NoLongRun, Members, GlobalRecords, Preflight.Trailing;
    NothingWritten();
    if items != [] {
      WrittenSnoc(items);
      var front, last := items[..|items| - 1], items[|items| - 1];
      WrittenCounts(front);
      if RunsShort(front) { RunsEnd(front); }
      ItemCounts(Entries(front), last);
    }
  }

  lemma RunsEnd(items: seq<Item>)
    requires RunsShort(items)
    ensures TrailingGlobals(items) <= CONSECUTIVE_EXTENSION_MAX
  {
  }

  /** Writing, then the preflight: accepted exactly within the cap and the six limits on
      members, extensions, runs of them, their octets, records and global records. */
  method WriteThenPreflight(ghost items: seq<Item>, ghost padding: nat, data: bytes) returns (ok: bool)
    requires AllSpecified(items) && padding <= TRAILING_MAX && data == WriteArchive(items, padding)
    ensures var es := Entries(items);
      ok <==> && |data| <= ARCHIVE_MAX && Files(items) <= MEMBER_MAX && RunsShort(items)
              && Extensions(es) <= EXTENSION_COUNT_MAX && ExtensionBytes(es) <= EXTENSIONS_TOTAL_MAX
              && Records(es) <= PAX_RECORD_MAX && GlobalCount(items) <= PAX_GLOBAL_RECORD_MAX
  {
    hide AllSpecified, WriteArchive, Entries, NoLongRun, Archive;
    ok := Preflight.PreflightArchive(data);
    WrittenArchiveAccepted(items, padding);
    WrittenCounts(items);
  }
}
