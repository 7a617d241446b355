/** Correctness of the adapter: the adapted binary, read again, holds every table of the
    original in its padded form. */
module AdapterProofs {
  import opened Wrappers
  import opened Uleb128
  import opened Mutator
  import opened Adapter
  import opened TablePadding
  import opened PoolPadding

  // ----- One table -----

  // The contents that a table has to have after the adaptation.
  ghost function PadTable(fmt: Format, kind: byte, b: seq<byte>): seq<byte> {
    if kind == fmt.addressKind then (if |b| % LIBRA_ADDR_LEN == 0 then PadAddresses(b) else b)
    else if kind == fmt.poolKind then
      match ParsePool(fmt, b)
      case None => b
      case Some(es) => Bytes(PadAll(es))
    else b
  }

  ghost function GrowthOf(fmt: Format, kind: byte, b: seq<byte>): nat {
    if kind == fmt.addressKind then
      (if |b| % LIBRA_ADDR_LEN == 0 then |b| / LIBRA_ADDR_LEN * (DFIN_ADDR_LEN - LIBRA_ADDR_LEN) else 0)
    else if kind == fmt.poolKind then
      match ParsePool(fmt, b)
      case None => 0
      case Some(es) => 4 * Addresses(es)
    else 0
  }

  /** A constant pool holds whole constants, and growing its address sizes by four keeps
      the total length of the size fields. Other tables may hold anything. */
  ghost predicate TableOk(fmt: Format, kind: byte, b: seq<byte>) {
    kind != fmt.addressKind && kind == fmt.poolKind ==>
      ParsePool(fmt, b).Some? && TotalDrift(ParsePool(fmt, b).value) == 0
  }

  lemma TablePatch(fmt: Format, s: seq<byte>, kind: byte, offset: nat, len: nat, base: nat)
    requires TokenIsLocal(fmt) && base + offset + len <= |s| < U32_LIMIT
    requires TableOk(fmt, kind, s[base + offset..][..len])
    requires GrowthOf(fmt, kind, s[base + offset..][..len]) < U32_LIMIT
    ensures var at, b, t := base + offset, s[base + offset..][..len], EditsOf(fmt, s, kind, offset, len, base);
            t.Some? && t.value.growth == GrowthOf(fmt, kind, b)
            && Within(t.value.edits, at, at + len)
            && Patch(s, t.value.edits, at, at + len) == PadTable(fmt, kind, b)
            && |PadTable(fmt, kind, b)| == len + t.value.growth
  {
    hide ReadPool, ReadConstant, PoolGrowth, PoolEdits, AddressEdits, PadAddresses, Bytes, PadAll, ParsePool;
    var at, b := base + offset, s[base + offset..][..len];
    assert b == s[at..at + len];
    if kind == fmt.addressKind && |b| % LIBRA_ADDR_LEN == 0 {
      AddressPatch(s, at, len);
      PaddedLength(b);
    } else if kind == fmt.poolKind && kind != fmt.addressKind {
      var es := ParsePool(fmt, b).value;
      ParseIsExact(fmt, b);
      PoolIsScanned(fmt, s, at, es);
      PoolPatch(s, at, es);
      PaddedPoolLength(es);
    } else {
      assert Within([], at, at + len);
    }
  }

  // ----- Well-formed binaries -----

  ghost function Content(s: seq<byte>, base: nat, e: Entry): seq<byte>
    requires base + e.offset + e.len <= |s|
  {
    s[base + e.offset..][..e.len]
  }

  /** The tables lie in header order, disjoint, between `lo` and the end of the binary, and
      each is a proper table of its kind. */
  ghost predicate LaidOut(fmt: Format, s: seq<byte>, es: seq<Entry>, base: nat, lo: nat)
    decreases |es|
  {
    es == [] ||
    (lo <= base + es[0].offset && base + es[0].offset + es[0].len <= |s|
     && TableOk(fmt, es[0].kind, Content(s, base, es[0]))
     && LaidOut(fmt, s, es[1..], base, base + es[0].offset + es[0].len))
  }

  ghost function GrowthAt(fmt: Format, s: seq<byte>, base: nat, e: Entry): nat {
    if base + e.offset + e.len <= |s| then GrowthOf(fmt, e.kind, Content(s, base, e)) else 0
  }

  ghost function TotalGrowth(fmt: Format, s: seq<byte>, es: seq<Entry>, base: nat): nat {
    if es == [] then 0 else GrowthAt(fmt, s, base, es[0]) + TotalGrowth(fmt, s, es[1..], base)
  }

  /** The binaries that the adapter is for; `start` is the end of the preamble. */
  ghost predicate WellFormed(fmt: Format, s: seq<byte>, start: nat) {
    TokenIsLocal(fmt) && ReadHeader(s, start).Some? &&
    var h := ReadHeader(s, start).value;
    LaidOut(fmt, s, h.entries, h.base, h.base)
    && |s| + TotalGrowth(fmt, s, h.entries, h.base) < U32_LIMIT
  }

  /** The tables lie one behind the other from `lo` on, inside of the binary. */
  ghost predicate InOrder(ts: seq<(byte, nat, nat)>, base: nat, lo: nat, end: nat) {
    (forall i :: 0 <= i < |ts| ==> lo <= base + ts[i].1 && base + ts[i].1 + ts[i].2 <= end)
    && forall i, j :: 0 <= i < j < |ts| ==> ts[i].1 + ts[i].2 <= ts[j].1
  }

  /** A pool of constants that the adapter reads, with addresses of at most 123 bytes whose
      size field is a single byte. */
  ghost predicate PlainPool(fmt: Format, b: seq<byte>) {
    exists es: seq<PoolEntry> ::
      AllReadable(fmt, es) && Bytes(es) == b
      && forall i :: 0 <= i < |es| && es[i].isAddress ==> |es[i].field| == 1 && |es[i].data| <= 123
  }

  lemma PlainPoolIsOk(fmt: Format, kind: byte, b: seq<byte>)
    requires TokenIsLocal(fmt) && (kind == fmt.poolKind ==> PlainPool(fmt, b))
    ensures TableOk(fmt, kind, b) && GrowthOf(fmt, kind, b) <= 2 * |b|
  {
    hide AllReadable, Bytes, Addresses, TotalDrift, ParsePool, TokenIsLocal;
    if kind == fmt.poolKind {
      var es: seq<PoolEntry> :| AllReadable(fmt, es) && Bytes(es) == b
        && forall i :: 0 <= i < |es| && es[i].isAddress ==> |es[i].field| == 1 && |es[i].data| <= 123;
      PrintIsParsed(fmt, es);
      ShortSizesDoNotDrift(es);
      FewAddresses(fmt, es);
    }
  }

  lemma {:induction false} FewAddresses(fmt: Format, es: seq<PoolEntry>)
    requires AllReadable(fmt, es)
    ensures 2 * Addresses(es) <= |Bytes(es)|
  {
    if es != [] {
      ReadableIsRead(fmt, es[0]);
      FewAddresses(fmt, es[1..]);
    }
  }

  lemma {:induction false} OrderIsLaidOut(fmt: Format, s: seq<byte>, es: seq<Entry>, base: nat, lo: nat, ts: seq<(byte, nat, nat)>)
    requires TokenIsLocal(fmt) && NamesTables(es, ts) && InOrder(ts, base, lo, |s|) && lo <= |s|
    requires forall i :: 0 <= i < |ts| && ts[i].0 == fmt.poolKind ==> PlainPool(fmt, s[base + ts[i].1..][..ts[i].2])
    ensures LaidOut(fmt, s, es, base, lo) && TotalGrowth(fmt, s, es, base) <= 2 * (|s| - lo)
    decreases |es|
  {
    hide TokenIsLocal, TableOk, GrowthOf, PlainPool;
    if es != [] {
      assert (es[0].kind, es[0].offset, es[0].len) == ts[0];
      PlainPoolIsOk(fmt, es[0].kind, Content(s, base, es[0]));
      var next := base + es[0].offset + es[0].len;
      assert forall i :: 0 <= i < |ts| - 1 ==> ts[1..][i] == ts[i + 1] && es[1..][i] == es[i + 1];
      OrderIsLaidOut(fmt, s, es[1..], base, next, ts[1..]);
    }
  }

  /** A binary whose header was written, whose tables lie in order, and whose pools are plain
      is well-formed, if it is not too long. */
  lemma PrintedIsWellFormed(fmt: Format, s: seq<byte>, start: nat, ts: seq<(byte, nat, nat)>)
    requires TokenIsLocal(fmt) && start <= |s| && Encode(|ts|) + PrintedEntries(ts) <= s[start..]
    requires |ts| < 0x1_0000_0000 && 3 * |s| < U32_LIMIT
    requires var base := start + |Encode(|ts|)| + |PrintedEntries(ts)|;
             InOrder(ts, base, base, |s|)
             && forall i :: 0 <= i < |ts| && ts[i].0 == fmt.poolKind ==> PlainPool(fmt, s[base + ts[i].1..][..ts[i].2])
    ensures WellFormed(fmt, s, start)
  {
    hide ReadHeader, Encode, PrintedEntries, LaidOut, TotalGrowth, PlainPool, TokenIsLocal, NamesTables;
    PrintedHeaderIsRead(s, start, ts);
    var h := ReadHeader(s, start).value;
    OrderIsLaidOut(fmt, s, h.entries, h.base, h.base, ts);
  }

  // ----- The recorded edits, header and body apart -----

  ghost function HeaderEdits(fmt: Format, s: seq<byte>, es: seq<Entry>, base: nat, extra: nat): seq<Diff> {
    if es == [] then []
    else
      var g := GrowthAt(fmt, s, base, es[0]);
      OffsetEdit(es[0], extra) + LenEdit(es[0], g) + HeaderEdits(fmt, s, es[1..], base, extra + g)
  }

  ghost function BodyEdits(fmt: Format, s: seq<byte>, es: seq<Entry>, base: nat): seq<Diff> {
    if es == [] then []
    else
      var t := EditsOf(fmt, s, es[0].kind, es[0].offset, es[0].len, base);
      (if t.Some? then t.value.edits else []) + BodyEdits(fmt, s, es[1..], base)
  }

  ghost predicate AllBelow(ds: seq<Diff>, at: nat) {
    forall i :: 0 <= i < |ds| ==> ds[i].start < at
  }

  ghost predicate AllFrom(ds: seq<Diff>, at: nat) {
    forall i :: 0 <= i < |ds| ==> at <= ds[i].start
  }

  lemma NothingFrom(at: nat)
    ensures AllFrom([], at) && SortByStart([]) == []
  {
  }

  lemma NothingBelow(at: nat)
    ensures AllBelow([], at)
  {
  }

  lemma AllBelowConcat(a: seq<Diff>, b: seq<Diff>, at: nat, at': nat, bound: nat)
    requires AllBelow(a, at) && AllBelow(b, at') && at <= bound && at' <= bound
    ensures AllBelow(a + b, bound)
  {
  }

  lemma {:induction false} InsertBetween(d: Diff, low: seq<Diff>, high: seq<Diff>)
    requires AllBelow(low, d.start) && AllFrom(high, d.start)
    ensures InsertByStart(d, low + high) == low + [d] + high
  {
    if low == [] {
      assert low + high == high && low + [d] + high == [d] + high;
    } else {
      InsertBetween(d, low[1..], high);
      assert (low + high)[1..] == low[1..] + high;
      assert low + [d] + high == [low[0]] + (low[1..] + [d] + high);
    }
  }

  lemma {:induction false} SortCons(d: Diff, ds: seq<Diff>)
    ensures SortByStart([d] + ds) == InsertByStart(d, SortByStart(ds))
  {
  }

  /** An ordered run of edits in front of a sorted list ends up between the edits before it
      and those after it. */
  lemma {:induction false} SortRun(run: seq<Diff>, rest: seq<Diff>, low: seq<Diff>, high: seq<Diff>, lo: nat, hi: nat)
    requires SortByStart(rest) == low + high
    requires Within(run, lo, hi) && AllBelow(low, lo) && AllFrom(high, hi)
    ensures SortByStart(run + rest) == low + (run + high)
    decreases |run|
  {
    hide InsertByStart, SortByStart;
    if run == [] {
      assert run + rest == rest && run + high == high;
    } else {
      var d, more := run[0], run[1..];
      SortRun(more, rest, low, high, d.end, hi);
      AllFromRun(more, high, d.end, hi, d.start);
      InsertBetween(d, low, more + high);
      SortCons(d, more + rest);
      assert [d] + (more + rest) == run + rest;
      assert low + [d] + (more + high) == low + (run + high);
    }
  }

  lemma {:induction false} AllFromRun(run: seq<Diff>, high: seq<Diff>, lo: nat, hi: nat, at: nat)
    requires Within(run, lo, hi) && AllFrom(high, hi) && at <= lo
    ensures AllFrom(run + high, at)
  {
    WithinEnds(run, lo, hi);
  }

  /** The edits inside the header of `es`, whose first entry stands at `at`. */
  lemma {:induction false} HeaderEditsWithin(fmt: Format, s: seq<byte>, es: seq<Entry>, base: nat, at: nat, extra: nat)
    requires Chained(s, at, es) && at <= |s|
    ensures at <= ChainEnd(es, at) <= |s|
    ensures Within(HeaderEdits(fmt, s, es, base, extra), at, ChainEnd(es, at))
    ensures AllBelow(HeaderEdits(fmt, s, es, base, extra), ChainEnd(es, at))
    ensures AllFrom(HeaderEdits(fmt, s, es, base, extra), at)
    decreases |es|
  {
    hide ReadEntry, EditsOf, GrowthAt, OffsetEdit, LenEdit, Within, Patch, AllBelow, AllFrom;
    if es == [] {
      NothingWithin(at);
    } else {
      var e, g := es[0], GrowthAt(fmt, s, base, es[0]);
      HeaderEditsWithin(fmt, s, es[1..], base, e.end, extra + g);
      var own, rest := OffsetEdit(e, extra) + LenEdit(e, g), HeaderEdits(fmt, s, es[1..], base, extra + g);
      EntryPatch(s, e, extra, g);
      AllBelowConcat(own, rest, e.end, ChainEnd(es, at), ChainEnd(es, at));
      PatchConcat(s, own, rest, at, e.end, ChainEnd(es, at));
      WithinIsFrom(own + rest, at, ChainEnd(es, at));
    }
  }

  lemma NothingWithin(at: nat)
    ensures Within([], at, at) && AllBelow([], at) && AllFrom([], at)
  {
  }

  lemma WithinIsFrom(ds: seq<Diff>, lo: nat, hi: nat)
    requires Within(ds, lo, hi)
    ensures AllFrom(ds, lo)
  {
    WithinEnds(ds, lo, hi);
  }

  ghost function ChainEnd(es: seq<Entry>, at: nat): nat {
    if es == [] then at else ChainEnd(es[1..], es[0].end)
  }

  ghost function Field(s: seq<byte>, lo: nat, hi: nat, value: nat, changed: bool): seq<byte>
    requires lo <= hi <= |s|
  {
    if changed then Encode(value) else s[lo..hi]
  }

  lemma {:induction false} NothingPatched(s: seq<byte>, lo: nat, hi: nat)
    requires lo <= hi <= |s|
    ensures Within([], lo, hi) && Patch(s, [], lo, hi) == s[lo..hi]
  {
  }

  lemma {:induction false} OffsetPatch(s: seq<byte>, e: Entry, extra: nat)
    requires e.at + 1 < e.lenAt < e.end <= |s|
    ensures Within(OffsetEdit(e, extra), e.at, e.lenAt) && AllBelow(OffsetEdit(e, extra), e.lenAt)
    ensures Patch(s, OffsetEdit(e, extra), e.at, e.lenAt) ==
            s[e.at..e.at + 1] + Field(s, e.at + 1, e.lenAt, e.offset + extra, extra > 0)
  {
  }

  lemma {:induction false} LenPatch(s: seq<byte>, e: Entry, growth: nat)
    requires e.at + 1 < e.lenAt < e.end <= |s|
    ensures Within(LenEdit(e, growth), e.lenAt, e.end) && AllBelow(LenEdit(e, growth), e.end)
    ensures Patch(s, LenEdit(e, growth), e.lenAt, e.end) == Field(s, e.lenAt, e.end, e.len + growth, growth > 0)
  {
  }

  /** The new bytes of a header entry: its kind, and its two fields, rewritten when their
      values change. */
  lemma {:induction false} EntryPatch(s: seq<byte>, e: Entry, extra: nat, growth: nat)
    requires e.at + 1 < e.lenAt < e.end <= |s|
    ensures var own := OffsetEdit(e, extra) + LenEdit(e, growth);
            Within(own, e.at, e.end) && AllBelow(own, e.end)
            && Patch(s, own, e.at, e.end) == NewEntryBytes(s, e, extra, growth)
  {
    hide OffsetEdit, LenEdit, Patch, Within, AllBelow;
    OffsetPatch(s, e, extra);
    LenPatch(s, e, growth);
    PatchConcat(s, OffsetEdit(e, extra), LenEdit(e, growth), e.at, e.lenAt, e.end);
    AllBelowConcat(OffsetEdit(e, extra), LenEdit(e, growth), e.lenAt, e.end, e.end);
  }

  ghost function NewEntryBytes(s: seq<byte>, e: Entry, extra: nat, growth: nat): seq<byte>
    requires e.at + 1 < e.lenAt < e.end <= |s|
  {
    s[e.at..e.at + 1] + Field(s, e.at + 1, e.lenAt, e.offset + extra, extra > 0)
    + Field(s, e.lenAt, e.end, e.len + growth, growth > 0)
  }

  // ----- The header, read again -----

  /** The entries read from the new header name the same kinds in the same order; each
      offset has moved by the growth before it and each length by its own growth. */
  ghost predicate Rewritten(fmt: Format, s: seq<byte>, es: seq<Entry>, base: nat, extra: nat, es': seq<Entry>)
    decreases |es|
  {
    if es == [] then es' == []
    else
      var g := GrowthAt(fmt, s, base, es[0]);
      es' != [] && es'[0].kind == es[0].kind
      && es'[0].offset == es[0].offset + extra && es'[0].len == es[0].len + g
      && Rewritten(fmt, s, es[1..], base, extra + g, es'[1..])
  }

  // A field is read back from its new bytes, whatever follows.
  lemma FieldIsRead(s: seq<byte>, lo: nat, hi: nat, old': nat, value: nat, changed: bool, rest: seq<byte>)
    requires lo <= hi <= |s| && Read(s[lo..]).Some? && hi == lo + Read(s[lo..]).value.used
    requires old' == Read(s[lo..]).value.value % U32_LIMIT && value < U32_LIMIT
    requires !changed ==> value == old'
    ensures var f := Field(s, lo, hi, value, changed);
            var r := Read(f + rest);
            |f| > 0 && r.Some? && r.value.used == |f| && r.value.value % U32_LIMIT == value
  {
    if changed {
      ReadBack(value, rest);
    } else {
      ReadIsLocal(s[lo..], rest);
      assert s[lo..][..hi - lo] == s[lo..hi];
    }
  }

  lemma EntryFromFields(out: seq<byte>, pos: nat, kind: byte, f: seq<byte>, g: seq<byte>, rest: seq<byte>)
    requires pos <= |out| && out[pos..] == [kind] + f + g + rest && |f| > 0 && |g| > 0
    requires Read(f + (g + rest)).Some? && Read(f + (g + rest)).value.used == |f|
    requires Read(g + rest).Some? && Read(g + rest).value.used == |g|
    ensures var e' := ReadEntry(out, pos);
            e'.Some? && e'.value.kind == kind && e'.value.end == pos + 1 + |f| + |g|
            && e'.value.offset == Read(f + (g + rest)).value.value % U32_LIMIT
            && e'.value.len == Read(g + rest).value.value % U32_LIMIT
  {
    hide Read;
    assert out[pos] == out[pos..][0] == kind;
    assert Tail(out, pos + 1) == out[pos..][1..] == f + (g + rest);
    assert Tail(out, pos + 1 + |f|) == out[pos..][1 + |f|..] == g + rest;
  }

  /** A header as it is written: for each table its kind, its offset and its length. */
  ghost function PrintedEntries(ts: seq<(byte, nat, nat)>): seq<byte> {
    if ts == [] then [] else [ts[0].0] + Encode(ts[0].1) + Encode(ts[0].2) + PrintedEntries(ts[1..])
  }

  ghost predicate NamesTables(es: seq<Entry>, ts: seq<(byte, nat, nat)>) {
    |es| == |ts| && forall i :: 0 <= i < |ts| ==> (es[i].kind, es[i].offset, es[i].len) == ts[i]
  }

  lemma {:induction false} PrintedEntriesAreRead(s: seq<byte>, pos: nat, ts: seq<(byte, nat, nat)>)
    requires pos <= |s| && PrintedEntries(ts) <= s[pos..]
    requires forall i :: 0 <= i < |ts| ==> ts[i].1 < 0x1_0000_0000 && ts[i].2 < 0x1_0000_0000
    ensures var es := ReadEntries(s, pos, |ts|);
            es.Some? && NamesTables(es.value, ts) && ChainEnd(es.value, pos) == pos + |PrintedEntries(ts)|
    decreases |ts|
  {
    hide Read, Encode, ReadEntry;
    if ts != [] {
      var f, g, more := Encode(ts[0].1), Encode(ts[0].2), PrintedEntries(ts[1..]);
      var rest := s[pos..][|PrintedEntries(ts)| - |more|..];
      assert s[pos..] == [ts[0].0] + f + g + rest;
      ReadBack(ts[0].1, g + rest);
      ReadBack(ts[0].2, rest);
      EntryFromFields(s, pos, ts[0].0, f, g, rest);
      var next := pos + 1 + |f| + |g|;
      assert s[next..] == rest && more <= rest;
      PrintedEntriesAreRead(s, next, ts[1..]);
      var es := ReadEntries(s, next, |ts| - 1).value;
      assert ([ReadEntry(s, pos).value] + es)[1..] == es;
    }
  }

  lemma CountIsRead(s: seq<byte>, start: nat, count: nat, more: seq<byte>)
    requires start <= |s| && Encode(count) + more <= s[start..] && count < U64_LIMIT
    ensures Read(Tail(s, start)) == Some(Uleb(count, |Encode(count)|))
    ensures start + |Encode(count)| <= |s| && more <= s[start + |Encode(count)|..]
  {
    hide Read, Encode;
    var n := Encode(count);
    var rest := s[start..][|n|..];
    ReadBack(count, rest);
    assert s[start..] == n + rest && rest == s[start + |n|..];
  }

  /** A header that was written is read back: the number of tables, then each kind, offset and
      length in turn, and the tables count from behind it. */
  lemma PrintedHeaderIsRead(s: seq<byte>, start: nat, ts: seq<(byte, nat, nat)>)
    requires start <= |s| && Encode(|ts|) + PrintedEntries(ts) <= s[start..] && |ts| < U64_LIMIT
    requires forall i :: 0 <= i < |ts| ==> ts[i].1 < 0x1_0000_0000 && ts[i].2 < 0x1_0000_0000
    ensures var h := ReadHeader(s, start);
            h.Some? && NamesTables(h.value.entries, ts) && h.value.first == start + |Encode(|ts|)|
            && h.value.base == start + |Encode(|ts|)| + |PrintedEntries(ts)|
  {
    hide Read, Encode, ReadEntries, PrintedEntries, ReadHeader, NamesTables, ChainEnd, EntriesEnd;
    var n := Encode(|ts|);
    CountIsRead(s, start, |ts|, PrintedEntries(ts));
    PrintedEntriesAreRead(s, start + |n|, ts);
    HeaderParts(s, start);
    EndOfChain(ReadEntries(s, start + |n|, |ts|).value, start + |n|);
  }

  lemma NewEntryIsRead(s: seq<byte>, e: Entry, extra: nat, growth: nat, out: seq<byte>, pos: nat)
    requires e.at <= |s| && ReadEntry(s, e.at) == Some(e)
    requires e.offset + extra < U32_LIMIT && e.len + growth < U32_LIMIT
    requires pos <= |out| && NewEntryBytes(s, e, extra, growth) <= out[pos..]
    ensures var e' := ReadEntry(out, pos);
            e'.Some? && e'.value.kind == e.kind
            && e'.value.offset == e.offset + extra && e'.value.len == e.len + growth
            && e'.value.end == pos + |NewEntryBytes(s, e, extra, growth)|
  {
    hide Read, ReadEntry, Field;
    EntryShape(s, e);
    var f := Field(s, e.at + 1, e.lenAt, e.offset + extra, extra > 0);
    var g := Field(s, e.lenAt, e.end, e.len + growth, growth > 0);
    var rest := out[pos..][|NewEntryBytes(s, e, extra, growth)|..];
    assert out[pos..] == NewEntryBytes(s, e, extra, growth) + rest;
    OneByte(s, e.at);
    FieldIsRead(s, e.at + 1, e.lenAt, e.offset, e.offset + extra, extra > 0, g + rest);
    FieldIsRead(s, e.lenAt, e.end, e.len, e.len + growth, growth > 0, rest);
    EntryFromFields(out, pos, e.kind, f, g, rest);
  }

  lemma OneByte(s: seq<byte>, at: nat)
    requires at < |s|
    ensures s[at..at + 1] == [s[at]]
  {
  }

  lemma EntryShape(s: seq<byte>, e: Entry)
    requires e.at <= |s| && ReadEntry(s, e.at) == Some(e)
    ensures e.at + 1 < e.lenAt < e.end <= |s| && s[e.at] == e.kind
    ensures Read(s[e.at + 1..]).Some? && e.lenAt == e.at + 1 + Read(s[e.at + 1..]).value.used
            && e.offset == Read(s[e.at + 1..]).value.value % U32_LIMIT
    ensures Read(s[e.lenAt..]).Some? && e.end == e.lenAt + Read(s[e.lenAt..]).value.used
            && e.len == Read(s[e.lenAt..]).value.value % U32_LIMIT
  {
    hide Read;
  }

  // The patched header starts with the new bytes of the first entry.
  lemma HeaderStart(fmt: Format, s: seq<byte>, es: seq<Entry>, base: nat, at: nat, extra: nat)
    requires es != [] && Chained(s, at, es) && at <= |s|
    ensures var e, end, more := es[0], ChainEnd(es, at),
                                HeaderEdits(fmt, s, es[1..], base, extra + GrowthAt(fmt, s, base, es[0]));
            at <= e.end <= end <= |s| && e.at + 1 < e.lenAt < e.end && Within(more, e.end, end)
            && end == ChainEnd(es[1..], e.end)
            && Within(HeaderEdits(fmt, s, es, base, extra), at, end)
            && Patch(s, HeaderEdits(fmt, s, es, base, extra), at, end) ==
               NewEntryBytes(s, e, extra, GrowthAt(fmt, s, base, e)) + Patch(s, more, e.end, end)
  {
    hide ReadEntry, EditsOf, OffsetEdit, LenEdit, GrowthAt, NewEntryBytes, Within, Patch;
    var e, g, end := es[0], GrowthAt(fmt, s, base, es[0]), ChainEnd(es, at);
    HeaderEditsWithin(fmt, s, es[1..], base, e.end, extra + g);
    EntryPatch(s, e, extra, g);
    PatchConcat(s, OffsetEdit(e, extra) + LenEdit(e, g), HeaderEdits(fmt, s, es[1..], base, extra + g), at, e.end, end);
  }

  lemma NoHeader(fmt: Format, s: seq<byte>, base: nat, at: nat, extra: nat)
    requires at <= |s|
    ensures Within(HeaderEdits(fmt, s, [], base, extra), at, at) && Patch(s, HeaderEdits(fmt, s, [], base, extra), at, at) == []
  {
  }

  /** Reading the patched header, wherever it stands, gives the rewritten entries. */
  lemma {:induction false} HeaderIsRead(fmt: Format, s: seq<byte>, es: seq<Entry>, base: nat, at: nat, extra: nat,
                                        out: seq<byte>, pos: nat)
    requires Chained(s, at, es) && at <= |s| && Fits(fmt, s, es, base, extra)
    requires Within(HeaderEdits(fmt, s, es, base, extra), at, ChainEnd(es, at)) && ChainEnd(es, at) <= |s|
    requires pos <= |out| && Patch(s, HeaderEdits(fmt, s, es, base, extra), at, ChainEnd(es, at)) <= out[pos..]
    ensures var es' := ReadEntries(out, pos, |es|);
            es'.Some? && Rewritten(fmt, s, es, base, extra, es'.value)
            && ChainEnd(es'.value, pos) == pos + |Patch(s, HeaderEdits(fmt, s, es, base, extra), at, ChainEnd(es, at))|
    decreases |es|
  {
    hide ReadEntry, EditsOf, GrowthAt, NewEntryBytes, Within, Patch, HeaderEdits;
    if es == [] {
      NoHeader(fmt, s, base, at, extra);
    } else {
      var e, rest, g, end := es[0], es[1..], GrowthAt(fmt, s, base, es[0]), ChainEnd(es, at);
      HeaderStart(fmt, s, es, base, at, extra);
      var b, m := NewEntryBytes(s, e, extra, g), Patch(s, HeaderEdits(fmt, s, rest, base, extra + g), e.end, end);
      assert b <= out[pos..];
      NewEntryIsRead(s, e, extra, g, out, pos);
      assert m <= out[pos + |b|..];
      HeaderIsRead(fmt, s, rest, base, e.end, extra + g, out, pos + |b|);
      var e', tail := ReadEntry(out, pos).value, ReadEntries(out, pos + |b|, |rest|).value;
      assert ([e'] + tail)[1..] == tail;
    }
  }

  // All new offsets and lengths fit 32 bits.
  ghost predicate Fits(fmt: Format, s: seq<byte>, es: seq<Entry>, base: nat, extra: nat)
    decreases |es|
  {
    es == [] ||
    var g := GrowthAt(fmt, s, base, es[0]);
    es[0].offset + extra < U32_LIMIT && es[0].len + g < U32_LIMIT && extra + g < U32_LIMIT
    && Fits(fmt, s, es[1..], base, extra + g)
  }

  lemma {:induction false} SumsFit(fmt: Format, s: seq<byte>, es: seq<Entry>, base: nat, lo: nat, extra: nat)
    requires LaidOut(fmt, s, es, base, lo) && |s| + extra + TotalGrowth(fmt, s, es, base) < U32_LIMIT
    ensures Fits(fmt, s, es, base, extra)
    decreases |es|
  {
    hide GrowthAt, TableOk;
    if es != [] {
      SumsFit(fmt, s, es[1..], base, base + es[0].offset + es[0].len, extra + GrowthAt(fmt, s, base, es[0]));
    }
  }

  // ----- The body, read again -----

  /** In the new body every table stands at its new offset with its padded contents. */
  ghost predicate TablesAt(fmt: Format, s: seq<byte>, es: seq<Entry>, base: nat, extra: nat, body: seq<byte>)
    decreases |es|
  {
    es == [] ||
    (base + es[0].offset + es[0].len <= |s| &&
     var g := GrowthAt(fmt, s, base, es[0]);
     es[0].offset + extra + es[0].len + g <= |body|
     && body[es[0].offset + extra..][..es[0].len + g] == PadTable(fmt, es[0].kind, Content(s, base, es[0]))
     && TablesAt(fmt, s, es[1..], base, extra + g, body))
  }

  lemma TableInside(pre: seq<byte>, gap: seq<byte>, table: seq<byte>, tail: seq<byte>)
    ensures pre + (gap + table + tail) == pre + gap + table + tail
    ensures (pre + gap + table + tail)[|pre| + |gap|..][..|table|] == table
  {
  }

  /** The body is patched table by table. `pre` is the new body before `lo`. */
  lemma {:induction false} BodyIsPadded(fmt: Format, s: seq<byte>, es: seq<Entry>, base: nat, lo: nat, extra: nat, pre: seq<byte>)
    requires TokenIsLocal(fmt) && |s| < U32_LIMIT && base <= lo <= |s| && |pre| == lo - base + extra
    requires LaidOut(fmt, s, es, base, lo) && Fits(fmt, s, es, base, extra)
    ensures Within(BodyEdits(fmt, s, es, base), lo, |s|)
    ensures var body := pre + Patch(s, BodyEdits(fmt, s, es, base), lo, |s|);
            TablesAt(fmt, s, es, base, extra, body)
            && |body| == |s| - base + extra + TotalGrowth(fmt, s, es, base)
    decreases |es|
  {
    hide EditsOf, PadTable, TableOk, GrowthOf, Patch, Within, LaidOut, Fits, GrowthAt, BodyEdits, TokenIsLocal, Content;
    if es != [] {
      var e, rest, at := es[0], es[1..], base + es[0].offset;
      var end, g, edits := at + e.len, GrowthAt(fmt, s, base, e), BodyEdits(fmt, s, rest, base);
      var own := BodyHead(fmt, s, es, base, lo, extra);
      var padded := PadTable(fmt, e.kind, Content(s, base, e));
      BodyIsPadded(fmt, s, rest, base, end, extra + g, pre + s[lo..at] + padded);
      GapBefore(s, own, lo, at, end);
      PatchConcat(s, own, edits, lo, end, |s|);
      TableInside(pre, s[lo..at], padded, Patch(s, edits, end, |s|));
    } else {
      NoBodyEdits(fmt, s, base);
      NothingPatched(s, lo, |s|);
    }
  }

  lemma NoBodyEdits(fmt: Format, s: seq<byte>, base: nat)
    ensures BodyEdits(fmt, s, [], base) == []
  {
  }

  lemma NextTable(fmt: Format, s: seq<byte>, es: seq<Entry>, base: nat, lo: nat, extra: nat)
    requires es != [] && LaidOut(fmt, s, es, base, lo) && Fits(fmt, s, es, base, extra)
    ensures var end := base + es[0].offset + es[0].len;
            lo <= base + es[0].offset && end <= |s| && LaidOut(fmt, s, es[1..], base, end)
            && Fits(fmt, s, es[1..], base, extra + GrowthAt(fmt, s, base, es[0]))
  {
    hide TableOk, GrowthAt;
  }

  /** The first table of a body: its own edits pad it. */
  lemma BodyHead(fmt: Format, s: seq<byte>, es: seq<Entry>, base: nat, lo: nat, extra: nat)
    returns (own: seq<Diff>)
    requires TokenIsLocal(fmt) && |s| < U32_LIMIT && base <= lo <= |s| && es != []
    requires LaidOut(fmt, s, es, base, lo) && Fits(fmt, s, es, base, extra)
    ensures var e, g, at := es[0], GrowthAt(fmt, s, base, es[0]), base + es[0].offset;
            && lo <= at <= at + e.len <= |s| && LaidOut(fmt, s, es[1..], base, at + e.len) && Fits(fmt, s, es[1..], base, extra + g)
            && Within(own, at, at + e.len) && Patch(s, own, at, at + e.len) == PadTable(fmt, e.kind, Content(s, base, e))
            && |PadTable(fmt, e.kind, Content(s, base, e))| == e.len + g
            && BodyEdits(fmt, s, es, base) == own + BodyEdits(fmt, s, es[1..], base)
  {
    hide EditsOf, PadTable, TableOk, GrowthOf, Patch, Within;
    var e := es[0];
    TablePatch(fmt, s, e.kind, e.offset, e.len, base);
    own := EditsOf(fmt, s, e.kind, e.offset, e.len, base).value.edits;
  }

  lemma EntryAdvances(s: seq<byte>, at: nat)
    ensures var e := ReadEntry(s, at); e.Some? ==> at == e.value.at && at + 1 < e.value.lenAt < e.value.end <= |s|
  {
  }

  // One round of the scan over the entries succeeds.
  lemma {:induction false} StepSucceeds(fmt: Format, s: seq<byte>, es: seq<Entry>, base: nat, lo: nat, extra: nat)
    requires TokenIsLocal(fmt) && |s| < U32_LIMIT && es != []
    requires LaidOut(fmt, s, es, base, lo) && Fits(fmt, s, es, base, extra)
    ensures var e, g := es[0], GrowthAt(fmt, s, base, es[0]);
            var t := EditsOf(fmt, s, e.kind, e.offset, e.len, base);
            t.Some? && Within(t.value.edits, base + e.offset, base + e.offset + e.len)
            && EntryStep(fmt, s, e, base, extra) == Some(TableEdits(OffsetEdit(e, extra) + t.value.edits + LenEdit(e, g), g))
  {
    hide TableOk, GrowthOf, PadTable;
    TablePatch(fmt, s, es[0].kind, es[0].offset, es[0].len, base);
  }

  lemma {:induction false} ScanIsSorted(fmt: Format, s: seq<byte>, es: seq<Entry>, base: nat, at: nat, lo: nat, extra: nat)
    requires TokenIsLocal(fmt) && |s| < U32_LIMIT && at <= base <= lo <= |s|
    requires Chained(s, at, es) && ChainEnd(es, at) == base
    requires LaidOut(fmt, s, es, base, lo) && Fits(fmt, s, es, base, extra)
    ensures var ds := EntryEdits(fmt, s, es, base, extra);
            ds.Some? && SortByStart(ds.value) == HeaderEdits(fmt, s, es, base, extra) + BodyEdits(fmt, s, es, base)
    ensures AllFrom(BodyEdits(fmt, s, es, base), lo)
    decreases |es|
  {
    hide TokenIsLocal, EntryStep, ReadEntry, SortByStart, AllFrom, AllBelow, Within, EditsOf, OffsetEdit, LenEdit, TableOk,
         GrowthAt, LaidOut, Fits;
    if es != [] {
      NextTable(fmt, s, es, base, lo, extra);
      var e, rest, from := es[0], es[1..], base + es[0].offset;
      var g, end := GrowthAt(fmt, s, base, e), from + e.len;
      EntryAdvances(s, at);
      HeaderEditsWithin(fmt, s, rest, base, e.end, extra + g);
      StepSucceeds(fmt, s, es, base, lo, extra);
      ScanIsSorted(fmt, s, rest, base, e.end, end, extra + g);
      var t := EditsOf(fmt, s, e.kind, e.offset, e.len, base).value;
      var header, body := HeaderEdits(fmt, s, rest, base, extra + g), BodyEdits(fmt, s, rest, base);
      var more := EntryEdits(fmt, s, rest, base, extra + g).value;
      SortEntry(s, e, extra, g, t.edits, more, header, body, from, end, base);
      AllFromRun(t.edits, body, from, end, lo);
    } else {
      NothingFrom(lo);
    }
  }

  // Sorting the edits of one entry in front of the sorted edits of the entries after it.
  lemma {:induction false} SortEntry(s: seq<byte>, e: Entry, extra: nat, growth: nat, table: seq<Diff>, more: seq<Diff>,
                                     header: seq<Diff>, body: seq<Diff>, from: nat, end: nat, base: nat)
    requires e.at + 1 < e.lenAt < e.end <= |s| && e.end <= base <= from <= end
    requires SortByStart(more) == header + body && AllFrom(body, end)
    requires AllBelow(header, base) && AllFrom(header, e.end) && Within(table, from, end)
    ensures SortByStart(OffsetEdit(e, extra) + table + LenEdit(e, growth) + more) ==
            OffsetEdit(e, extra) + LenEdit(e, growth) + header + (table + body)
  {
    hide *;
    var f, g := OffsetEdit(e, extra), LenEdit(e, growth);
    NothingBelow(e.at);
    NothingBelow(e.lenAt);
    OffsetPatch(s, e, extra);
    LenPatch(s, e, growth);
    AllFromRun(table, body, from, end, e.end);
    AllFromConcat(header, body, e.end, end);
    SortRun(g, more, [], header + body, e.lenAt, e.end);
    Regroup(g, header, body);
    AllBelowConcat(g, header, e.end, base, from);
    SortRun(table, g + more, g + header, body, from, end);
    AllFromRun(g, header, e.lenAt, e.end, e.lenAt);
    AllFromRun(table, body, from, end, e.lenAt);
    AllFromConcat(g + header, table + body, e.lenAt, e.lenAt);
    Regroup([], g + header, table + body);
    SortRun(f, table + (g + more), [], (g + header) + (table + body), e.at, e.lenAt);
    assert f + (table + (g + more)) == f + table + g + more;
    Regroup(f, g + header, table + body);
    assert f + (g + header) == f + g + header;
  }

  lemma Regroup(a: seq<Diff>, b: seq<Diff>, c: seq<Diff>)
    ensures [] + (a + (b + c)) == (a + b) + c
  {
  }

  lemma AllFromConcat(a: seq<Diff>, b: seq<Diff>, at: nat, at': nat)
    requires AllFrom(a, at) && AllFrom(b, at') && at <= at'
    ensures AllFrom(a + b, at)
  {
  }

  // ----- The whole binary -----

  /** `out` is `s` with every table padded: its preamble and table count are those of `s`,
      its header names the same kinds in the same order, and each new offset and length
      delimits exactly the padded contents of the original table. Nothing else is added. */
  ghost predicate Adapted(fmt: Format, s: seq<byte>, start: nat, out: seq<byte>) {
    ReadHeader(s, start).Some? && ReadHeader(out, start).Some? &&
    var h, h' := ReadHeader(s, start).value, ReadHeader(out, start).value;
    h'.first == h.first <= |s| && h.first <= |out| && out[..h.first] == s[..h.first]
    && h.base <= |s| && h'.base <= |out|
    && |out| - h'.base == |s| - h.base + TotalGrowth(fmt, s, h.entries, h.base)
    && Rewritten(fmt, s, h.entries, h.base, 0, h'.entries)
    && TablesAt(fmt, s, h.entries, h.base, 0, out[h'.base..])
  }

  lemma {:induction false} EndOfChain(es: seq<Entry>, at: nat)
    ensures ChainEnd(es, at) == EntriesEnd(es, at)
  {
    if es != [] {
      EndOfChain(es[1..], es[0].end);
    }
  }

  lemma {:induction false} HeaderShape(s: seq<byte>, start: nat)
    requires ReadHeader(s, start).Some?
    ensures var h := ReadHeader(s, start).value;
            start < h.first <= h.base <= |s| && Chained(s, h.first, h.entries) && ChainEnd(h.entries, h.first) == h.base
            && Read(s[start..]).Some? && h.first == start + Read(s[start..]).value.used
            && |h.entries| == Read(s[start..]).value.value
  {
    hide Read, ReadEntry;
    var h := ReadHeader(s, start).value;
    EntriesAreChained(s, h.first, |h.entries|);
    EndOfChain(h.entries, h.first);
    ChainAdvances(s, h.first, h.entries);
  }

  lemma {:induction false} ChainAdvances(s: seq<byte>, at: nat, es: seq<Entry>)
    requires Chained(s, at, es) && at <= |s|
    ensures at <= ChainEnd(es, at) <= |s|
    decreases |es|
  {
    hide ReadEntry;
    if es != [] {
      EntryAdvances(s, at);
      ChainAdvances(s, es[0].end, es[1..]);
    }
  }

  lemma CountFound(s: seq<byte>, start: nat, out: seq<byte>, first: nat)
    requires start <= first <= |s| && first <= |out| && out[..first] == s[..first]
    requires Read(s[start..]).Some? && first == start + Read(s[start..]).value.used
    ensures Read(Tail(out, start)) == Read(Tail(s, start))
  {
    ReadIsLocal(s[start..], out[first..]);
    hide Read;
    assert s[start..][..first - start] == s[..first][start..] == out[..first][start..] == out[start..first];
    assert Tail(out, start) == out[start..first] + out[first..];
  }

  /** The header of the output is read where the header of the input was. */
  lemma {:induction false} HeaderFound(s: seq<byte>, start: nat, out: seq<byte>, es': seq<Entry>)
    requires ReadHeader(s, start).Some?
    requires var h := ReadHeader(s, start).value;
             h.first <= |s| && h.first <= |out| && out[..h.first] == s[..h.first]
             && ReadEntries(out, h.first, |h.entries|) == Some(es')
    ensures var first := ReadHeader(s, start).value.first;
            ReadHeader(out, start) == Some(Header(es', first, ChainEnd(es', first)))
  {
    hide Read, ReadEntries, Chained;
    var h := ReadHeader(s, start).value;
    HeaderShape(s, start);
    EndOfChain(es', h.first);
    CountFound(s, start, out, h.first);
  }

  /** What the adapted binary holds, table by table. A table of 16-byte addresses has each of
      them with four zero bytes in front. A pool of constants that the loader reads holds
      constants that it reads alike, but for four zero bytes in front of each address. Every
      other table is as it was. */
  lemma AdaptedTable(fmt: Format, s: seq<byte>, start: nat, out: seq<byte>, k: nat)
    requires TokenIsLocal(fmt) && Adapted(fmt, s, start, out)
    requires k < |ReadHeader(s, start).value.entries|
    ensures var h, h' := ReadHeader(s, start).value, ReadHeader(out, start).value;
            |h'.entries| == |h.entries| && h'.entries[k].kind == h.entries[k].kind
            && h.base + h.entries[k].offset + h.entries[k].len <= |s|
            && h'.base + h'.entries[k].offset + h'.entries[k].len <= |out|
    ensures var h, h' := ReadHeader(s, start).value, ReadHeader(out, start).value;
            HoldsPadded(fmt, h.entries[k].kind, Content(s, h.base, h.entries[k]), Content(out, h'.base, h'.entries[k]))
  {
    hide ReadHeader, HoldsPadded, TotalGrowth, PadTable, GrowthOf, TokenIsLocal;
    var h, h' := ReadHeader(s, start).value, ReadHeader(out, start).value;
    var body := out[h'.base..];
    var b := TableFound(fmt, s, h.entries, h'.entries, h.base, 0, body, k);
    TableIsPadded(fmt, h.entries[k].kind, b);
    var e := h'.entries[k];
    assert out[h'.base + e.offset..] == body[e.offset..];
  }

  /** All tables of the binary are in the output, in the same order, padded. */
  ghost predicate AllPadded(fmt: Format, s: seq<byte>, start: nat, out: seq<byte>) {
    ReadHeader(s, start).Some? && ReadHeader(out, start).Some? &&
    var h, h' := ReadHeader(s, start).value, ReadHeader(out, start).value;
    |h'.entries| == |h.entries|
    && forall k :: 0 <= k < |h.entries| ==>
         h'.entries[k].kind == h.entries[k].kind
         && h.base + h.entries[k].offset + h.entries[k].len <= |s|
         && h'.base + h'.entries[k].offset + h'.entries[k].len <= |out|
         && HoldsPadded(fmt, h.entries[k].kind, Content(s, h.base, h.entries[k]), Content(out, h'.base, h'.entries[k]))
  }

  lemma AdaptedIsPadded(fmt: Format, s: seq<byte>, start: nat, out: seq<byte>)
    requires WellFormed(fmt, s, start) && Adapted(fmt, s, start, out)
    ensures AllPadded(fmt, s, start, out)
  {
    hide HoldsPadded, LaidOut, TotalGrowth, TablesAt;
    var h, h' := ReadHeader(s, start).value, ReadHeader(out, start).value;
    RewrittenLength(fmt, s, h.entries, h.base, 0, h'.entries);
    hide ReadHeader, Rewritten, TokenIsLocal;
    forall k | 0 <= k < |h.entries|
      ensures h'.entries[k].kind == h.entries[k].kind
      ensures h.base + h.entries[k].offset + h.entries[k].len <= |s|
      ensures h'.base + h'.entries[k].offset + h'.entries[k].len <= |out|
      ensures HoldsPadded(fmt, h.entries[k].kind, Content(s, h.base, h.entries[k]), Content(out, h'.base, h'.entries[k]))
    {
      AdaptedTable(fmt, s, start, out, k);
    }
  }

  ghost predicate HoldsPadded(fmt: Format, kind: byte, b: seq<byte>, c: seq<byte>) {
    if kind == fmt.addressKind then
      if |b| % 16 != 0 then c == b
      else
        |c| == |b| / 16 * 20
        && forall i: nat :: 16 * i + 16 <= |b| ==> c[20 * i..20 * i + 20] == [0, 0, 0, 0] + b[16 * i..16 * i + 16]
    else if kind == fmt.poolKind then
      forall es :: AllReadable(fmt, es) && Bytes(es) == b ==> HoldsPool(fmt, es, c)
    else c == b
  }

  ghost predicate HoldsPool(fmt: Format, es: seq<PoolEntry>, c: seq<byte>) {
    exists es' :: AllStand(fmt, es') && PadsAddresses(es, es') && c == Bytes(es')
  }

  lemma {:induction false} TableFound(fmt: Format, s: seq<byte>, es: seq<Entry>, es': seq<Entry>, base: nat, extra: nat,
                                      body: seq<byte>, k: nat)
    returns (b: seq<byte>)
    requires Rewritten(fmt, s, es, base, extra, es') && TablesAt(fmt, s, es, base, extra, body) && k < |es|
    ensures |es'| == |es| && es'[k].kind == es[k].kind && base + es[k].offset + es[k].len <= |s|
    ensures b == Content(s, base, es[k]) && |b| <= |s| && es'[k].offset + es'[k].len <= |body|
    ensures body[es'[k].offset..][..es'[k].len] == PadTable(fmt, es[k].kind, b)
    decreases |es|
  {
    hide PadTable, GrowthAt;
    RewrittenLength(fmt, s, es, base, extra, es');
    if k == 0 {
      b := Content(s, base, es[0]);
    } else {
      b := TableFound(fmt, s, es[1..], es'[1..], base, extra + GrowthAt(fmt, s, base, es[0]), body, k - 1);
    }
  }

  lemma {:induction false} RewrittenLength(fmt: Format, s: seq<byte>, es: seq<Entry>, base: nat, extra: nat, es': seq<Entry>)
    requires Rewritten(fmt, s, es, base, extra, es')
    ensures |es'| == |es|
    decreases |es|
  {
    if es != [] {
      RewrittenLength(fmt, s, es[1..], base, extra + GrowthAt(fmt, s, base, es[0]), es'[1..]);
    }
  }

  lemma TableIsPadded(fmt: Format, kind: byte, b: seq<byte>)
    requires TokenIsLocal(fmt)
    ensures HoldsPadded(fmt, kind, b, PadTable(fmt, kind, b))
  {
    hide AllReadable, AllStand, PadsAddresses, PadAddresses, Bytes, PadAll, ParsePool, TokenIsLocal;
    if kind == fmt.addressKind {
      if |b| % 16 == 0 {
        PaddedLength(b);
        forall i: nat | 16 * i + 16 <= |b|
          ensures PadAddresses(b)[20 * i..20 * i + 20] == [0, 0, 0, 0] + b[16 * i..16 * i + 16]
        {
          PaddedAddress(b, i);
        }
      }
    } else if kind == fmt.poolKind {
      forall es | AllReadable(fmt, es) && Bytes(es) == b ensures HoldsPool(fmt, es, PadTable(fmt, kind, b)) {
        PrintIsParsed(fmt, es);
        PaddedIsRead(fmt, es);
      }
    }
  }

  /** Every well-formed binary is adapted: the scan succeeds, its sorted edits are disjoint,
      and splicing them yields the adapted binary. */
  lemma {:induction false} AdaptationIsCorrect(fmt: Format, s: seq<byte>, start: nat)
    requires WellFormed(fmt, s, start)
    ensures var edits := AdaptEdits(fmt, s, start);
            edits.Some? && Disjoint(SortByStart(edits.value), 0, |s|)
            && Adapted(fmt, s, start, Spliced(s, SortByStart(edits.value), 0))
  {
    hide ReadEntries, Read, LaidOut, SortByStart, EntryEdits, Fits, Patch, Within, TablesAt, Rewritten, HeaderEdits, BodyEdits,
         Adapted, Chained, ChainEnd, Disjoint, Spliced;
    var h := ReadHeader(s, start).value;
    HeaderShape(s, start);
    SumsFit(fmt, s, h.entries, h.base, h.base, 0);
    ScanIsSorted(fmt, s, h.entries, h.base, h.first, h.base, 0);
    PartsAreAdapted(fmt, s, start);
    PatchedParts(s, HeaderEdits(fmt, s, h.entries, h.base, 0), BodyEdits(fmt, s, h.entries, h.base), h.first, h.base);
  }

  /** The bytes before the header, the patched header and the patched body are the adapted
      binary. */
  lemma PartsAreAdapted(fmt: Format, s: seq<byte>, start: nat)
    requires WellFormed(fmt, s, start)
    ensures var h := ReadHeader(s, start).value;
            var header, body := HeaderEdits(fmt, s, h.entries, h.base, 0), BodyEdits(fmt, s, h.entries, h.base);
            h.first <= h.base <= |s| && Within(header, h.first, h.base) && Within(body, h.base, |s|)
            && Adapted(fmt, s, start, s[..h.first] + Patch(s, header, h.first, h.base) + Patch(s, body, h.base, |s|))
  {
    hide ReadEntries, Read, LaidOut, Fits, Patch, Within, TablesAt, Rewritten, HeaderEdits, BodyEdits, Chained, ChainEnd;
    var h := ReadHeader(s, start).value;
    var es, first, base := h.entries, h.first, h.base;
    HeaderShape(s, start);
    SumsFit(fmt, s, es, base, base, 0);
    HeaderEditsWithin(fmt, s, es, base, first, 0);
    BodyIsPadded(fmt, s, es, base, base, 0, []);
    var newHeader := Patch(s, HeaderEdits(fmt, s, es, base, 0), first, base);
    var newBody := Patch(s, BodyEdits(fmt, s, es, base), base, |s|);
    var out := s[..first] + newHeader + newBody;
    assert newHeader <= out[first..];
    HeaderIsRead(fmt, s, es, base, first, 0, out, first);
    assert out[..first] == s[..first];
    HeaderFound(s, start, out, ReadEntries(out, first, |es|).value);
    assert out[first + |newHeader|..] == [] + newBody;
  }

  /** Edits of the header and then of the tables splice to the bytes before the header, the
      new header and the new tables. */
  lemma {:induction false} PatchedParts(s: seq<byte>, header: seq<Diff>, body: seq<Diff>, first: nat, base: nat)
    requires first <= base <= |s| && Within(header, first, base) && Within(body, base, |s|)
    ensures Disjoint(header + body, 0, |s|)
    ensures Spliced(s, header + body, 0) == s[..first] + Patch(s, header, first, base) + Patch(s, body, base, |s|)
  {
    hide Patch, Within, Disjoint, Spliced;
    GapBefore(s, header, 0, first, base);
    PatchConcat(s, header, body, 0, base, |s|);
    PatchIsSplice(s, header + body, 0);
    assert s[0..first] == s[..first];
  }

  /** The adapter as it is called: on every well-formed binary it succeeds, and the buffer
      then holds the adapted binary. When the scan fails the buffer is untouched. */
  method Adapt(fmt: Format, buffer: ByteVec, start: nat) returns (ok: bool)
    requires |buffer.bytes| < U32_LIMIT
    modifies buffer
    ensures WellFormed(fmt, old(buffer.bytes), start) ==>
              ok && Adapted(fmt, old(buffer.bytes), start, buffer.bytes)
              && AllPadded(fmt, old(buffer.bytes), start, buffer.bytes)
    ensures AdaptEdits(fmt, old(buffer.bytes), start).None? ==> !ok && buffer.bytes == old(buffer.bytes)
  {
    hide WellFormed, Adapted, AllPadded, Disjoint, Spliced, SortByStart, AdaptEdits;
    ghost var s := buffer.bytes;
    if WellFormed(fmt, s, start) {
      AdaptationIsCorrect(fmt, s, start);
      AdaptedIsPadded(fmt, s, start, Spliced(s, SortByStart(AdaptEdits(fmt, s, start).value), 0));
    }
    var cur := new Cursor(buffer.bytes, start);
    var mutator := new Mutator();
    ok := MakeDiff(fmt, cur, mutator);
    if ok {
      assert mutator.diff == AdaptEdits(fmt, s, start).value;
      ok := mutator.Mutate(buffer);
    }
  }
}
