/** The bytecode adapter (lang/compat/src/lib.rs and context.rs): it scans a binary with
    16-byte addresses and records the edits that turn it into one with 20-byte addresses. */
module Adapter {
  import opened Wrappers
  import opened Uleb128
  import opened Mutator

  const DFIN_ADDR_LEN: nat := 20
  const LIBRA_ADDR_LEN: nat := 16
  const PADDING: seq<byte> := [0, 0, 0, 0]

  /** A signature token at the front of some bytes: whether it is the address type, and
      how many bytes it takes. */
  datatype Token = Token(isAddress: bool, used: nat)

  /** What the adapter takes from the loader library: two table kinds and the reader of
      signature tokens. */
  datatype Format = Format(addressKind: byte, poolKind: byte, token: seq<byte> -> Option<Token>)

  /** The token reader; a token takes at least one byte of those that are there. */
  function ReadToken(fmt: Format, b: seq<byte>): (r: Option<Token>)
    ensures r.Some? ==> 1 <= r.value.used <= |b|
  {
    var t := fmt.token(b);
    if t.Some? && 1 <= t.value.used <= |b| then t else None
  }

  // ----- Specification of the scan -----

  /** A header entry: its kind byte at `at`, its offset field from `at + 1` to `lenAt`, its
      length field from `lenAt` to `end`. Offset and length are cut to 32 bits. */
  datatype Entry = Entry(kind: byte, at: nat, lenAt: nat, end: nat, offset: nat, len: nat)

  datatype Header = Header(entries: seq<Entry>, first: nat, base: nat)

  function Tail(s: seq<byte>, pos: nat): seq<byte> {
    if pos <= |s| then s[pos..] else []
  }

  function Prepend<T>(a: seq<T>, r: Option<seq<T>>): Option<seq<T>> {
    if r.None? then None else Some(a + r.value)
  }

  lemma PrependTwice<T>(a: seq<T>, b: seq<T>, r: Option<seq<T>>)
    ensures Prepend(a, Prepend(b, r)) == Prepend(a + b, r)
  {
    if r.Some? {
      assert a + (b + r.value) == a + b + r.value;
    }
  }

  lemma PrependNothing<T>(a: seq<T>, r: Option<seq<T>>)
    ensures Prepend([], r) == r
    ensures Prepend(a, Some([])) == Some(a)
  {
    if r.Some? {
      assert [] + r.value == r.value;
    }
    assert a + [] == a;
  }

  function ReadEntry(s: seq<byte>, pos: nat): (r: Option<Entry>)
    ensures r.Some? ==> pos == r.value.at && r.value.at + 1 < r.value.lenAt < r.value.end <= |s|
  {
    if pos >= |s| then None
    else
      match Read(Tail(s, pos + 1))
      case None => None
      case Some(o) =>
        var lenAt := pos + 1 + o.used;
        match Read(Tail(s, lenAt))
        case None => None
        case Some(l) => Some(Entry(s[pos], pos, lenAt, lenAt + l.used, o.value % U32_LIMIT, l.value % U32_LIMIT))
  }

  function ReadEntries(s: seq<byte>, pos: nat, count: nat): (r: Option<seq<Entry>>)
    ensures r.Some? ==> |r.value| == count
    decreases count
  {
    if count == 0 then Some([])
    else
      match ReadEntry(s, pos)
      case None => None
      case Some(e) => Prepend([e], ReadEntries(s, e.end, count - 1))
  }

  // Where the entries end: the offsets of the tables count from here.
  function EntriesEnd(entries: seq<Entry>, first: nat): nat {
    if entries == [] then first else entries[|entries| - 1].end
  }

  function ReadHeader(s: seq<byte>, start: nat): Option<Header> {
    match Read(Tail(s, start))
    case None => None
    case Some(count) =>
      var first := start + count.used;
      match ReadEntries(s, first, count.value)
      case None => None
      case Some(entries) => Some(Header(entries, first, EntriesEnd(entries, first)))
  }

  /** The edits inside one table and the growth that the scan counts for it. */
  datatype TableEdits = TableEdits(edits: seq<Diff>, growth: nat)

  function AddressEdits(at: nat, len: nat): seq<Diff>
    decreases len
  {
    if len < LIBRA_ADDR_LEN then []
    else [Diff(at, at, PADDING)] + AddressEdits(at + LIBRA_ADDR_LEN, len - LIBRA_ADDR_LEN)
  }

  /** The front of a constant: its size field lies from `sizeAt` to `dataAt`, its data
      takes `size` bytes from `dataAt` on. */
  datatype Constant = Constant(isAddress: bool, sizeAt: nat, dataAt: nat, size: nat)

  function ReadConstant(fmt: Format, s: seq<byte>, pos: nat): (r: Option<Constant>)
    ensures r.Some? ==> pos < r.value.sizeAt < r.value.dataAt <= |s|
    ensures r.Some? && r.value.isAddress ==> r.value.size + 4 < U32_LIMIT
  {
    match ReadToken(fmt, Tail(s, pos))
    case None => None
    case Some(t) =>
      match Read(Tail(s, pos + t.used))
      case None => None
      case Some(u) =>
        var size := u.value % U32_LIMIT;
        if t.isAddress && size + 4 >= U32_LIMIT then None
        else Some(Constant(t.isAddress, pos + t.used, pos + t.used + u.used, size))
  }

  // The constants from `pos` until the cursor is at or after `end`.
  function ReadPool(fmt: Format, s: seq<byte>, pos: nat, end: nat): Option<seq<Constant>>
    decreases end - pos
  {
    if pos >= end then Some([])
    else
      match ReadConstant(fmt, s, pos)
      case None => None
      case Some(c) => Prepend([c], ReadPool(fmt, s, c.dataAt + c.size, end))
  }

  function ConstantEdits(c: Constant): seq<Diff> {
    if c.isAddress then [Diff(c.sizeAt, c.dataAt, Encode(c.size + 4)), Diff(c.dataAt, c.dataAt, PADDING)] else []
  }

  function PoolEdits(cs: seq<Constant>): seq<Diff> {
    if cs == [] then [] else ConstantEdits(cs[0]) + PoolEdits(cs[1..])
  }

  function PoolGrowth(cs: seq<Constant>): nat {
    if cs == [] then 0 else (if cs[0].isAddress then 4 else 0) + PoolGrowth(cs[1..])
  }

  /** The edits of a table of this kind, offset and length. `None` stands for an error of
      the loader or an overflow of 32-bit arithmetic. */
  function EditsOf(fmt: Format, s: seq<byte>, kind: byte, offset: nat, len: nat, base: nat): Option<TableEdits> {
    if kind == fmt.addressKind then
      if offset + base >= U32_LIMIT then None
      else if len % LIBRA_ADDR_LEN == 0 then
        Some(TableEdits(AddressEdits(offset + base, len), len / LIBRA_ADDR_LEN * (DFIN_ADDR_LEN - LIBRA_ADDR_LEN)))
      else Some(TableEdits([], 0))
    else if kind == fmt.poolKind then
      if offset + base >= U32_LIMIT then None
      else
        match ReadPool(fmt, s, offset + base, offset + base + len)
        case None => None
        case Some(cs) =>
          if PoolGrowth(cs) < U32_LIMIT then Some(TableEdits(PoolEdits(cs), PoolGrowth(cs))) else None
    else Some(TableEdits([], 0))
  }

  // The edit of a number field of the header when its value changes.
  function FieldEdit(from: nat, to: nat, value: nat, changed: bool): seq<Diff> {
    if changed then [Diff(from, to, Encode(value))] else []
  }

  function OffsetEdit(e: Entry, extra: nat): seq<Diff> {
    FieldEdit(e.at + 1, e.lenAt, e.offset + extra, extra > 0)
  }

  function LenEdit(e: Entry, growth: nat): seq<Diff> {
    FieldEdit(e.lenAt, e.end, e.len + growth, growth > 0)
  }

  /** The edits of one entry and its table, in the order in which they are recorded;
      `extra` is the growth of the tables before. */
  function EntryStep(fmt: Format, s: seq<byte>, e: Entry, base: nat, extra: nat): Option<TableEdits> {
    if extra > 0 && e.offset + extra >= U32_LIMIT then None
    else
      match EditsOf(fmt, s, e.kind, e.offset, e.len, base)
      case None => None
      case Some(t) =>
        if (t.growth > 0 && e.len + t.growth >= U32_LIMIT) || extra + t.growth >= U32_LIMIT then None
        else Some(TableEdits(OffsetEdit(e, extra) + t.edits + LenEdit(e, t.growth), t.growth))
  }

  function EntryEdits(fmt: Format, s: seq<byte>, entries: seq<Entry>, base: nat, extra: nat): Option<seq<Diff>> {
    if entries == [] then Some([])
    else
      match EntryStep(fmt, s, entries[0], base, extra)
      case None => None
      case Some(t) => Prepend(t.edits, EntryEdits(fmt, s, entries[1..], base, extra + t.growth))
  }

  function AdaptEdits(fmt: Format, s: seq<byte>, start: nat): Option<seq<Diff>>
  {
    match ReadHeader(s, start)
    case None => None
    case Some(h) => EntryEdits(fmt, s, h.entries, h.base, 0)
  }

  // ----- The scan itself -----

  class Cursor {
    const bytes: seq<byte>
    var pos: nat

    constructor (b: seq<byte>, p: nat)
      ensures bytes == b && pos == p
    {
      bytes := b;
      pos := p;
    }

    method ReadU8() returns (r: Option<byte>)
      modifies this
      ensures r == if old(pos) < |bytes| then Some(bytes[old(pos)]) else None
      ensures pos == if r.Some? then old(pos) + 1 else old(pos)
    {
      if pos < |bytes| {
        r := Some(bytes[pos]);
        pos := pos + 1;
      } else {
        r := None;
      }
    }

    method ReadUleb128() returns (r: Option<nat>)
      modifies this
      ensures var u := Read(Tail(bytes, old(pos)));
              if u.Some? then r == Some(u.value.value) && pos == old(pos) + u.value.used else r == None
    {
      var u := Read(Tail(bytes, pos));
      if u.None? {
        return None;
      }
      pos := pos + u.value.used;
      return Some(u.value.value);
    }

    method LoadSignatureToken(fmt: Format) returns (r: Option<Token>)
      modifies this
      ensures r == ReadToken(fmt, Tail(bytes, old(pos)))
      ensures pos == if r.Some? then old(pos) + r.value.used else old(pos)
    {
      r := ReadToken(fmt, Tail(bytes, pos));
      if r.Some? {
        pos := pos + r.value.used;
      }
    }
  }

  /** A visit to a table: the cursor is moved there and moved back at the end. */
  class TableContext {
    const cursor: Cursor
    const oldPos: nat
    const len: nat

    constructor (cursor: Cursor, offset: nat, len: nat)
      modifies cursor
      ensures this.cursor == cursor && this.oldPos == old(cursor.pos) && this.len == len
      ensures cursor.pos == offset
    {
      this.cursor := cursor;
      this.oldPos := cursor.pos;
      this.len := len;
      new;
      cursor.pos := offset;
    }

    method Drop()
      modifies cursor
      ensures cursor.pos == oldPos
    {
      cursor.pos := oldPos;
    }
  }

  method HandleAddressIdentifiers(ctx: TableContext, mutator: Mutator) returns (growth: nat)
    modifies mutator, ctx.cursor
    ensures ctx.cursor.pos == ctx.oldPos
    ensures growth == if ctx.len % LIBRA_ADDR_LEN == 0 then ctx.len / LIBRA_ADDR_LEN * (DFIN_ADDR_LEN - LIBRA_ADDR_LEN) else 0
    ensures mutator.diff == old(mutator.diff) +
                            (if ctx.len % LIBRA_ADDR_LEN == 0 then AddressEdits(old(ctx.cursor.pos), ctx.len) else [])
  {
    growth := 0;
    if ctx.len % LIBRA_ADDR_LEN == 0 {
      var idx := 0;
      while idx < ctx.len
        invariant idx <= ctx.len && idx % LIBRA_ADDR_LEN == 0 && ctx.cursor.pos == old(ctx.cursor.pos)
        invariant mutator.diff + AddressEdits(ctx.cursor.pos + idx, ctx.len - idx) ==
                  old(mutator.diff) + AddressEdits(ctx.cursor.pos, ctx.len)
      {
        var index := ctx.cursor.pos + idx;
        mutator.MakeDiff(index, index, PADDING);
        idx := idx + LIBRA_ADDR_LEN;
      }
      growth := ctx.len / LIBRA_ADDR_LEN * (DFIN_ADDR_LEN - LIBRA_ADDR_LEN);
    }
    ctx.Drop();
  }

  lemma ReadPoolStep(fmt: Format, s: seq<byte>, pos: nat, end: nat, cs: seq<Constant>)
    requires pos < end
    ensures var c := ReadConstant(fmt, s, pos);
            Prepend(cs, ReadPool(fmt, s, pos, end)) ==
            if c.None? then None else Prepend(cs + [c.value], ReadPool(fmt, s, c.value.dataAt + c.value.size, end))
  {
    hide ReadConstant;
    var c := ReadConstant(fmt, s, pos);
    if c.Some? {
      PrependTwice(cs, [c.value], ReadPool(fmt, s, c.value.dataAt + c.value.size, end));
    }
  }

  lemma {:induction false} PoolEditsStep(cs: seq<Constant>, c: Constant)
    ensures PoolEdits(cs + [c]) == PoolEdits(cs) + ConstantEdits(c)
    ensures PoolGrowth(cs + [c]) == PoolGrowth(cs) + if c.isAddress then 4 else 0
  {
    if cs != [] {
      PoolEditsStep(cs[1..], c);
      assert (cs + [c])[1..] == cs[1..] + [c];
    }
  }

  // Reads a constant up to its data, where the cursor stops.
  method LoadConstant(fmt: Format, cur: Cursor) returns (r: Option<Constant>)
    modifies cur
    ensures r == ReadConstant(fmt, cur.bytes, old(cur.pos))
    ensures r.Some? ==> cur.pos == r.value.dataAt
  {
    var token := cur.LoadSignatureToken(fmt);
    if token.None? {
      return None;
    }
    var sizeStartOffset := cur.pos;
    var size64 := cur.ReadUleb128();
    if size64.None? {
      return None;
    }
    var size := size64.value % U32_LIMIT;
    if token.value.isAddress && size + (DFIN_ADDR_LEN - LIBRA_ADDR_LEN) >= U32_LIMIT {
      return None;
    }
    return Some(Constant(token.value.isAddress, sizeStartOffset, cur.pos, size));
  }

  // One round of the loop over the pool.
  method ScanConstant(fmt: Format, cur: Cursor, mutator: Mutator) returns (growth: Option<nat>)
    modifies cur, mutator
    ensures var c := ReadConstant(fmt, cur.bytes, old(cur.pos));
            growth.Some? == c.Some?
            && (c.Some? ==>
                  cur.pos == c.value.dataAt + c.value.size
                  && growth.value == (if c.value.isAddress then 4 else 0)
                  && mutator.diff == old(mutator.diff) + ConstantEdits(c.value))
  {
    var c := LoadConstant(fmt, cur);
    if c.None? {
      return None;
    }
    growth := Some(0);
    if c.value.isAddress {
      var diffSize := DFIN_ADDR_LEN - LIBRA_ADDR_LEN;
      mutator.MakeDiff(c.value.sizeAt, c.value.dataAt, Encode(c.value.size + diffSize));
      growth := Some(diffSize);
      mutator.MakeDiff(cur.pos, cur.pos, PADDING);
    }
    cur.pos := cur.pos + c.value.size;
  }

  method HandleConstPool(fmt: Format, ctx: TableContext, mutator: Mutator) returns (r: Option<nat>)
    modifies mutator, ctx.cursor
    ensures ctx.cursor.pos == ctx.oldPos
    ensures var cs := ReadPool(fmt, ctx.cursor.bytes, old(ctx.cursor.pos), old(ctx.cursor.pos) + ctx.len);
            if cs.Some?
            then r == Some(PoolGrowth(cs.value)) && mutator.diff == old(mutator.diff) + PoolEdits(cs.value)
            else r == None
  {
    hide ReadConstant;
    var endOffset := ctx.cursor.pos + ctx.len;
    var additionalOffset: nat := 0;
    ghost var s, pos := ctx.cursor.bytes, ctx.cursor.pos;
    ghost var pool := ReadPool(fmt, s, pos, endOffset);
    ghost var cs: seq<Constant> := [];
    PrependNothing(cs, pool);
    while ctx.cursor.pos < endOffset
      invariant pos == ctx.cursor.pos && Prepend(cs, ReadPool(fmt, s, pos, endOffset)) == pool
      invariant additionalOffset == PoolGrowth(cs)
      invariant mutator.diff == old(mutator.diff) + PoolEdits(cs)
      decreases endOffset - ctx.cursor.pos
    {
      ghost var c := ReadConstant(fmt, s, pos);
      ReadPoolStep(fmt, s, pos, endOffset, cs);
      var growth := ScanConstant(fmt, ctx.cursor, mutator);
      if growth.None? {
        ctx.Drop();
        return None;
      }
      additionalOffset := additionalOffset + growth.value;
      PoolEditsStep(cs, c.value);
      pos, cs := c.value.dataAt + c.value.size, cs + [c.value];
    }
    PrependNothing(cs, pool);
    ctx.Drop();
    return Some(additionalOffset);
  }

  lemma ReadEntriesStep(s: seq<byte>, pos: nat, count: nat, es: seq<Entry>)
    requires count > 0
    ensures var e := ReadEntry(s, pos);
            Prepend(es, ReadEntries(s, pos, count)) ==
            if e.None? then None else Prepend(es + [e.value], ReadEntries(s, e.value.end, count - 1))
  {
    hide ReadEntry;
    var e := ReadEntry(s, pos);
    if e.Some? {
      PrependTwice(es, [e.value], ReadEntries(s, e.value.end, count - 1));
    }
  }

  method SkipEntry(cur: Cursor) returns (ok: bool)
    modifies cur
    ensures var e := ReadEntry(cur.bytes, old(cur.pos));
            ok == e.Some? && (ok ==> cur.pos == e.value.end)
  {
    var kind := cur.ReadU8();
    if kind.None? {
      return false;
    }
    var offset := cur.ReadUleb128();
    if offset.None? {
      return false;
    }
    var len := cur.ReadUleb128();
    return len.Some?;
  }

  method CalcHeaderSize(cur: Cursor, tableLen: nat) returns (r: Option<nat>)
    modifies cur
    ensures var es := ReadEntries(cur.bytes, old(cur.pos), tableLen);
            if es.Some?
            then cur.pos == old(cur.pos) && EntriesEnd(es.value, cur.pos) >= cur.pos
                 && r == Some(EntriesEnd(es.value, cur.pos) - cur.pos)
            else r == None
  {
    hide ReadEntry;
    var start := cur.pos;
    ghost var es: seq<Entry> := [];
    for i := 0 to tableLen
      invariant start <= cur.pos == EntriesEnd(es, start)
      invariant Prepend(es, ReadEntries(cur.bytes, cur.pos, tableLen - i)) ==
                Prepend([], ReadEntries(cur.bytes, start, tableLen))
    {
      ReadEntriesStep(cur.bytes, cur.pos, tableLen - i, es);
      ghost var e := ReadEntry(cur.bytes, cur.pos);
      var ok := SkipEntry(cur);
      if !ok {
        return None;
      }
      es := es + [e.value];
    }
    PrependNothing(es, ReadEntries(cur.bytes, start, tableLen));
    var end := cur.pos;
    cur.pos := start;
    return Some(end - start);
  }

  method MakeUleb128Diff(start: nat, end: nat, value: nat, mutator: Mutator)
    modifies mutator
    ensures mutator.diff == old(mutator.diff) + [Diff(start, end, Encode(value))]
  {
    mutator.MakeDiff(start, end, Encode(value));
  }

  /** The visit to the table of an entry. */
  method ScanTable(fmt: Format, cur: Cursor, mutator: Mutator, kind: byte, offset: nat, len: nat, base: nat)
    returns (growth: Option<nat>)
    modifies cur, mutator
    ensures cur.pos == old(cur.pos)
    ensures var t := EditsOf(fmt, cur.bytes, kind, offset, len, base);
            if t.Some? then growth == Some(t.value.growth) && mutator.diff == old(mutator.diff) + t.value.edits
            else growth == None
  {
    hide ReadPool, AddressEdits, PoolEdits, PoolGrowth;
    if kind == fmt.addressKind || kind == fmt.poolKind {
      if offset + base >= U32_LIMIT {
        return None;
      }
      var ctx := new TableContext(cur, offset + base, len);
      if kind == fmt.addressKind {
        var g := HandleAddressIdentifiers(ctx, mutator);
        growth := Some(g);
      } else {
        growth := HandleConstPool(fmt, ctx, mutator);
        if growth.Some? && growth.value >= U32_LIMIT {
          growth := None;
        }
      }
    } else {
      growth := Some(0);
    }
  }

  /** Reads an offset field and records its new value when a table before has grown. */
  method ScanOffset(cur: Cursor, mutator: Mutator, additionalOffset: nat) returns (r: Option<nat>)
    requires Read(Tail(cur.bytes, cur.pos)).Some?
    modifies cur, mutator
    ensures var u := Read(Tail(cur.bytes, old(cur.pos))).value;
            var offset := u.value % U32_LIMIT;
            cur.pos == old(cur.pos) + u.used
            && if additionalOffset == 0 then r == Some(offset) && mutator.diff == old(mutator.diff)
            else if offset + additionalOffset >= U32_LIMIT then r == None
            else r == Some(offset)
                 && mutator.diff == old(mutator.diff) + [Diff(old(cur.pos), cur.pos, Encode(offset + additionalOffset))]
  {
    hide Encode;
    var startPos := cur.pos;
    var offset64 := cur.ReadUleb128();
    var offset := offset64.value % U32_LIMIT;
    if additionalOffset > 0 {
      if offset + additionalOffset >= U32_LIMIT {
        return None;
      }
      MakeUleb128Diff(startPos, cur.pos, offset + additionalOffset, mutator);
    }
    return Some(offset);
  }

  /** Reads a length field, visits the table and records the new length of a table that
      grows. */
  method ScanLength(fmt: Format, cur: Cursor, mutator: Mutator, kind: byte, offset: nat, base: nat)
    returns (growth: Option<nat>)
    requires Read(Tail(cur.bytes, cur.pos)).Some?
    modifies cur, mutator
    ensures var u := Read(Tail(cur.bytes, old(cur.pos))).value;
            var len := u.value % U32_LIMIT;
            var t := EditsOf(fmt, cur.bytes, kind, offset, len, base);
            cur.pos == old(cur.pos) + u.used
            && if t.None? || (t.value.growth > 0 && len + t.value.growth >= U32_LIMIT) then growth == None
            else growth == Some(t.value.growth)
                 && mutator.diff == old(mutator.diff) + t.value.edits +
                                    (if t.value.growth > 0 then [Diff(old(cur.pos), cur.pos, Encode(len + t.value.growth))] else [])
  {
    hide EditsOf, Encode;
    var lenStartPos := cur.pos;
    var len64 := cur.ReadUleb128();
    var len := len64.value % U32_LIMIT;
    var lenEndPos := cur.pos;
    growth := ScanTable(fmt, cur, mutator, kind, offset, len, base);
    if growth.Some? && growth.value > 0 {
      if len + growth.value >= U32_LIMIT {
        return None;
      }
      MakeUleb128Diff(lenStartPos, lenEndPos, len + growth.value, mutator);
    }
  }

  /** One round of the loop over the header entries. */
  method ScanEntry(fmt: Format, cur: Cursor, mutator: Mutator, base: nat, additionalOffset: nat) returns (growth: Option<nat>)
    requires ReadEntry(cur.bytes, cur.pos).Some?
    modifies cur, mutator
    ensures var e := ReadEntry(cur.bytes, old(cur.pos)).value;
            var t := EntryStep(fmt, cur.bytes, e, base, additionalOffset);
            if t.Some?
            then growth == Some(t.value.growth) && cur.pos == e.end && mutator.diff == old(mutator.diff) + t.value.edits
            else growth == None
  {
    hide EditsOf, Read, Encode, Tail;
    ghost var e := ReadEntry(cur.bytes, cur.pos).value;
    var kind := cur.ReadU8();
    var offset := ScanOffset(cur, mutator, additionalOffset);
    if offset.None? {
      return None;
    }
    growth := ScanLength(fmt, cur, mutator, kind.value, offset.value, base);
    if growth.Some? && additionalOffset + growth.value >= U32_LIMIT {
      return None;
    }
  }

  // Entry `i` is read where the entry before it ends.
  ghost predicate Chained(s: seq<byte>, pos: nat, es: seq<Entry>)
    decreases |es|
  {
    es == [] || (ReadEntry(s, pos) == Some(es[0]) && Chained(s, es[0].end, es[1..]))
  }

  lemma {:induction false} EntriesAreChained(s: seq<byte>, pos: nat, count: nat)
    requires ReadEntries(s, pos, count).Some?
    ensures Chained(s, pos, ReadEntries(s, pos, count).value)
    decreases count
  {
    hide ReadEntry;
    if count > 0 {
      var e := ReadEntry(s, pos).value;
      EntriesAreChained(s, e.end, count - 1);
      assert ([e] + ReadEntries(s, e.end, count - 1).value)[1..] == ReadEntries(s, e.end, count - 1).value;
    }
  }

  lemma {:induction false} HeaderParts(s: seq<byte>, start: nat)
    ensures var count := Read(Tail(s, start));
            if count.None? then ReadHeader(s, start) == None
            else
              var first := start + count.value.used;
              var es := ReadEntries(s, first, count.value.value);
              ReadHeader(s, start) == if es.None? then None else Some(Header(es.value, first, EntriesEnd(es.value, first)))
  {
    hide Read, ReadEntries;
  }

  method MakeDiff(fmt: Format, cur: Cursor, mutator: Mutator) returns (ok: bool)
    requires |cur.bytes| < U32_LIMIT
    modifies cur, mutator
    ensures var edits := AdaptEdits(fmt, cur.bytes, old(cur.pos));
            ok == edits.Some? && (ok ==> mutator.diff == old(mutator.diff) + edits.value)
    ensures ok ==> ReadHeader(cur.bytes, old(cur.pos)).Some? && cur.pos == ReadHeader(cur.bytes, old(cur.pos)).value.base
  {
    hide ReadEntries, EntryEdits, Read, ReadHeader, Chained;
    ghost var s, start := cur.bytes, cur.pos;
    HeaderParts(s, start);
    var tableLen := cur.ReadUleb128();
    if tableLen.None? {
      return false;
    }
    var headerLen := cur.pos;
    var headerSize := CalcHeaderSize(cur, tableLen.value);
    if headerSize.None? {
      return false;
    }
    ghost var es := ReadEntries(s, headerLen, tableLen.value).value;
    EntriesAreChained(s, headerLen, tableLen.value);
    ok := ScanEntries(fmt, cur, mutator, tableLen.value, headerSize.value + headerLen, es);
  }

  method ScanEntries(fmt: Format, cur: Cursor, mutator: Mutator, tableLen: nat, base: nat, ghost es: seq<Entry>) returns (ok: bool)
    requires Chained(cur.bytes, cur.pos, es) && |es| == tableLen
    modifies cur, mutator
    ensures var edits := EntryEdits(fmt, cur.bytes, es, base, 0);
            ok == edits.Some? && (ok ==> mutator.diff == old(mutator.diff) + edits.value)
    ensures ok ==> cur.pos == EntriesEnd(es, old(cur.pos))
  {
    hide ReadEntry, EntryStep;
    ghost var s, d0, all := cur.bytes, mutator.diff, EntryEdits(fmt, cur.bytes, es, base, 0);
    ghost var start := cur.pos;
    var additionalOffset: nat := 0;
    for i := 0 to tableLen
      invariant Chained(s, cur.pos, es[i..]) && cur.pos == EntriesEnd(es[..i], start)
      invariant Prepend(mutator.diff, EntryEdits(fmt, s, es[i..], base, additionalOffset)) == Prepend(d0, all)
    {
      ghost var t, before := EntryStep(fmt, s, es[i], base, additionalOffset), mutator.diff;
      assert es[i..][0] == es[i] && es[i..][1..] == es[i + 1..];
      var growth := ScanEntry(fmt, cur, mutator, base, additionalOffset);
      if growth.None? {
        return false;
      }
      additionalOffset := additionalOffset + growth.value;
      PrependTwice(before, t.value.edits, EntryEdits(fmt, s, es[i + 1..], base, additionalOffset));
    }
    PrependNothing(mutator.diff, all);
    assert es[..tableLen] == es;
    return true;
  }
}
