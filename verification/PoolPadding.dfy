/** The constant pool of an adapted binary. */
module PoolPadding {
  import opened Wrappers
  import opened Uleb128
  import opened Mutator
  import opened Adapter
  import opened TablePadding

  /** The loader finds this token at the front of the bytes. */
  ghost predicate Found(fmt: Format, b: seq<byte>, t: Token) {
    fmt.token(b) == Some(t) && 1 <= t.used <= |b|
  }

  /** Reading a token depends on its own bytes only. */
  ghost predicate TokenIsLocal(fmt: Format) {
    forall b: seq<byte>, rest: seq<byte>, t: Token :: Found(fmt, b, t) ==> Found(fmt, b[..t.used] + rest, t)
  }

  /** Such is every reader of one-byte tokens. */
  lemma OneByteTokensAreLocal(fmt: Format, address: byte)
    requires forall b: seq<byte> :: fmt.token(b) == if b == [] then None else Some(Token(b[0] == address, 1))
    ensures TokenIsLocal(fmt)
  {
    forall b: seq<byte>, rest: seq<byte>, t: Token | Found(fmt, b, t) ensures Found(fmt, b[..t.used] + rest, t) {
      assert (b[..1] + rest)[0] == b[0];
    }
  }

  /** A constant of a pool as bytes: its type, its size field and its data. */
  datatype PoolEntry = PoolEntry(token: seq<byte>, isAddress: bool, field: seq<byte>, data: seq<byte>) {
    ghost function Bytes(): seq<byte> {
      token + field + data
    }

    // What reading the entry finds.
    ghost function Shape(pos: nat): Constant {
      Constant(isAddress, pos + |token|, pos + |token| + |field|, |data|)
    }

    /** The loader finds the token in front, and then a size field that holds the size of the
        data. */
    ghost predicate Stands(fmt: Format) {
      && Found(fmt, Bytes(), Token(isAddress, |token|))
      && Read(field + data).Some? && Read(field + data).value.used == |field|
      && Read(field + data).value.value % U32_LIMIT == |data|
    }

    // The adapter can read it: the size of an address fits in 32 bits once it has grown.
    ghost predicate Readable(fmt: Format) {
      Stands(fmt) && (isAddress ==> |data| + 4 < U32_LIMIT)
    }

    ghost function Padded(): PoolEntry {
      if isAddress then PoolEntry(token, true, Encode(|data| + 4), PADDING + data) else this
    }

    // By how many bytes the size field gets longer.
    ghost function Drift(): int {
      if isAddress then |Encode(|data| + 4)| - |field| else 0
    }
  }

  ghost function Bytes(es: seq<PoolEntry>): seq<byte> {
    if es == [] then [] else es[0].Bytes() + Bytes(es[1..])
  }

  ghost function PadAll(es: seq<PoolEntry>): seq<PoolEntry> {
    if es == [] then [] else [es[0].Padded()] + PadAll(es[1..])
  }

  ghost predicate AllReadable(fmt: Format, es: seq<PoolEntry>) {
    forall i :: 0 <= i < |es| ==> es[i].Readable(fmt)
  }

  ghost predicate AllStand(fmt: Format, es: seq<PoolEntry>) {
    forall i :: 0 <= i < |es| ==> es[i].Stands(fmt)
  }

  ghost function TotalDrift(es: seq<PoolEntry>): int {
    if es == [] then 0 else es[0].Drift() + TotalDrift(es[1..])
  }

  ghost function Addresses(es: seq<PoolEntry>): nat {
    if es == [] then 0 else (if es[0].isAddress then 1 else 0) + Addresses(es[1..])
  }

  /** The pool of exactly the bytes `b`. */
  ghost function ParsePool(fmt: Format, b: seq<byte>): Option<seq<PoolEntry>>
    decreases |b|
  {
    if b == [] then Some([])
    else
      match ReadConstant(fmt, b, 0)
      case None => None
      case Some(c) =>
        var next := c.dataAt + c.size;
        if next > |b| then None
        else
          Prepend([PoolEntry(b[..c.sizeAt], c.isAddress, b[c.sizeAt..c.dataAt], b[c.dataAt..next])], ParsePool(fmt, b[next..]))
  }

  // ----- Reading is local -----

  // The reader of the adapter is that of the loader.
  lemma TokenIsFound(fmt: Format, b: seq<byte>, t: Token)
    ensures Found(fmt, b, t) <==> ReadToken(fmt, b) == Some(t)
  {
  }

  lemma ReadableIsRead(fmt: Format, e: PoolEntry)
    ensures e.Readable(fmt) <==> ReadConstant(fmt, e.Bytes(), 0) == Some(e.Shape(0))
  {
    hide Read, ReadToken;
    TokenIsFound(fmt, e.Bytes(), Token(e.isAddress, |e.token|));
    assert Tail(e.Bytes(), 0) == e.Bytes() && Tail(e.Bytes(), |e.token|) == e.field + e.data;
  }

  lemma ReadInside(b: seq<byte>, c: seq<byte>)
    requires b <= c && Read(b).Some?
    ensures Read(c) == Read(b)
  {
    var used := Read(b).value.used;
    ReadIsLocal(b, c[used..]);
    assert b[..used] + c[used..] == c;
  }

  lemma TokenInside(fmt: Format, b: seq<byte>, c: seq<byte>)
    requires TokenIsLocal(fmt) && b <= c && ReadToken(fmt, b).Some?
    ensures ReadToken(fmt, c) == ReadToken(fmt, b)
  {
    var t := ReadToken(fmt, b).value;
    TokenIsFound(fmt, b, t);
    assert b[..t.used] + c[t.used..] == c;
    TokenIsFound(fmt, c, t);
  }

  /** A constant that is read from `b` is read wherever these bytes stand. */
  lemma ConstantInside(fmt: Format, b: seq<byte>, s: seq<byte>, pos: nat)
    requires TokenIsLocal(fmt) && pos <= |s| && b <= s[pos..] && ReadConstant(fmt, b, 0).Some?
    ensures var c := ReadConstant(fmt, b, 0).value;
            ReadConstant(fmt, s, pos) == Some(Constant(c.isAddress, pos + c.sizeAt, pos + c.dataAt, c.size))
  {
    hide Read, ReadToken;
    assert Tail(b, 0) == b;
    TokenInside(fmt, b, s[pos..]);
    var used := ReadToken(fmt, b).value.used;
    assert b[used..] <= s[pos + used..];
    ReadInside(b[used..], s[pos + used..]);
  }

  // ----- Parsing and printing a pool -----

  lemma ReadableFromParse(fmt: Format, b: seq<byte>, c: Constant)
    requires TokenIsLocal(fmt) && ReadConstant(fmt, b, 0) == Some(c) && c.dataAt + c.size <= |b|
    ensures PoolEntry(b[..c.sizeAt], c.isAddress, b[c.sizeAt..c.dataAt], b[c.dataAt..c.dataAt + c.size]).Readable(fmt)
  {
    hide Read, ReadToken;
    var e := PoolEntry(b[..c.sizeAt], c.isAddress, b[c.sizeAt..c.dataAt], b[c.dataAt..c.dataAt + c.size]);
    assert Tail(b, 0) == b && Tail(b, c.sizeAt) == b[c.sizeAt..];
    var token := ReadToken(fmt, b).value;
    TokenIsFound(fmt, b, token);
    assert e.Bytes() == b[..token.used] + (e.field + e.data);
    ReadIsLocal(b[c.sizeAt..], e.data);
    assert e.field == b[c.sizeAt..][..c.dataAt - c.sizeAt];
  }

  /** Parsing a pool loses nothing. */
  lemma {:induction false} ParseIsExact(fmt: Format, b: seq<byte>)
    requires TokenIsLocal(fmt) && ParsePool(fmt, b).Some?
    ensures Bytes(ParsePool(fmt, b).value) == b && AllReadable(fmt, ParsePool(fmt, b).value)
    decreases |b|
  {
    hide ReadConstant, PoolEntry.Readable, PoolEntry.Bytes;
    if b != [] {
      var e, next := HeadOfParse(fmt, b);
      ParseIsExact(fmt, b[next..]);
      var es := ParsePool(fmt, b[next..]).value;
      assert ([e] + es)[1..] == es && ([e] + es)[0] == e;
      assert b[..next] + b[next..] == b;
    }
  }

  lemma HeadOfParse(fmt: Format, b: seq<byte>) returns (e: PoolEntry, next: nat)
    requires TokenIsLocal(fmt) && b != [] && ParsePool(fmt, b).Some?
    ensures 0 < next <= |b| && e.Readable(fmt) && e.Bytes() == b[..next]
    ensures ParsePool(fmt, b) == Prepend([e], ParsePool(fmt, b[next..]))
  {
    hide ReadConstant;
    var c := ReadConstant(fmt, b, 0).value;
    next := c.dataAt + c.size;
    e := PoolEntry(b[..c.sizeAt], c.isAddress, b[c.sizeAt..c.dataAt], b[c.dataAt..next]);
    ReadableFromParse(fmt, b, c);
    assert e.Bytes() == b[..next];
  }

  /** Readable entries are read back one by one. */
  lemma {:induction false} PrintIsParsed(fmt: Format, es: seq<PoolEntry>)
    requires TokenIsLocal(fmt) && AllReadable(fmt, es)
    ensures ParsePool(fmt, Bytes(es)) == Some(es)
  {
    hide ParsePool, PoolEntry.Readable, PoolEntry.Bytes;
    if es == [] {
      NothingIsParsed(fmt);
    } else {
      var e, rest := es[0], es[1..];
      PrintIsParsed(fmt, rest);
      EntryIsParsed(fmt, e, Bytes(rest));
      assert [e] + rest == es;
    }
  }

  lemma NothingIsParsed(fmt: Format)
    ensures ParsePool(fmt, []) == Some([])
  {
  }

  lemma EntryIsParsed(fmt: Format, e: PoolEntry, rest: seq<byte>)
    requires TokenIsLocal(fmt) && e.Readable(fmt)
    ensures ParsePool(fmt, e.Bytes() + rest) == Prepend([e], ParsePool(fmt, rest))
  {
    hide ReadConstant;
    var b, c := e.Bytes() + rest, e.Shape(0);
    assert e.Bytes() <= b[0..] && b[0..] == b;
    ReadableIsRead(fmt, e);
    ConstantInside(fmt, e.Bytes(), b, 0);
    var next := c.dataAt + c.size;
    ReadableIsLong(fmt, e);
    assert b[..c.sizeAt] == e.token && b[c.sizeAt..c.dataAt] == e.field && b[c.dataAt..next] == e.data;
    assert b[next..] == rest;
  }

  lemma ReadableIsLong(fmt: Format, e: PoolEntry)
    requires e.Readable(fmt)
    ensures |e.token| + |e.field| > 0
  {
  }

  lemma PaddedIsReadable(fmt: Format, e: PoolEntry)
    requires TokenIsLocal(fmt) && e.Readable(fmt)
    ensures e.Padded().Stands(fmt) && (|e.data| + 8 < U32_LIMIT ==> e.Padded().Readable(fmt))
  {
    hide Read, Encode;
    if e.isAddress {
      var p := e.Padded();
      assert e.token == e.Bytes()[..|e.token|];
      assert p.Bytes() == e.Bytes()[..|e.token|] + (p.field + p.data);
      ReadBack(|e.data| + 4, p.data);
    }
  }

  /** In the second list each address has four zero bytes in front of its data, and every
      other constant is as in the first. */
  ghost predicate PadsAddresses(es: seq<PoolEntry>, es': seq<PoolEntry>) {
    |es'| == |es|
    && forall i :: 0 <= i < |es| ==>
         es'[i].token == es[i].token && es'[i].isAddress == es[i].isAddress
         && if es[i].isAddress then es'[i].data == [0, 0, 0, 0] + es[i].data else es'[i] == es[i]
  }

  /** A padded pool is read back entry by entry: the same types in the same order, each
      address with four more bytes and its value, all other data as it was. */
  lemma {:induction false} PaddedPoolIsParsed(fmt: Format, b: seq<byte>)
    requires TokenIsLocal(fmt) && ParsePool(fmt, b).Some? && |b| + 8 < U32_LIMIT
    ensures var es := ParsePool(fmt, b).value;
            AllReadable(fmt, es) && Bytes(es) == b
            && ParsePool(fmt, Bytes(PadAll(es))) == Some(PadAll(es)) && AllReadable(fmt, PadAll(es))
            && PadsAddresses(es, PadAll(es))
            && forall i :: 0 <= i < |es| && es[i].isAddress ==> BigEndian(PadAll(es)[i].data) == BigEndian(es[i].data)
  {
    var es := ParsePool(fmt, b).value;
    ParseIsExact(fmt, b);
    PaddedIsRead(fmt, es);
    PrintIsParsed(fmt, PadAll(es));
    forall i | 0 <= i < |es| && es[i].isAddress ensures BigEndian(PadAll(es)[i].data) == BigEndian(es[i].data) {
      PaddingKeepsValue(es[i].data);
    }
  }

  lemma PaddedIsRead(fmt: Format, es: seq<PoolEntry>)
    requires TokenIsLocal(fmt) && AllReadable(fmt, es)
    ensures AllStand(fmt, PadAll(es)) && PadsAddresses(es, PadAll(es))
    ensures |Bytes(es)| + 8 < U32_LIMIT ==> AllReadable(fmt, PadAll(es))
  {
    hide PoolEntry.Readable, PoolEntry.Stands, TokenIsLocal;
    PadAllAt(es);
    forall i | 0 <= i < |es|
      ensures PadAll(es)[i].Stands(fmt) && (|Bytes(es)| + 8 < U32_LIMIT ==> PadAll(es)[i].Readable(fmt))
    {
      EntryFits(es, i);
      PaddedIsReadable(fmt, es[i]);
    }
  }

  lemma {:induction false} PadAllAt(es: seq<PoolEntry>)
    ensures |PadAll(es)| == |es| && forall i :: 0 <= i < |es| ==> PadAll(es)[i] == es[i].Padded()
  {
    if es != [] {
      PadAllAt(es[1..]);
    }
  }

  lemma {:induction false} EntryFits(es: seq<PoolEntry>, i: nat)
    requires i < |es|
    ensures |es[i].data| <= |Bytes(es)|
  {
    if i > 0 {
      EntryFits(es[1..], i - 1);
    }
  }

  // ----- The scan of a pool -----

  // Where the scan finds the entries that start at `pos`.
  ghost function Located(es: seq<PoolEntry>, pos: nat): seq<Constant> {
    if es == [] then [] else [es[0].Shape(pos)] + Located(es[1..], pos + |es[0].Bytes()|)
  }

  /** On the bytes of readable entries the scan finds each entry and counts four bytes of
      growth per address. */
  lemma {:induction false} PoolIsScanned(fmt: Format, s: seq<byte>, pos: nat, es: seq<PoolEntry>)
    requires TokenIsLocal(fmt) && AllReadable(fmt, es) && pos <= |s| && Bytes(es) <= s[pos..]
    ensures ReadPool(fmt, s, pos, pos + |Bytes(es)|) == Some(Located(es, pos))
    ensures PoolGrowth(Located(es, pos)) == 4 * Addresses(es)
    decreases |es|
  {
    hide ReadConstant, Encode, PoolEntry.Readable, TokenIsLocal;
    if es != [] {
      var e, rest := es[0], es[1..];
      var next := pos + |e.Bytes()|;
      assert e.Bytes() <= s[pos..];
      assert Bytes(rest) <= s[next..];
      ReadableIsRead(fmt, e);
      ConstantInside(fmt, e.Bytes(), s, pos);
      ReadableNotEmpty(fmt, e);
      PoolIsScanned(fmt, s, next, rest);
      assert Located(es, pos)[1..] == Located(rest, next);
    }
  }

  /** The edits of the scan pad the pool. */
  lemma {:induction false} PoolPatch(s: seq<byte>, pos: nat, es: seq<PoolEntry>)
    requires pos <= |s| && Bytes(es) <= s[pos..]
    ensures Within(PoolEdits(Located(es, pos)), pos, pos + |Bytes(es)|)
    ensures Patch(s, PoolEdits(Located(es, pos)), pos, pos + |Bytes(es)|) == Bytes(PadAll(es))
    decreases |es|
  {
    hide ConstantEdits;
    if es != [] {
      var e, rest := es[0], es[1..];
      var next := pos + |e.Bytes()|;
      assert e.Bytes() <= s[pos..];
      assert Bytes(rest) <= s[next..];
      PoolPatch(s, next, rest);
      EntryPatch(s, pos, e);
      assert Located(es, pos)[1..] == Located(rest, next);
      assert PadAll(es)[1..] == PadAll(rest);
      PatchConcat(s, ConstantEdits(e.Shape(pos)), PoolEdits(Located(rest, next)), pos, next, pos + |Bytes(es)|);
    }
  }

  /** The scan of a pool pads exactly what the loader takes for an address: wherever these
      constants stand, the recorded edits turn their bytes into those of constants that the
      loader reads alike, but for four zero bytes in front of each address. */
  lemma PoolIsPadded(fmt: Format, s: seq<byte>, pos: nat, end: nat, es: seq<PoolEntry>)
    requires TokenIsLocal(fmt) && AllReadable(fmt, es) && pos <= end <= |s| && s[pos..end] == Bytes(es)
    ensures var cs := ReadPool(fmt, s, pos, end);
            cs.Some? && Within(PoolEdits(cs.value), pos, end)
            && Patch(s, PoolEdits(cs.value), pos, end) == Bytes(PadAll(es))
    ensures AllStand(fmt, PadAll(es)) && PadsAddresses(es, PadAll(es))
  {
    hide ReadPool, PoolGrowth, PoolEdits, Bytes, PadAll, Within, Patch, AllReadable, AllStand, TokenIsLocal, Located, PadsAddresses;
    assert s[pos..end] <= s[pos..];
    PoolIsScanned(fmt, s, pos, es);
    PoolPatch(s, pos, es);
    PaddedIsRead(fmt, es);
  }

  lemma ReadableNotEmpty(fmt: Format, e: PoolEntry)
    requires e.Readable(fmt)
    ensures |e.Bytes()| > 0
  {
  }

  lemma {:induction false} PatchTwo(s: seq<byte>, d: Diff, d': Diff, lo: nat, hi: nat)
    requires lo <= d.start <= d.end <= d'.start <= d'.end <= hi <= |s|
    ensures Within([d, d'], lo, hi)
    ensures Patch(s, [d, d'], lo, hi) == s[lo..d.start] + d.value + (s[d.end..d'.start] + d'.value + s[d'.end..hi])
  {
    assert [d, d'][1..] == [d'] && [d'][1..] == [];
    assert Within([], d'.end, hi) && Within([d'], d.end, hi);
    assert Patch(s, [], d'.end, hi) == s[d'.end..hi];
  }

  lemma {:induction false} EntryPatch(s: seq<byte>, pos: nat, e: PoolEntry)
    requires pos <= |s| && e.Bytes() <= s[pos..]
    ensures var next := pos + |e.Bytes()|;
            Within(ConstantEdits(e.Shape(pos)), pos, next)
            && Patch(s, ConstantEdits(e.Shape(pos)), pos, next) == e.Padded().Bytes()
  {
    hide Encode;
    var c, next := e.Shape(pos), pos + |e.Bytes()|;
    assert s[pos..next] == e.Bytes();
    if e.isAddress {
      hide Patch;
      assert s[pos..c.sizeAt] == s[pos..next][..|e.token|] == e.token;
      assert s[c.dataAt..next] == s[pos..next][c.dataAt - pos..] == e.data;
      PatchTwo(s, Diff(c.sizeAt, c.dataAt, Encode(c.size + 4)), Diff(c.dataAt, c.dataAt, PADDING), pos, next);
      assert s[c.dataAt..c.dataAt] + PADDING + e.data == PADDING + e.data;
      assert e.token + Encode(c.size + 4) + (PADDING + e.data) == e.Padded().Bytes();
    }
  }

  /** The padded pool is longer by the growth that the scan counts plus the drift of the
      size fields: the counted length is exact if and only if the drifts cancel out. */
  lemma {:induction false} PaddedPoolLength(es: seq<PoolEntry>)
    ensures |Bytes(PadAll(es))| == |Bytes(es)| + 4 * Addresses(es) + TotalDrift(es)
  {
    hide Encode;
    if es != [] {
      PaddedPoolLength(es[1..]);
      assert PadAll(es)[1..] == PadAll(es[1..]);
    }
  }

  /** The growth that the scan counts is that of the patched pool if, and only if, the size
      fields of the addresses keep their total length. */
  lemma PoolGrowthIsExact(fmt: Format, s: seq<byte>, pos: nat, end: nat, es: seq<PoolEntry>)
    requires TokenIsLocal(fmt) && AllReadable(fmt, es) && pos <= end <= |s| && s[pos..end] == Bytes(es)
    ensures ReadPool(fmt, s, pos, end) == Some(Located(es, pos))
    ensures Within(PoolEdits(Located(es, pos)), pos, end)
    ensures |Patch(s, PoolEdits(Located(es, pos)), pos, end)| == end - pos + PoolGrowth(Located(es, pos)) <==> TotalDrift(es) == 0
  {
    hide ReadPool, PoolGrowth, PoolEdits, Bytes, PadAll, Within, Patch, AllReadable, TotalDrift, Addresses, TokenIsLocal, Located;
    assert s[pos..end] <= s[pos..];
    PoolIsScanned(fmt, s, pos, es);
    PoolPatch(s, pos, es);
    PaddedPoolLength(es);
  }

  /** Address constants of at most 123 bytes whose size field is a single byte do not drift. */
  lemma {:induction false} ShortSizesDoNotDrift(es: seq<PoolEntry>)
    requires forall i :: 0 <= i < |es| && es[i].isAddress ==> |es[i].field| == 1 && |es[i].data| <= 123
    ensures TotalDrift(es) == 0
  {
    if es != [] {
      ShortSizesDoNotDrift(es[1..]);
    }
  }

  /** The count is wrong for an address constant of 124 bytes: its new size takes two bytes. */
  lemma LongAddressDrifts(token: seq<byte>, data: seq<byte>)
    requires |data| == 124
    ensures var e := PoolEntry(token, true, Encode(124), data);
            |e.Padded().Bytes()| == |e.Bytes()| + 5
  {
  }

  /** Such a pool as the scan reads it: whatever the token of an address looks like, it counts
      four bytes, and its edits lengthen the pool by five. */
  lemma LongAddressIsMiscounted(fmt: Format, token: seq<byte>, data: seq<byte>)
    requires TokenIsLocal(fmt) && Found(fmt, token, Token(true, |token|)) && |data| == 124
    ensures var s := token + [124] + data;
            var cs := [Constant(true, |token|, |token| + 1, 124)];
            ReadPool(fmt, s, 0, |s|) == Some(cs) && PoolGrowth(cs) == 4
            && Within(PoolEdits(cs), 0, |s|) && |Patch(s, PoolEdits(cs), 0, |s|)| == |s| + 5
  {
    hide ReadPool, PoolEdits, Within, Patch, ReadConstant, ReadToken, Read;
    var e := PoolEntry(token, true, [124], data);
    var s := e.Bytes();
    LongAddressIsRead(fmt, token, data);
    assert Encode(124) == [124];
    assert Bytes([e]) == s && s[0..] == s && PadAll([e]) == [e.Padded()] && Bytes([e.Padded()]) == e.Padded().Bytes();
    PoolIsScanned(fmt, s, 0, [e]);
    PoolPatch(s, 0, [e]);
    LongAddressDrifts(token, data);
    assert Located([e], 0) == [Constant(true, |token|, |token| + 1, 124)];
  }

  lemma LongAddressIsRead(fmt: Format, token: seq<byte>, data: seq<byte>)
    requires TokenIsLocal(fmt) && Found(fmt, token, Token(true, |token|)) && |data| == 124
    ensures PoolEntry(token, true, [124], data).Readable(fmt)
  {
    hide Read;
    assert Encode(124) == [124];
    ReadBack(124, data);
    assert token + [124] + data == token[..|token|] + ([124] + data);
  }
}
