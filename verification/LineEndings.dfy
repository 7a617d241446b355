/** Normalized line endings (lang/src/compiler/dialects/line_endings.rs): the iterator with
    one character of memory, and where its layers are right. */
module LineEndings {
  import opened Wrappers
  import opened SourceMap

  const CR := '\r'
  const LF := '\n'

  /** The text from position `i` on, each CRLF and each lone CR turned into one LF. */
  ghost function Normal(s: string, i: nat): string
    requires i <= |s|
    decreases |s| - i
  {
    if i == |s| then []
    else if s[i] == CR then [LF] + Normal(s, if PairAt(s, i) then i + 2 else i + 1)
    else [s[i]] + Normal(s, i + 1)
  }

  predicate PairAt(s: string, i: nat) {
    i + 1 < |s| && s[i] == CR && s[i + 1] == LF
  }

  /** The positions of the CRs of the pairs from `i` on, in order. */
  ghost function Pairs(s: string, i: nat): seq<nat>
    requires i <= |s|
    decreases |s| - i
  {
    if i == |s| then []
    else if PairAt(s, i) then [i] + Pairs(s, i + 2)
    else Pairs(s, i + 1)
  }

  /** One character per pair is dropped. */
  lemma {:induction false} NormalLength(s: string, i: nat)
    requires i <= |s|
    ensures |Normal(s, i)| + |Pairs(s, i)| == |s| - i
    decreases |s| - i
  {
    if i < |s| {
      NormalLength(s, if PairAt(s, i) then i + 2 else i + 1);
    }
  }

  ghost function LayersOf(cs: seq<nat>): seq<Layer> {
    seq(|cs|, i requires 0 <= i < |cs| => Layer(cs[i], 1))
  }

  lemma NoLayers()
    ensures LayersOf([]) == []
    ensures forall c: nat :: LayersOf([c]) == [Layer(c, 1)]
  {
  }

  lemma LayersConcat(a: seq<nat>, b: seq<nat>)
    ensures LayersOf(a + b) == LayersOf(a) + LayersOf(b)
  {
  }

  // ----- The iterator -----

  /** What the iterator knows: how much it has read, and whether the last was a CR. */
  datatype Lookahead = Lookahead(at: nat, afterCr: bool) {
    ghost predicate Valid(s: string) {
      at <= |s| && (afterCr ==> 0 < at && s[at - 1] == CR)
    }

    // The LF of a pair comes next; its CR is already turned into an LF.
    ghost predicate InPair(s: string)
      requires Valid(s)
    {
      afterCr && at < |s| && s[at] == LF
    }

    // Where the text that is still to be emitted starts.
    ghost function Pending(s: string): nat
      requires Valid(s)
    {
      if InPair(s) then at + 1 else at
    }

    // The pair that is recorded when its LF is read.
    ghost function Recorded(s: string): seq<nat>
      requires Valid(s)
    {
      if InPair(s) then [at - 1] else []
    }

    ghost function Emitted(s: string): Option<char>
      requires Valid(s)
    {
      var i := Pending(s);
      if i == |s| then None else Some(if s[i] == CR then LF else s[i])
    }

    ghost function Next(s: string): Lookahead
      requires Valid(s)
    {
      var i := Pending(s);
      if i == |s| then Lookahead(i, false) else Lookahead(i + 1, s[i] == CR)
    }
  }

  /** Each step emits the head of the normalized text and records the pairs in order. */
  lemma {:induction false} StepRefines(s: string, state: Lookahead)
    requires state.Valid(s)
    ensures state.Next(s).Valid(s)
    ensures Normal(s, state.Pending(s)) ==
            (if state.Emitted(s).Some? then [state.Emitted(s).value] else []) + Normal(s, state.Next(s).Pending(s))
    ensures Pairs(s, state.Pending(s)) == state.Next(s).Recorded(s) + Pairs(s, state.Next(s).Pending(s))
    ensures state.Emitted(s).None? ==> state.Next(s).Pending(s) == |s| && state.Next(s).Recorded(s) == []
  {
  }

  class NewNormalized {
    const source: string
    var chars: string
    var prevWasCarriageReturn: bool
    var pos: nat
    const sourceMap: FileOffsetMap

    constructor (source: string, sourceMap: FileOffsetMap)
      ensures this.source == source && this.sourceMap == sourceMap
      ensures Valid() && State() == Lookahead(0, false)
    {
      this.source := source;
      chars := source;
      prevWasCarriageReturn := false;
      pos := 0;
      this.sourceMap := sourceMap;
    }

    ghost predicate Valid()
      reads this
    {
      |chars| <= |source| && chars == source[|source| - |chars|..] && State().Valid(source)
      && (prevWasCarriageReturn || chars != [] ==> pos == |source| - |chars|)
    }

    ghost function State(): Lookahead
      requires |chars| <= |source|
      reads this
    {
      Lookahead(|source| - |chars|, prevWasCarriageReturn)
    }

    method InnerNext() returns (c: Option<char>)
      modifies this`pos, this`chars
      ensures chars == if old(chars) == [] then [] else old(chars)[1..]
      ensures c == if old(chars) == [] then None else Some(old(chars)[0])
      ensures pos == old(pos) + 1
    {
      pos := pos + 1;
      c := None;
      if chars != [] {
        c := Some(chars[0]);
        chars := chars[1..];
      }
    }

    method Next() returns (c: Option<char>)
      requires Valid()
      modifies this, sourceMap
      ensures Valid() && State() == old(State()).Next(source) && c == old(State()).Emitted(source)
      ensures sourceMap.layers == old(sourceMap.layers) + LayersOf(old(State()).Recorded(source))
    {
      hide LayersOf;
      NoLayers();
      c := InnerNext();
      if c == Some(LF) && prevWasCarriageReturn {
        sourceMap.InsertLayer(pos - 2, 1);
        c := InnerNext();
      }
      prevWasCarriageReturn := c == Some(CR);
      if prevWasCarriageReturn {
        c := Some(LF);
      }
    }
  }

  /** The text emitted so far and what is pending make up the normalized text, and likewise
      for the recorded pairs. */
  ghost predicate Accounted(s: string, text: string, recorded: seq<nat>, state: Lookahead) {
    state.Valid(s) && Normal(s, 0) == text + Normal(s, state.Pending(s))
    && Pairs(s, 0) == recorded + Pairs(s, state.Pending(s))
  }

  lemma StepAccounted(s: string, text: string, recorded: seq<nat>, state: Lookahead)
    requires Accounted(s, text, recorded, state) && state.Emitted(s).Some?
    ensures Accounted(s, text + [state.Emitted(s).value], recorded + state.Next(s).Recorded(s), state.Next(s))
  {
    hide Normal, Pairs;
    StepRefines(s, state);
    var rest, pairs := Normal(s, state.Next(s).Pending(s)), Pairs(s, state.Next(s).Pending(s));
    assert text + ([state.Emitted(s).value] + rest) == text + [state.Emitted(s).value] + rest;
    assert recorded + (state.Next(s).Recorded(s) + pairs) == recorded + state.Next(s).Recorded(s) + pairs;
  }

  lemma {:induction false} AllAccounted(s: string, text: string, recorded: seq<nat>, state: Lookahead)
    requires Accounted(s, text, recorded, state) && state.Emitted(s).None?
    ensures text == Normal(s, 0) && recorded == Pairs(s, 0)
  {
  }

  lemma NothingAccounted(s: string)
    ensures Accounted(s, [], [], Lookahead(0, false)) && Lookahead(0, false).Recorded(s) == []
  {
  }

  /** The normalized text and the layers of its pairs. */
  method Normalize(s: string) returns (text: string, sourceMap: FileOffsetMap)
    ensures fresh(sourceMap) && text == Normal(s, 0) && sourceMap.layers == LayersOf(Pairs(s, 0))
  {
    hide Normal, Pairs, LayersOf, Accounted;
    NoLayers();
    NothingAccounted(s);
    sourceMap := new FileOffsetMap();
    var normalized := new NewNormalized(s, sourceMap);
    text := "";
    ghost var recorded: seq<nat>, state := [], normalized.State();
    var c := normalized.Next();
    while c.Some?
      invariant normalized.Valid() && normalized.source == s && normalized.sourceMap == sourceMap && fresh(normalized)
      invariant state.Valid(s) && c == state.Emitted(s) && normalized.State() == state.Next(s)
      invariant Accounted(s, text, recorded, state) && sourceMap.layers == LayersOf(recorded)
      decreases |s| - state.at, c.Some?
    {
      StepAccounted(s, text, recorded, state);
      text := text + [c.value];
      state := state.Next(s);
      LayersConcat(recorded, state.Recorded(s));
      recorded := recorded + state.Recorded(s);
      c := normalized.Next();
    }
    AllAccounted(s, text, recorded, state);
  }

  // ----- Where the layers are right -----

  /** The source position of each emitted character; that of its LF for a pair. */
  ghost function Kept(s: string, i: nat): seq<nat>
    requires i <= |s|
    decreases |s| - i
  {
    if i == |s| then []
    else if PairAt(s, i) then [i + 1] + Kept(s, i + 2)
    else [i] + Kept(s, i + 1)
  }

  /** The source position of a boundary of the normalized text. */
  ghost function BoundaryIn(s: string, i: nat): nat {
    if i < |Kept(s, 0)| then Kept(s, 0)[i] else |s|
  }

  lemma {:induction false} KeptCharacters(s: string, i: nat)
    requires i <= |s|
    ensures |Kept(s, i)| == |Normal(s, i)|
    ensures forall k :: 0 <= k < |Kept(s, i)| ==>
              i <= Kept(s, i)[k] < |s| && Normal(s, i)[k] == var c := s[Kept(s, i)[k]]; if c == CR then LF else c
    decreases |s| - i
  {
    if i < |s| {
      KeptCharacters(s, if PairAt(s, i) then i + 2 else i + 1);
    }
  }

  /** How many of the positions are at most `p`. */
  ghost function CountUpTo(cs: seq<nat>, p: nat): nat {
    if cs == [] then 0 else (if cs[0] <= p then 1 else 0) + CountUpTo(cs[1..], p)
  }

  /** How many are at most `p` in the coordinates of the normalized text, where `dropped`
      characters are missing before the first. */
  ghost function CountDropped(cs: seq<nat>, dropped: nat, p: nat): nat {
    if cs == [] then 0 else (if cs[0] - dropped <= p then 1 else 0) + CountDropped(cs[1..], dropped + 1, p)
  }

  ghost predicate Spread(cs: seq<nat>, from: nat) {
    cs == [] || (from <= cs[0] && Spread(cs[1..], cs[0] + 2))
  }

  lemma {:induction false} PairsAreSpread(s: string, i: nat)
    requires i <= |s|
    ensures Spread(Pairs(s, i), i) && forall k :: 0 <= k < |Pairs(s, i)| ==> i <= Pairs(s, i)[k] < |s|
    decreases |s| - i
  {
    if i < |s| {
      PairsAreSpread(s, if PairAt(s, i) then i + 2 else i + 1);
    }
  }

  lemma {:induction false} NoneUpTo(cs: seq<nat>, from: nat, p: nat)
    requires Spread(cs, from) && p < from
    ensures CountUpTo(cs, p) == 0
  {
    if cs != [] {
      NoneUpTo(cs[1..], cs[0] + 2, p);
    }
  }

  lemma {:induction false} NoneDropped(cs: seq<nat>, from: nat, dropped: nat, p: nat)
    requires Spread(cs, from) && p + dropped < from
    ensures CountDropped(cs, dropped, p) == 0
  {
    if cs != [] {
      NoneDropped(cs[1..], cs[0] + 2, dropped + 1, p);
    }
  }

  lemma {:induction false} CountSnoc(cs: seq<nat>, c: nat, p: nat)
    ensures CountUpTo(cs + [c], p) == CountUpTo(cs, p) + if c <= p then 1 else 0
  {
    if cs == [] {
      assert [c][1..] == [];
    } else {
      assert (cs + [c])[1..] == cs[1..] + [c];
      CountSnoc(cs[1..], c, p);
    }
  }

  lemma {:induction false} CountAll(cs: seq<nat>, p: nat)
    requires forall i :: 0 <= i < |cs| ==> cs[i] <= p
    ensures CountUpTo(cs, p) == |cs|
  {
    if cs != [] {
      CountAll(cs[1..], p);
    }
  }

  ghost predicate Increasing(cs: seq<nat>) {
    forall i, j :: 0 <= i < j < |cs| ==> cs[i] < cs[j]
  }

  lemma {:induction false} SpreadIncreases(cs: seq<nat>, from: nat)
    requires Spread(cs, from)
    ensures Increasing(cs) && forall i :: 0 <= i < |cs| ==> from <= cs[i]
  {
    if cs != [] {
      SpreadIncreases(cs[1..], cs[0] + 2);
      assert forall i :: 0 < i < |cs| ==> cs[i] == cs[1..][i - 1];
    }
  }

  /** The layers add one per pair that is at most the position itself. */
  lemma {:induction false} UndoPairs(cs: seq<nat>, p: nat)
    requires Increasing(cs) && p + |cs| < ISIZE_RANGE
    ensures Undo(LayersOf(cs), p) == p + CountUpTo(cs, p)
    decreases |cs|
  {
    hide Undo, LayersOf, CountUpTo;
    if cs == [] {
      NothingUndone(p);
    } else {
      var n := |cs| - 1;
      var front := cs[..n];
      assert cs == front + [cs[n]];
      UndoLast(front, cs[n], p);
      CountSnoc(front, cs[n], p);
      if p < cs[n] {
        UndoPairs(front, p);
      } else {
        UndoPairs(front, p + 1);
        CountAll(front, p);
        CountAll(front, p + 1);
      }
    }
  }

  lemma {:induction false} NothingUndone(p: nat)
    ensures Undo(LayersOf([]), p) == p && CountUpTo([], p) == 0
  {
  }

  lemma UndoLast(cs: seq<nat>, c: nat, p: nat)
    requires p + 1 < ISIZE_RANGE
    ensures Undo(LayersOf(cs + [c]), p) == Undo(LayersOf(cs), if p < c then p else p + 1)
  {
    hide LayersOf, Undo;
    NoLayers();
    LayersConcat(cs, [c]);
    UndoSnoc(LayersOf(cs), Layer(c, 1), p);
  }

  lemma {:induction false} DroppedShift(cs: seq<nat>, dropped: nat, p: nat)
    ensures CountDropped(cs, dropped + 1, p) == CountDropped(cs, dropped, p + 1)
  {
    if cs != [] {
      DroppedShift(cs[1..], dropped + 1, p);
    }
  }

  /** The true position counts the pairs in the coordinates of the normalized text. */
  lemma {:induction false} KeptPosition(s: string, a: nat, i: nat)
    requires a <= |s| && i < |Kept(s, a)|
    ensures Kept(s, a)[i] == a + i + CountDropped(Pairs(s, a), 0, a + i)
    decreases |s| - a
  {
    var cs := Pairs(s, a);
    PairsAreSpread(s, a);
    if PairAt(s, a) {
      PairsAreSpread(s, a + 2);
      assert cs[1..] == Pairs(s, a + 2);
      if i == 0 {
        NoneDropped(cs[1..], a + 2, 1, a);
      } else {
        KeptPosition(s, a + 2, i - 1);
        DroppedShift(cs[1..], 0, a + i);
      }
    } else if i == 0 {
      PairsAreSpread(s, a + 1);
      NoneDropped(cs, a + 1, 0, a);
    } else {
      KeptPosition(s, a + 1, i - 1);
    }
  }

  lemma {:induction false} AllDropped(s: string, a: nat)
    requires a <= |s|
    ensures CountDropped(Pairs(s, a), 0, a + |Kept(s, a)|) == |Pairs(s, a)|
    decreases |s| - a
  {
    var p := a + |Kept(s, a)|;
    if a < |s| {
      if PairAt(s, a) {
        AllDropped(s, a + 2);
        assert Pairs(s, a)[1..] == Pairs(s, a + 2);
        DroppedShift(Pairs(s, a + 2), 0, p);
      } else {
        AllDropped(s, a + 1);
      }
    }
  }

  /** Some pair lies at or before `p` in the normalized text, but behind it in the source. */
  ghost predicate Misplaced(cs: seq<nat>, dropped: nat, p: nat) {
    exists k :: 0 <= k < |cs| && cs[k] - (dropped + k) <= p < cs[k]
  }

  lemma {:induction false} CountsAgree(cs: seq<nat>, dropped: nat, p: nat)
    ensures CountUpTo(cs, p) <= CountDropped(cs, dropped, p)
    ensures CountUpTo(cs, p) == CountDropped(cs, dropped, p) <==> !Misplaced(cs, dropped, p)
  {
    if cs != [] {
      CountsAgree(cs[1..], dropped + 1, p);
      MisplacedCons(cs, dropped, p);
    }
  }

  lemma MisplacedCons(cs: seq<nat>, dropped: nat, p: nat)
    requires cs != []
    ensures Misplaced(cs, dropped, p) <==> (cs[0] - dropped <= p < cs[0] || Misplaced(cs[1..], dropped + 1, p))
  {
  }

  /** A boundary of the normalized text is mapped back to where it was if, and only if, no
      pair lies at or before it in the normalized text but behind it in the source: with `k`
      pairs before it, the last `k` characters of the positions are at stake. Otherwise it is
      mapped too far to the front. */
  lemma {:induction false} PairLayersAreExact(s: string, i: nat)
    requires i <= |Normal(s, 0)| && |s| < ISIZE_RANGE
    ensures var p := Undo(LayersOf(Pairs(s, 0)), i);
            p <= BoundaryIn(s, i) && (p == BoundaryIn(s, i) <==> !Misplaced(Pairs(s, 0), 0, i))
  {
    hide Undo, LayersOf, Pairs, Normal, Kept, Misplaced, CountUpTo, CountDropped, Increasing, Spread;
    var cs := Pairs(s, 0);
    NormalLength(s, 0);
    KeptCharacters(s, 0);
    PairsAreSpread(s, 0);
    SpreadIncreases(cs, 0);
    UndoPairs(cs, i);
    CountsAgree(cs, 0, i);
    if i < |Kept(s, 0)| {
      KeptPosition(s, 0, i);
    } else {
      AllDropped(s, 0);
    }
  }

  /** In three empty CRLF lines before a character, the character is taken for an LF. */
  lemma ThirdLineIsMisplaced()
    ensures var s := "\r\n\r\n\r\na";
            Normal(s, 0) == "\n\n\na" && BoundaryIn(s, 3) == 6 && Undo(LayersOf(Pairs(s, 0)), 3) == 5
  {
    hide Undo, LayersOf;
    var s := "\r\n\r\n\r\na";
    assert Normal(s, 6) == "a" && Kept(s, 6) == [6] && Pairs(s, 6) == [];
    assert Normal(s, 4) == "\na" && Kept(s, 4) == [5, 6] && Pairs(s, 4) == [4];
    assert Normal(s, 2) == "\n\na" && Kept(s, 2) == [3, 5, 6] && Pairs(s, 2) == [2, 4];
    assert Normal(s, 0) == "\n\n\na" && Kept(s, 0) == [1, 3, 5, 6] && Pairs(s, 0) == [0, 2, 4];
    UndoPairs([0, 2, 4], 3);
    assert [0, 2, 4][1..] == [2, 4] && [2, 4][1..] == [4];
  }

  /** Without pairs nothing moves. */
  lemma {:induction false} NoPairs(s: string, i: nat)
    requires i <= |s| && forall k :: i <= k < |s| ==> !PairAt(s, k)
    ensures Pairs(s, i) == [] && |Normal(s, i)| == |s| - i
    ensures forall k :: 0 <= k < |s| - i ==> Normal(s, i)[k] == if s[i + k] == CR then LF else s[i + k]
    decreases |s| - i
  {
    if i < |s| {
      NoPairs(s, i + 1);
    }
  }
}
