/** Positions in rewritten text and in the source (lang/src/compiler/source_map.rs). A text
    is the sequence of its bytes, one character each. */
module SourceMap {
  import opened Wrappers

  const USIZE_RANGE: nat := 0x1_0000_0000_0000_0000
  const ISIZE_RANGE: nat := 0x8000_0000_0000_0000

  function AsIsize(n: nat): int {
    var m := n % USIZE_RANGE;
    if m < ISIZE_RANGE then m else m - USIZE_RANGE
  }

  function AsUsize(i: int): nat {
    i % USIZE_RANGE
  }

  /** A rewrite at or before `pos` that changed the length by `-offset`. */
  datatype Layer = Layer(pos: nat, offset: int) {
    function Translate(p: nat): nat {
      if p < pos then p else AsUsize(AsIsize(p) + offset)
    }
  }

  /** Undo the layers, the last first. */
  function Undo(layers: seq<Layer>, p: nat): nat {
    if layers == [] then p else Undo(layers[..|layers| - 1], layers[|layers| - 1].Translate(p))
  }

  lemma {:induction false} UndoSnoc(layers: seq<Layer>, layer: Layer, p: nat)
    ensures Undo(layers + [layer], p) == Undo(layers, layer.Translate(p))
  {
  }

  lemma {:induction false} UndoConcat(a: seq<Layer>, b: seq<Layer>, p: nat)
    ensures Undo(a + b, p) == Undo(a, Undo(b, p))
    decreases |b|
  {
    if b == [] {
      assert a + b == a;
    } else {
      var n := |b| - 1;
      assert (a + b)[..|a + b| - 1] == a + b[..n];
      UndoConcat(a, b[..n], b[n].Translate(p));
    }
  }

  function LenDifference(orig: string, replacement: string): int {
    |orig| - |replacement|
  }

  class FileOffsetMap {
    var layers: seq<Layer>
    var addressReplacements: seq<(string, string)>

    constructor ()
      ensures layers == [] && addressReplacements == []
    {
      layers := [];
      addressReplacements := [];
    }

    method InsertLayer(pos: nat, offset: int)
      modifies this`layers
      ensures layers == old(layers) + [Layer(pos, offset)]
    {
      layers := layers + [Layer(pos, offset)];
    }

    method InsertAddressLayer(originalEndPos: nat, original: string, replacement: string)
      modifies this
      ensures layers == old(layers) + [Layer(originalEndPos, LenDifference(original, replacement))]
      ensures addressReplacements == old(addressReplacements) + [(original, replacement)]
    {
      var lenDiff := LenDifference(original, replacement);
      InsertLayer(originalEndPos, lenDiff);
      addressReplacements := addressReplacements + [(original, replacement)];
    }

    method TranslatePos(pos: nat) returns (realPos: nat)
      ensures realPos == Undo(layers, pos)
    {
      realPos := pos;
      assert layers[..|layers|] == layers;
      for i := |layers| downto 0
        invariant Undo(layers[..i], realPos) == Undo(layers, pos)
      {
        assert layers[..i + 1][..i] == layers[..i];
        realPos := layers[i].Translate(realPos);
      }
    }

    /** Both ends of a span; the result is cut to 32 bits. */
    method TranslateSpan(start: nat, end: nat) returns (realStart: nat, realEnd: nat)
      ensures realStart == Undo(layers, start) % 0x1_0000_0000
      ensures realEnd == Undo(layers, end) % 0x1_0000_0000
    {
      var s := TranslatePos(start);
      var e := TranslatePos(end);
      realStart, realEnd := s % 0x1_0000_0000, e % 0x1_0000_0000;
    }
  }

  // ----- Where text comes from -----

  /** The replacement of `[start, end)` by `text`, recorded by a layer at `mark`. */
  datatype Edit = Edit(start: nat, end: nat, text: string, mark: nat)

  ghost predicate Fits(e: Edit, length: nat) {
    e.start < e.end <= length && 2 <= |e.text| && e.end - e.start <= |e.text|
    && e.start < e.mark <= e.start + |e.text|
  }

  /** A rewritten text. For each boundary between its characters, `origin` holds the boundary
      in the source that it was, or nothing strictly inside of replaced text. */
  datatype Traced = Traced(text: string, origin: seq<Option<nat>>, layers: seq<Layer>)

  ghost function Untouched(source: string): Traced {
    Traced(source, seq(|source| + 1, (i: nat) => Some(i)), [])
  }

  function Lost(n: nat): seq<Option<nat>> {
    seq(n, _ => None)
  }

  ghost function Edited(t: Traced, e: Edit): Traced {
    if !Fits(e, |t.text|) || |t.origin| != |t.text| + 1 then t
    else
      Traced(t.text[..e.start] + e.text + t.text[e.end..],
             t.origin[..e.start + 1] + Lost(|e.text| - 1) + t.origin[e.end..],
             t.layers + [Layer(e.mark, e.end - e.start - |e.text|)])
  }

  ghost function AllEdited(t: Traced, es: seq<Edit>): Traced {
    if es == [] then t else Edited(AllEdited(t, es[..|es| - 1]), es[|es| - 1])
  }

  lemma {:induction false} EditedSnoc(t: Traced, es: seq<Edit>, e: Edit)
    ensures AllEdited(t, es + [e]) == Edited(AllEdited(t, es), e)
  {
  }

  lemma {:induction false} EditedConcat(t: Traced, a: seq<Edit>, b: seq<Edit>)
    ensures AllEdited(t, a + b) == AllEdited(AllEdited(t, a), b)
    decreases |b|
  {
    if b == [] {
      assert a + b == a;
    } else {
      var n := |b| - 1;
      assert (a + b)[..|a + b| - 1] == a + b[..n];
      EditedConcat(t, a, b[..n]);
    }
  }

  // ----- Exactness -----

  /** The layers map every boundary back to where it was, and the text between boundaries
      that were not replaced is that of the source. */
  ghost predicate Exact(source: string, t: Traced) {
    |t.origin| == |t.text| + 1 && t.origin[0] == Some(0) && t.origin[|t.text|] == Some(|source|)
    && (forall i :: 0 <= i <= |t.text| ==> t.origin[i].Some? ==> Undo(t.layers, i) == t.origin[i].value <= |source|)
    && (forall i :: 0 <= i < |t.text| && t.origin[i].Some? && t.origin[i + 1].Some? ==> KeptAt(source, t, i))
  }

  ghost predicate KeptAt(source: string, t: Traced, i: nat)
    requires |t.origin| == |t.text| + 1 && i < |t.text| && t.origin[i].Some? && t.origin[i + 1].Some?
  {
    var j := t.origin[i].value;
    t.origin[i + 1].value == j + 1 && j < |source| && t.text[i] == source[j]
  }

  lemma UntouchedIsExact(source: string)
    ensures Exact(source, Untouched(source))
  {
  }

  /** A boundary of the edited text and the boundary it was before the edit. */
  lemma TranslateEdit(t: Traced, e: Edit, i: nat)
    requires Fits(e, |t.text|) && |t.origin| == |t.text| + 1
    requires |Edited(t, e).text| < ISIZE_RANGE && i <= |Edited(t, e).text|
    ensures var layer := Layer(e.mark, e.end - e.start - |e.text|);
            if i <= e.start then layer.Translate(i) == i && Edited(t, e).origin[i] == t.origin[i]
            else if i < e.start + |e.text| then Edited(t, e).origin[i].None?
            else var k := i - |e.text| + (e.end - e.start);
                 layer.Translate(i) == k && Edited(t, e).origin[i] == t.origin[k]
  {
  }

  lemma EditKeepsExact(source: string, t: Traced, e: Edit)
    requires Exact(source, t) && |Edited(t, e).text| < ISIZE_RANGE
    ensures Exact(source, Edited(t, e))
  {
    if Fits(e, |t.text|) {
      var t' := Edited(t, e);
      forall i | 0 <= i <= |t'.text| && t'.origin[i].Some?
        ensures Undo(t'.layers, i) == t'.origin[i].value <= |source|
      {
        MappedByEdit(source, t, e, i);
      }
      forall i | 0 <= i < |t'.text| && t'.origin[i].Some? && t'.origin[i + 1].Some?
        ensures KeptAt(source, t', i)
      {
        KeptByEdit(source, t, e, i);
      }
      TranslateEdit(t, e, 0);
      TranslateEdit(t, e, |t'.text|);
      hide Edited, KeptAt, Undo;
      EditedLength(t, e);
    }
  }

  lemma EditedLength(t: Traced, e: Edit)
    requires Fits(e, |t.text|) && |t.origin| == |t.text| + 1
    ensures |Edited(t, e).text| == |t.text| - (e.end - e.start) + |e.text|
    ensures |Edited(t, e).origin| == |Edited(t, e).text| + 1
  {
  }

  lemma MappedByEdit(source: string, t: Traced, e: Edit, i: nat)
    requires Exact(source, t) && |Edited(t, e).text| < ISIZE_RANGE && Fits(e, |t.text|)
    requires i <= |Edited(t, e).text| && Edited(t, e).origin[i].Some?
    ensures Undo(Edited(t, e).layers, i) == Edited(t, e).origin[i].value <= |source|
  {
    hide Undo, KeptAt, Layer.Translate;
    var layer := Layer(e.mark, e.end - e.start - |e.text|);
    TranslateEdit(t, e, i);
    UndoSnoc(t.layers, layer, i);
    EditedLayers(t, e);
  }

  lemma EditedLayers(t: Traced, e: Edit)
    requires Fits(e, |t.text|) && |t.origin| == |t.text| + 1
    ensures Edited(t, e).layers == t.layers + [Layer(e.mark, e.end - e.start - |e.text|)]
  {
  }

  lemma KeptByEdit(source: string, t: Traced, e: Edit, i: nat)
    requires Exact(source, t) && |Edited(t, e).text| < ISIZE_RANGE && Fits(e, |t.text|)
    requires i < |Edited(t, e).text| && Edited(t, e).origin[i].Some? && Edited(t, e).origin[i + 1].Some?
    ensures KeptAt(source, Edited(t, e), i)
  {
    hide Undo, Layer.Translate;
    TranslateEdit(t, e, i);
    TranslateEdit(t, e, i + 1);
    if i < e.start {
      assert KeptAt(source, t, i);
    } else {
      assert KeptAt(source, t, i - |e.text| + (e.end - e.start));
    }
  }

  /** After any number of rewrites, each over the result of the ones before, the map is exact. */
  lemma {:induction false} EditsKeepExact(source: string, t: Traced, es: seq<Edit>)
    requires Exact(source, t) && |AllEdited(t, es).text| < ISIZE_RANGE
    ensures Exact(source, AllEdited(t, es))
  {
    hide Exact, Edited;
    if es != [] {
      var before := AllEdited(t, es[..|es| - 1]);
      EditGrows(before, es[|es| - 1]);
      EditsKeepExact(source, t, es[..|es| - 1]);
      EditKeepsExact(source, before, es[|es| - 1]);
    }
  }

  lemma EditGrows(t: Traced, e: Edit)
    ensures |t.text| <= |Edited(t, e).text|
  {
  }
}
