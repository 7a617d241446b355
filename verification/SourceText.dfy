/** The text that is compiled and the positions that are reported: line endings, then the
    sender, then the addresses of the libra dialect (lang/src/compiler/parser.rs), and back
    (lang/src/compiler/source_map.rs, language_server/src/inner/db.rs). */
module SourceText {
  import opened Wrappers
  import opened SourceMap
  import LineEndings
  import SenderPlaceholder
  import LibraAddresses
  import opened Location

  /** The text after each pass, traced from the text with normalized line endings. */
  ghost predicate Rewritten(source: string, sender: Option<string>, senderEdits: seq<Edit>, addressEdits: seq<Edit>, final: Traced) {
    var normal := Untouched(LineEndings.Normal(source, 0));
    var named := AllEdited(normal, senderEdits);
    && (if sender.Some? then SenderPlaceholder.SenderEdits(normal, senderEdits, sender.value) else senderEdits == [])
    && LibraAddresses.AddressEdits(named, addressEdits)
    && final == AllEdited(named, addressEdits)
  }

  method NormalizeSourceText(source: string, sender: Option<string>)
    returns (text: string, fileSourceMap: FileOffsetMap, ghost final: Traced, ghost senderEdits: seq<Edit>, ghost addressEdits: seq<Edit>)
    requires sender.Some? ==> SenderPlaceholder.IsSender(sender.value)
    ensures var normal := LineEndings.Normal(source, 0);
            text == LibraAddresses.Expanded(if sender.Some? then SenderPlaceholder.SenderReplaced(normal, sender.value) else normal)
    ensures Rewritten(source, sender, senderEdits, addressEdits, final) && final.text == text
    ensures fileSourceMap.layers == LineEndings.LayersOf(LineEndings.Pairs(source, 0)) + final.layers
  {
    hide AllEdited, LibraAddresses.Expanded, SenderPlaceholder.SenderReplaced, LineEndings.Normal;
    text, fileSourceMap := LineEndings.Normalize(source);
    ghost var base := fileSourceMap.layers;
    final := Untouched(text);
    NothingEdited(final);
    senderEdits := [];
    if sender.Some? {
      text, senderEdits := SenderPlaceholder.ReplaceSenderPlaceholder(text, sender.value, fileSourceMap, final, base);
    }
    final := AllEdited(final, senderEdits);
    text, addressEdits := LibraAddresses.ReplaceLibraAddress(text, fileSourceMap, final, base);
    final := AllEdited(final, addressEdits);
  }

  lemma NothingEdited(t: Traced)
    ensures AllEdited(t, []) == t
  {
  }

  // ----- Exactness -----

  lemma RewritingIsExact(source: string, sender: Option<string>, senderEdits: seq<Edit>, addressEdits: seq<Edit>,
                         final: Traced)
    requires Rewritten(source, sender, senderEdits, addressEdits, final) && |final.text| < ISIZE_RANGE
    ensures Exact(LineEndings.Normal(source, 0), final)
  {
    hide Exact, LineEndings.Normal;
    var normal := LineEndings.Normal(source, 0);
    UntouchedIsExact(normal);
    EditedConcat(Untouched(normal), senderEdits, addressEdits);
    EditsKeepExact(normal, Untouched(normal), senderEdits + addressEdits);
  }

  /** Every boundary of the final text that is not inside of replaced text is mapped back
      through all layers to where the line-ending layers map its origin, and a character that
      was not replaced is that of the normalized source. */
  lemma PositionsGoBack(source: string, sender: Option<string>, senderEdits: seq<Edit>, addressEdits: seq<Edit>,
                        final: Traced, i: nat)
    requires Rewritten(source, sender, senderEdits, addressEdits, final) && |final.text| < ISIZE_RANGE
    requires i < |final.origin| && final.origin[i].Some?
    ensures |final.origin| == |final.text| + 1
    ensures var crlf, j := LineEndings.LayersOf(LineEndings.Pairs(source, 0)), final.origin[i].value;
            j <= |LineEndings.Normal(source, 0)| && Undo(crlf + final.layers, i) == Undo(crlf, j)
    ensures i < |final.text| && final.origin[i + 1].Some? ==> KeptAt(LineEndings.Normal(source, 0), final, i)
    ensures i == |final.text| ==> final.origin[i].value == |LineEndings.Normal(source, 0)|
  {
    RewritingIsExact(source, sender, senderEdits, addressEdits, final);
    UndoConcat(LineEndings.LayersOf(LineEndings.Pairs(source, 0)), final.layers, i);
  }

  /** The position in the source is right if, and only if, no CRLF pair lies at or before it
      in the normalized text but behind it in the source. */
  lemma {:induction false} PositionsAreExact(source: string, sender: Option<string>, senderEdits: seq<Edit>, addressEdits: seq<Edit>,
                                             final: Traced, i: nat)
    requires Rewritten(source, sender, senderEdits, addressEdits, final) && |final.text| < ISIZE_RANGE && |source| < ISIZE_RANGE
    requires i < |final.origin| && final.origin[i].Some?
    ensures var pairs, j := LineEndings.Pairs(source, 0), final.origin[i].value;
            Undo(LineEndings.LayersOf(pairs) + final.layers, i) == LineEndings.BoundaryIn(source, j)
            <==> !LineEndings.Misplaced(pairs, 0, j)
  {
    hide LineEndings.Normal, LineEndings.Pairs, LineEndings.BoundaryIn, LineEndings.LayersOf, Undo;
    PositionsGoBack(source, sender, senderEdits, addressEdits, final, i);
    LineEndings.PairLayersAreExact(source, final.origin[i].value);
  }

  // ----- Diagnostics -----

  /** The range of a diagnostic, or why there is none. */
  datatype Reported = Range(start: Position, end: Position) | NoSuchFile | NoSuchPosition

  /** `translate_span`, then `loc_to_range` on the text that the database has for the file. */
  method ReportedRange(availableFiles: map<string, string>, path: string, fileSourceMap: FileOffsetMap, start: nat, end: nat)
    returns (range: Reported)
    ensures range.NoSuchFile? <==> path !in availableFiles
    ensures path in availableFiles ==>
              var p := PositionOf(FileOf(availableFiles[path]), Undo(fileSourceMap.layers, start) % 0x1_0000_0000);
              var q := PositionOf(FileOf(availableFiles[path]), Undo(fileSourceMap.layers, end) % 0x1_0000_0000);
              range == if p.Ok? && q.Ok? then Range(p.value, q.value) else NoSuchPosition
  {
    var s, e := fileSourceMap.TranslateSpan(start, end);
    if path !in availableFiles {
      return NoSuchFile;
    }
    var file := FileOf(availableFiles[path]);
    var p := PositionOf(file, s);
    if p.OutOfBounds? {
      return NoSuchPosition;
    }
    var q := PositionOf(file, e);
    if q.OutOfBounds? {
      return NoSuchPosition;
    }
    range := Range(p.value, q.value);
  }

  /** In a source without CRLF, a position of the compiled text that is not inside of replaced
      text is reported at the line and the column of its origin in the source, and a
      character that was not replaced is the character there. */
  lemma DiagnosticsAreExact(source: string, sender: Option<string>, senderEdits: seq<Edit>, addressEdits: seq<Edit>,
                            final: Traced, i: nat)
    requires Rewritten(source, sender, senderEdits, addressEdits, final)
    requires |final.text| < ISIZE_RANGE && |source| < 0x1_0000_0000
    requires forall k :: 0 <= k < |source| ==> !LineEndings.PairAt(source, k)
    requires i < |final.origin| && final.origin[i].Some?
    ensures |final.origin| == |final.text| + 1
    ensures var j := final.origin[i].value;
            var layers := LineEndings.LayersOf(LineEndings.Pairs(source, 0)) + final.layers;
            j <= |source| && Undo(layers, i) == j
            && PositionOf(FileOf(source), Undo(layers, i) % 0x1_0000_0000) ==
               Ok(Position(LineBreaks(source, j), j - LineStartBefore(source, j)))
            && (i == |final.text| ==> j == |source|)
            && (i < |final.text| && final.origin[i + 1].Some? ==>
                  j < |source| && final.text[i] == if source[j] == LineEndings.CR then LineEndings.LF else source[j])
  {
    hide PositionOf, FileOf, LineBreaks, LineStartBefore, LineEndings.Normal, LineEndings.Pairs, LineEndings.LayersOf,
         Rewritten, Undo;
    PositionsGoBack(source, sender, senderEdits, addressEdits, final, i);
    LineEndings.NoPairs(source, 0);
    LineEndings.NoLayers();
    NothingUndone(final.origin[i].value);
    PositionIsRight(source, final.origin[i].value);
  }

  lemma {:induction false} NothingUndone(p: nat)
    ensures Undo([], p) == p
  {
  }
}
