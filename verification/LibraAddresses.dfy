/** The address pass of the libra dialect (lang/src/compiler/dialects/libra/addresses.rs):
    literals of 1 to 32 hexadecimal digits are padded to 40. */
module LibraAddresses {
  import opened Wrappers
  import opened SourceMap

  predicate HexDigit(c: char) {
    '0' <= c <= '9' || 'a' <= c <= 'f'
  }

  /** The number of hexadecimal digits that the text starts with. */
  function Run(s: string): (n: nat)
    ensures n <= |s| && (forall i :: 0 <= i < n ==> HexDigit(s[i])) && (n < |s| ==> !HexDigit(s[n]))
  {
    if s == [] || !HexDigit(s[0]) then 0 else 1 + Run(s[1..])
  }

  /** The text starts with a match of `(0x[0-9a-f]{1,32})[^0-9a-f]`. */
  predicate Literal(s: string) {
    2 <= |s| && s[0] == '0' && s[1] == 'x' && 1 <= Run(s[2..]) <= 32 && 2 + Run(s[2..]) < |s|
  }

  /** The start of the leftmost match. */
  function FindLiteral(s: string): (r: Option<nat>)
    ensures r.Some? ==> r.value <= |s| && Literal(s[r.value..])
    ensures r.None? ==> forall i :: 0 <= i <= |s| ==> !Literal(s[i..])
    ensures r.Some? ==> forall i :: 0 <= i < r.value ==> !Literal(s[i..])
  {
    if Literal(s) then Some(0)
    else if s == [] then None
    else
      var rest := FindLiteral(s[1..]);
      assert forall i :: 1 <= i <= |s| ==> s[i..] == s[1..][i - 1..];
      if rest.None? then None else Some(rest.value + 1)
  }

  function Zeros(n: nat): string {
    seq(n, _ => '0')
  }

  // Parse a hexadecimal literal of at most 16 bytes and show its 32 digits.
  function Padded(literal: string): string
    requires 2 <= |literal| <= 34
  {
    Zeros(34 - |literal|) + literal[2..]
  }

  function Replacement(literal: string): string
    requires 2 <= |literal| <= 34
  {
    "0x00000000" + Padded(literal)
  }

  function DigitValue(c: char): nat
    requires HexDigit(c)
  {
    if '0' <= c <= '9' then c as int - '0' as int else c as int - 'a' as int + 10
  }

  ghost function HexValue(s: string): nat
    requires forall i :: 0 <= i < |s| ==> HexDigit(s[i])
  {
    if s == [] then 0 else 16 * HexValue(s[..|s| - 1]) + DigitValue(s[|s| - 1])
  }

  /** The padded address has 20 bytes and the value of the literal. */
  lemma ReplacementKeepsValue(literal: string)
    requires 3 <= |literal| <= 34 && forall i :: 2 <= i < |literal| ==> HexDigit(literal[i])
    ensures var r := Replacement(literal);
            |r| == 42 && r[..2] == "0x" && (forall i :: 2 <= i < 42 ==> HexDigit(r[i]))
            && HexValue(r[2..]) == HexValue(literal[2..])
  {
    var zeros, digits := Zeros(42 - |literal|), literal[2..];
    assert Replacement(literal)[2..] == zeros + digits;
    LeadingZeros(42 - |literal|, digits);
  }

  lemma {:induction false} LeadingZeros(n: nat, s: string)
    requires forall i :: 0 <= i < |s| ==> HexDigit(s[i])
    ensures HexValue(Zeros(n) + s) == HexValue(s)
    decreases n + |s|
  {
    var all := Zeros(n) + s;
    if s != [] {
      assert all[..|all| - 1] == Zeros(n) + s[..|s| - 1];
      LeadingZeros(n, s[..|s| - 1]);
    } else if n > 0 {
      assert all[..|all| - 1] == Zeros(n - 1) + s;
      LeadingZeros(n - 1, s);
    }
  }

  /** The text with zeros put behind each `0x` that starts a literal of the source. */
  ghost function Expanded(s: string): string {
    if s == [] then []
    else if Literal(s) then "0x" + Zeros(40 - Run(s[2..])) + Expanded(s[2..])
    else [s[0]] + Expanded(s[1..])
  }

  /** How many positions start a literal; literals may overlap, as in `0x0x1;`. */
  ghost function Literals(s: string): nat {
    if s == [] then 0 else (if Literal(s) then 1 else 0) + Literals(s[1..])
  }

  // ----- One replacement -----

  /** The leftmost literal, replaced in place. */
  ghost function Widened(s: string, a: nat): string
    requires a <= |s| && Literal(s[a..])
  {
    s[..a + 2] + Zeros(40 - Run(s[a..][2..])) + s[a + 2..]
  }

  lemma WidenedIsReplaced(s: string, a: nat)
    requires a <= |s| && Literal(s[a..])
    ensures var end := a + 2 + Run(s[a..][2..]);
            end < |s| && Widened(s, a) == s[..a] + Replacement(s[a..end]) + s[end..]
  {
    var d := Run(s[a..][2..]);
    var end := a + 2 + d;
    assert s[a..][0] == s[a] && s[a..][1] == s[a + 1];
    assert s[a..end][2..] == s[a + 2..end];
    assert Zeros(8) + Zeros(34 - |s[a..end]|) == Zeros(40 - d);
    assert "0x00000000" == "0x" + Zeros(8);
    assert s[..a + 2] == s[..a] + "0x";
    assert s[a + 2..] == s[a + 2..end] + s[end..];
  }

  /** Widening behind the start of the text does not make a literal there. */
  lemma NoLiteralBefore(s: string, a: nat)
    requires 0 < a <= |s| && Literal(s[a..]) && !Literal(s)
    ensures !Literal(Widened(s, a))
  {
  }

  lemma {:induction false} RunOfZeros(n: nat, s: string)
    ensures Run(Zeros(n) + s) == n + Run(s)
  {
    if n == 0 {
      assert Zeros(0) + s == s;
    } else {
      assert (Zeros(n) + s)[1..] == Zeros(n - 1) + s;
      RunOfZeros(n - 1, s);
    }
  }

  /** Zeros in front of a digit start no literal. */
  lemma {:induction false} ZerosAreKept(n: nat, s: string)
    requires s != [] && s[0] != 'x'
    ensures Expanded(Zeros(n) + s) == Zeros(n) + Expanded(s) && Literals(Zeros(n) + s) == Literals(s)
  {
    hide Expanded, Literals;
    if n == 0 {
      assert Zeros(0) + s == s && Zeros(0) + Expanded(s) == Expanded(s);
    } else {
      var z := Zeros(n) + s;
      assert z[1..] == Zeros(n - 1) + s;
      assert !Literal(z);
      ZerosAreKept(n - 1, s);
      CharIsKept(z);
      assert Zeros(n) == ['0'] + Zeros(n - 1);
      assert ['0'] + (Zeros(n - 1) + Expanded(s)) == ['0'] + Zeros(n - 1) + Expanded(s);
    }
  }

  lemma {:induction false} CharIsKept(s: string)
    requires s != [] && !Literal(s)
    ensures Expanded(s) == [s[0]] + Expanded(s[1..]) && Literals(s) == Literals(s[1..])
  {
  }

  /** A widened literal is no literal any more; the positions behind are as before. */
  lemma WidenedHere(s: string)
    requires Literal(s)
    ensures Expanded(Widened(s, 0)) == Expanded(s) && Literals(Widened(s, 0)) == Literals(s) - 1
  {
    var rest, zeros := s[2..], Zeros(40 - Run(s[2..]));
    var s' := Widened(s, 0);
    WidenedParts(s);
    RunOfZeros(40 - Run(rest), rest);
    ZerosAreKept(40 - Run(rest), rest);
    CharIsKept(s');
    CharIsKept(s'[1..]);
    CharIsKept(s[1..]);
    LiteralIsExpanded(s);
    hide Expanded, Literals, Literal, Run, Widened;
    assert ['0'] + (['x'] + (zeros + Expanded(rest))) == "0x" + zeros + Expanded(rest);
  }

  lemma LiteralIsExpanded(s: string)
    requires Literal(s)
    ensures Expanded(s) == "0x" + Zeros(40 - Run(s[2..])) + Expanded(s[2..])
    ensures Literals(s) == 1 + Literals(s[1..])
  {
  }

  lemma WidenedParts(s: string)
    requires Literal(s)
    ensures s[0..] == s && s[2..] != [] && s[2..][0] != 'x' && s[1..][1..] == s[2..] && !Literal(s[1..])
    ensures var s', rest := Widened(s, 0), Zeros(40 - Run(s[2..])) + s[2..];
            |s'| > 2 && s'[0] == '0' && s'[1] == 'x' && s'[1..][0] == 'x' && s'[2..] == rest && s'[1..][1..] == rest
            && !Literal(s'[1..]) && (Run(rest) >= 40 ==> !Literal(s'))
  {
  }

  lemma WidenedTail(s: string, a: nat)
    requires 0 < a <= |s| && Literal(s[a..])
    ensures a - 1 <= |s[1..]| && s[1..][a - 1..] == s[a..] && Widened(s, a) == [s[0]] + Widened(s[1..], a - 1)
    ensures Widened(s, a)[0] == s[0] && Widened(s, a)[1..] == Widened(s[1..], a - 1)
  {
  }

  /** Replacing the leftmost literal keeps the expansion and lowers the number of literals. */
  lemma {:induction false} LeftmostWidened(s: string, a: nat)
    requires a <= |s| && Literal(s[a..]) && forall i :: 0 <= i < a ==> !Literal(s[i..])
    ensures Expanded(Widened(s, a)) == Expanded(s) && Literals(Widened(s, a)) == Literals(s) - 1
    decreases a
  {
    assert s[0..] == s;
    if a == 0 {
      WidenedHere(s);
    } else {
      var rest := s[1..];
      assert rest[a - 1..] == s[a..];
      forall i | 0 <= i < a - 1 ensures !Literal(rest[i..]) {
        assert rest[i..] == s[i + 1..];
      }
      LeftmostWidened(rest, a - 1);
      NoLiteralBefore(s, a);
      WidenedTail(s, a);
      CharIsKept(s);
      CharIsKept(Widened(s, a));
    }
  }

  lemma {:induction false} NothingExpanded(s: string)
    requires FindLiteral(s).None?
    ensures Expanded(s) == s
  {
    assert s[0..] == s;
    if s != [] {
      forall i | 0 <= i <= |s[1..]| ensures !Literal(s[1..][i..]) {
        assert s[1..][i..] == s[i + 1..];
      }
      NothingExpanded(s[1..]);
    }
  }

  /** No literal of at most 32 digits is left, so the pass has nothing more to do. */
  lemma {:induction false} ExpandedIsFinal(s: string)
    ensures FindLiteral(Expanded(s)).None? && Expanded(Expanded(s)) == Expanded(s)
    decreases Literals(s)
  {
    var r := FindLiteral(s);
    if r.None? {
      NothingExpanded(s);
    } else {
      LeftmostWidened(s, r.value);
      ExpandedIsFinal(Widened(s, r.value));
    }
  }

  // ----- The pass, by positions -----

  /** At `a` stands a match of `(0x[0-9a-f]{1,32})[^0-9a-f]` with `n` digits. */
  ghost predicate MatchAt(s: string, a: int, n: nat) {
    0 <= a && 1 <= n <= 32 && a + 2 + n < |s| && s[a..a + 2] == "0x"
    && (forall i :: a + 2 <= i < a + 2 + n ==> s[i] in "0123456789abcdef")
    && s[a + 2 + n] !in "0123456789abcdef"
  }

  lemma DigitsWrittenOut(c: char)
    ensures HexDigit(c) <==> c in "0123456789abcdef"
  {
    if '0' <= c <= '9' {
      assert c == "0123456789abcdef"[c as int - '0' as int];
    } else if 'a' <= c <= 'f' {
      assert c == "0123456789abcdef"[10 + c as int - 'a' as int];
    }
  }

  lemma {:induction false} RunIsUnique(s: string, n: nat)
    requires n <= |s| && (forall i :: 0 <= i < n ==> HexDigit(s[i])) && (n < |s| ==> !HexDigit(s[n]))
    ensures Run(s) == n
  {
  }

  /** The pass finds exactly these matches. */
  lemma LiteralIsMatch(s: string, a: nat)
    requires a <= |s|
    ensures forall n: nat :: MatchAt(s, a, n) <==> Literal(s[a..]) && n == Run(s[a..][2..])
  {
    forall c ensures HexDigit(c) <==> c in "0123456789abcdef" {
      DigitsWrittenOut(c);
    }
    hide HexDigit;
    forall n: nat ensures MatchAt(s, a, n) <==> Literal(s[a..]) && n == Run(s[a..][2..]) {
      if MatchAt(s, a, n) {
        MatchIsRun(s, a, n);
      } else if Literal(s[a..]) && n == Run(s[a..][2..]) {
        RunIsMatch(s, a, n);
        assert false;
      }
    }
  }

  lemma MatchIsRun(s: string, a: nat, n: nat)
    requires MatchAt(s, a, n) && forall c :: HexDigit(c) <==> c in "0123456789abcdef"
    ensures Literal(s[a..]) && n == Run(s[a..][2..])
  {
    hide HexDigit;
    var t := s[a..];
    assert t[0] == s[a..a + 2][0] && t[1] == s[a..a + 2][1];
    assert forall i :: 0 <= i <= n ==> t[2..][i] == s[a + 2 + i];
    RunIsUnique(t[2..], n);
  }

  lemma RunIsMatch(s: string, a: nat, n: nat)
    requires a <= |s| && Literal(s[a..]) && n == Run(s[a..][2..])
    requires forall c :: HexDigit(c) <==> c in "0123456789abcdef"
    ensures MatchAt(s, a, n)
  {
    hide HexDigit;
    var t := s[a..];
    assert s[a..a + 2] == [t[0], t[1]];
    assert forall i :: 0 <= i <= n ==> t[2..][i] == s[a + 2 + i];
  }

  /** What is put behind a `0x` at `a`: `40 - n` zeros if a match of `n` digits starts there. */
  ghost function PutBehind(s: string, a: int): string {
    if exists n: nat :: MatchAt(s, a, n) then
      var n: nat :| MatchAt(s, a, n);
      seq(40 - n, _ => '0')
    else ""
  }

  /** The text from position `i` on, with these zeros in it. */
  ghost function WithZeros(s: string, i: nat): string
    requires i <= |s|
    decreases |s| - i
  {
    if i == |s| then "" else PutBehind(s, i - 2) + ([s[i]] + WithZeros(s, i + 1))
  }

  lemma NothingPut(s: string, a: int)
    requires a <= |s| && (a < 0 || !Literal(s[a..]))
    ensures PutBehind(s, a) == ""
  {
    hide Literal, Run;
    if a >= 0 {
      LiteralIsMatch(s, a);
    }
  }

  lemma ZerosPut(s: string, a: nat)
    requires a <= |s| && Literal(s[a..])
    ensures PutBehind(s, a) == Zeros(40 - Run(s[a..][2..]))
  {
    hide Literal, MatchAt;
    LiteralIsShort(s, a);
    LiteralIsMatch(s, a);
    assert MatchAt(s, a, Run(s[a..][2..]));
  }

  lemma NoOverlap(s: string, a: nat)
    requires a <= |s| && Literal(s[a..])
    ensures |s| > a + 2 && !Literal(s[a + 1..])
    ensures Expanded(s[a..]) == [s[a]] + ([s[a + 1]] + (Zeros(40 - Run(s[a..][2..])) + Expanded(s[a + 2..])))
  {
    hide Run;
    assert s[a..][1] == s[a + 1..][0] && s[a..][2..] == s[a + 2..];
    LiteralIsExpanded(s[a..]);
    var z, e := Zeros(40 - Run(s[a..][2..])), Expanded(s[a + 2..]);
    hide Expanded, Literal;
    assert "0x" + z + e == ['0'] + (['x'] + (z + e));
  }

  lemma {:induction false} ExpandedFrom(s: string, i: nat)
    requires i < |s| && (i == 0 || !Literal(s[i - 1..]))
    ensures WithZeros(s, i) == PutBehind(s, i - 2) + Expanded(s[i..])
    decreases |s| - i
  {
    hide Literal, Run, PutBehind, Expanded;
    NothingPut(s, i - 1);
    if Literal(s[i..]) {
      NoOverlap(s, i);
      ExpandedFrom(s, i + 2);
      ZerosPut(s, i);
      OneWithoutZeros(s, i + 1);
    } else {
      assert s[i..][1..] == s[i + 1..];
      CharIsKept(s[i..]);
      if i + 1 == |s| {
        NothingExpanded("") by {
          EmptyIsNoLiteral("");
        }
      } else {
        ExpandedFrom(s, i + 1);
        assert "" + Expanded(s[i + 1..]) == Expanded(s[i + 1..]);
      }
    }
  }

  lemma OneWithoutZeros(s: string, i: nat)
    requires i < |s| && PutBehind(s, i - 2) == ""
    ensures WithZeros(s, i) == [s[i]] + WithZeros(s, i + 1)
  {
    hide PutBehind;
    assert "" + ([s[i]] + WithZeros(s, i + 1)) == [s[i]] + WithZeros(s, i + 1);
  }

  lemma EmptyIsNoLiteral(s: string)
    requires s == ""
    ensures FindLiteral(s).None?
  {
  }

  /** The pass puts these zeros and changes nothing else, and no match is left. */
  lemma PassIsExact(s: string)
    ensures Expanded(s) == WithZeros(s, 0)
    ensures forall a, n: nat :: !MatchAt(Expanded(s), a, n)
  {
    hide Literal, Run, Expanded, WithZeros, MatchAt;
    assert s[0..] == s;
    FromTheStart(s);
    ExpandedIsFinal(s);
    var t := Expanded(s);
    forall a, n: nat ensures !MatchAt(t, a, n) {
      if 0 <= a <= |t| {
        LiteralIsMatch(t, a);
      } else {
        OutsideIsNoMatch(t, a, n);
      }
    }
  }

  lemma FromTheStart(s: string)
    ensures Expanded(s) == WithZeros(s, 0)
  {
    if s != "" {
      hide Expanded, WithZeros, Literal, Run, PutBehind;
      assert s[0..] == s;
      ExpandedFrom(s, 0);
      NothingPut(s, -2);
      assert "" + Expanded(s) == Expanded(s);
    }
  }

  lemma OutsideIsNoMatch(s: string, a: int, n: nat)
    requires !(0 <= a <= |s|)
    ensures !MatchAt(s, a, n)
  {
  }

  // ----- The rewrite loop -----

  /** The edit puts the padded form in the place of a literal. */
  ghost predicate AddressEdit(text: string, e: Edit) {
    Fits(e, |text|) && Literal(text[e.start..]) && e.end == e.start + 2 + Run(text[e.start..][2..])
    && e.end - e.start <= 34 && e.text == Replacement(text[e.start..e.end])
  }

  ghost predicate AddressEdits(t: Traced, es: seq<Edit>) {
    es == [] || (AddressEdits(t, es[..|es| - 1]) && AddressEdit(AllEdited(t, es[..|es| - 1]).text, es[|es| - 1]))
  }

  /** The text is the traced text after edits of the pass. */
  ghost predicate Recorded(t: Traced, es: seq<Edit>, text: string) {
    AddressEdits(t, es) && |AllEdited(t, es).origin| == |text| + 1 && AllEdited(t, es).text == text
  }

  // The layer stands at the end of the literal, as it was before it grew.
  ghost function LiteralEdit(a: nat, end: nat, literal: string): Edit
    requires 2 <= |literal| <= 34
  {
    Edit(a, end, Replacement(literal), end)
  }

  lemma {:induction false} NothingRecorded(t: Traced, text: string)
    requires t.text == text && |t.origin| == |text| + 1
    ensures Recorded(t, [], text) && AllEdited(t, []) == t
  {
  }

  lemma LiteralEdited(t: Traced, a: nat, end: nat)
    requires |t.origin| == |t.text| + 1 && a <= |t.text| && Literal(t.text[a..]) && end == a + 2 + Run(t.text[a..][2..]) < |t.text|
    ensures var literal := t.text[a..end];
            var e := LiteralEdit(a, end, literal);
            AddressEdit(t.text, e) && |Edited(t, e).origin| == |Edited(t, e).text| + 1
            && Edited(t, e).text == t.text[..a] + Replacement(literal) + t.text[end..]
            && Edited(t, e).layers == t.layers + [Layer(end, LenDifference(literal, Replacement(literal)))]
  {
  }

  lemma RecordedOnce(t: Traced, es: seq<Edit>, text: string, a: nat, end: nat, base: seq<Layer>)
    requires Recorded(t, es, text) && a <= |text| && Literal(text[a..]) && end == a + 2 + Run(text[a..][2..]) < |text|
    ensures var literal := text[a..end];
            var es' := es + [LiteralEdit(a, end, literal)];
            Recorded(t, es', text[..a] + Replacement(literal) + text[end..])
            && base + AllEdited(t, es').layers ==
               base + AllEdited(t, es).layers + [Layer(end, LenDifference(literal, Replacement(literal)))]
  {
    hide Edited, AddressEdit, Literal, Run, Replacement;
    LiteralIsShort(text, a);
    var e := LiteralEdit(a, end, text[a..end]);
    LiteralEdited(AllEdited(t, es), a, end);
    EditedSnoc(t, es, e);
    assert (es + [e])[..|es|] == es;
  }

  method ReplaceLibraAddress(source: string, fileSourceMap: FileOffsetMap, ghost traced: Traced, ghost base: seq<Layer>)
    returns (text: string, ghost es: seq<Edit>)
    requires |traced.origin| == |source| + 1 && traced.text == source && fileSourceMap.layers == base + traced.layers
    modifies fileSourceMap
    ensures text == Expanded(source) == WithZeros(source, 0)
    ensures forall a, n: nat :: !MatchAt(text, a, n)
    ensures Recorded(traced, es, text) && fileSourceMap.layers == base + AllEdited(traced, es).layers
  {
    hide Recorded, AllEdited, Expanded, Literals, Literal, Run, Replacement, Widened, WithZeros, MatchAt;
    PassIsExact(source);
    NothingRecorded(traced, source);
    text := source;
    es := [];
    var mat := FindLiteral(text);
    while mat.Some?
      invariant mat == FindLiteral(text) && Expanded(text) == Expanded(source)
      invariant Recorded(traced, es, text) && fileSourceMap.layers == base + AllEdited(traced, es).layers
      decreases Literals(text)
    {
      var start := mat.value;
      LiteralIsShort(text, start);
      var end := start + 2 + Run(text[start..][2..]);
      WidenedIsReplaced(text, start);
      LeftmostWidened(text, start);
      RecordedOnce(traced, es, text, start, end, base);
      var orig := text[start..end];
      fileSourceMap.InsertAddressLayer(end, orig, Replacement(orig));
      text := text[..start] + Replacement(orig) + text[end..];
      es := es + [LiteralEdit(start, end, orig)];
      mat := FindLiteral(text);
    }
    NothingExpanded(text);
  }

  lemma LiteralIsShort(s: string, a: nat)
    requires a <= |s| && Literal(s[a..])
    ensures |s[a..]| >= 2 && a + 2 + Run(s[a..][2..]) < |s| && 3 <= 2 + Run(s[a..][2..]) <= 34
  {
  }
}
