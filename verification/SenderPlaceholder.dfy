/** The placeholder pass of the parser (lang/src/compiler/parser.rs): each `{{sender}}` and
    `{{ sender }}` is replaced by the address of the sender. */
module SenderPlaceholder {
  import opened Wrappers
  import opened SourceMap

  const TIGHT := "{{sender}}"
  const SPACED := "{{ sender }}"

  predicate At(s: string, t: string, i: nat) {
    i + |t| <= |s| && s[i..i + |t|] == t
  }

  /** The leftmost occurrence. */
  function Find(s: string, t: string): (r: Option<nat>)
    ensures r.Some? ==> At(s, t, r.value) && forall i: nat :: i < r.value ==> !At(s, t, i)
    ensures r.None? ==> Absent(s, t)
  {
    FindFrom(s, t, 0)
  }

  function FindFrom(s: string, t: string, from: nat): (r: Option<nat>)
    ensures r.Some? ==> from <= r.value && At(s, t, r.value) && forall i: nat :: from <= i < r.value ==> !At(s, t, i)
    ensures r.None? ==> forall i: nat :: from <= i ==> !At(s, t, i)
    decreases |s| - from
  {
    if from + |t| > |s| then None
    else if At(s, t, from) then Some(from)
    else FindFrom(s, t, from + 1)
  }

  ghost predicate Absent(s: string, t: string) {
    forall i: nat :: !At(s, t, i)
  }

  /** Every occurrence replaced, in one pass from the left over the source alone. */
  ghost function ReplacedAll(s: string, t: string, r: string): string
    requires t != ""
    decreases |s|
  {
    match Find(s, t)
    case None => s
    case Some(p) => s[..p] + r + ReplacedAll(s[p + |t|..], t, r)
  }

  ghost function SenderReplaced(s: string, sender: string): string {
    ReplacedAll(ReplacedAll(s, TIGHT, sender), SPACED, sender)
  }

  predicate NoBraces(s: string) {
    forall i :: 0 <= i < |s| ==> s[i] != '{' && s[i] != '}'
  }

  predicate Template(t: string) {
    t == TIGHT || t == SPACED
  }

  /** What an address may be: long enough, as the source demands, and free of braces. */
  predicate IsSender(sender: string) {
    |sender| > 12 && NoBraces(sender)
  }

  ghost function ReplacedAt(s: string, p: nat, t: string, r: string): string
    requires p + |t| <= |s|
  {
    s[..p] + r + s[p + |t|..]
  }

  /** A replacement makes no new occurrence: each lies before or behind the new text. */
  lemma OccurrencesAfter(s: string, p: nat, t: string, r: string, u: string, i: nat)
    requires Template(t) && Template(u) && IsSender(r) && p + |t| <= |s|
    requires At(ReplacedAt(s, p, t, r), u, i)
    ensures (i + |u| <= p && At(s, u, i)) || (i >= p + |r| && At(s[p + |t|..], u, i - (p + |r|)))
  {
    hide Template;
    TemplateShape(t);
    TemplateShape(u);
    var s' := ReplacedAt(s, p, t, r);
    var last := i + |u| - 1;
    assert s'[i..i + |u|][0] == s'[i] == '{' && s'[i..i + |u|][|u| - 1] == s'[last] == '}';
    assert forall k :: p <= k < p + |r| ==> s'[k] == r[k - p];
    if i + |u| <= p {
      assert s[i..i + |u|] == s'[i..i + |u|];
    } else if i >= p + |r| {
      var rest, k := s[p + |t|..], i - (p + |r|);
      assert rest[k..k + |u|] == s'[i..i + |u|];
    } else if i < p {
      assert false;
    }
  }

  lemma OccurrencesBehind(s: string, p: nat, t: string, r: string, u: string, k: nat)
    requires p + |t| <= |s| && At(s[p + |t|..], u, k)
    ensures At(s, u, p + |t| + k) && At(ReplacedAt(s, p, t, r), u, p + |r| + k)
  {
  }

  lemma StaysAbsent(s: string, p: nat, t: string, r: string, u: string)
    requires Template(t) && Template(u) && IsSender(r) && p + |t| <= |s| && Absent(s, u)
    ensures Absent(ReplacedAt(s, p, t, r), u)
  {
    forall i: nat ensures !At(ReplacedAt(s, p, t, r), u, i) {
      if At(ReplacedAt(s, p, t, r), u, i) {
        OccurrencesAfter(s, p, t, r, u, i);
        if i >= p + |r| {
          OccurrencesBehind(s, p, t, r, u, i - (p + |r|));
        }
      }
    }
  }

  /** Replacing the leftmost occurrence does not change the result of the single pass. */
  lemma {:induction false} LeftmostFirst(s: string, t: string, r: string)
    requires Template(t) && IsSender(r) && Find(s, t).Some?
    ensures ReplacedAll(ReplacedAt(s, Find(s, t).value, t, r), t, r) == ReplacedAll(s, t, r)
  {
    hide At, Template, NoBraces, Absent, ReplacedAll, ReplacedAt, Find;
    TemplateShape(t);
    var p := Find(s, t).value;
    AtFits(s, t, p);
    var rest := s[p + |t|..];
    ReplacedFrom(s, t, r, p);
    ReplacedIs(s, p, t, r);
    LeftmostIsFirst(s, p, t, r);
    var q := Find(rest, t);
    if q.None? {
      NothingToReplace(rest, t, r);
      NothingToReplace(ReplacedAt(s, p, t, r), t, r);
    } else {
      var k := q.value;
      ReplacedFrom(rest, t, r, k);
      ReplacedFrom(ReplacedAt(s, p, t, r), t, r, p + |r| + k);
      ReplacedParts(s, p, t, r, k);
      var tail := ReplacedAll(rest[k + |t|..], t, r);
      Regrouped(s[..p] + r, rest[..k], r, tail);
    }
  }

  lemma Regrouped<T>(a: seq<T>, b: seq<T>, c: seq<T>, d: seq<T>)
    ensures a + b + c + d == a + (b + c + d)
  {
  }

  /** The leftmost occurrence after the replacement is the leftmost in the text behind. */
  lemma LeftmostIsFirst(s: string, p: nat, t: string, r: string)
    requires Template(t) && IsSender(r) && p + |t| <= |s| && forall i: nat :: i < p ==> !At(s, t, i)
    ensures Find(ReplacedAt(s, p, t, r), t) ==
            match Find(s[p + |t|..], t)
            case None => None
            case Some(k) => Some(p + |r| + k)
    ensures Find(s[p + |t|..], t).Some? ==> p + |t| + Find(s[p + |t|..], t).value + |t| <= |s|
  {
    var s', rest := ReplacedAt(s, p, t, r), s[p + |t|..];
    var q, k := Find(s', t), Find(rest, t);
    if k.Some? {
      AtFits(rest, t, k.value);
      OccurrencesBehind(s, p, t, r, t, k.value);
    }
    if q.Some? {
      hide ReplacedAt, At, Template, NoBraces;
      OccurrencesAfter(s, p, t, r, t, q.value);
    }
  }

  lemma TemplateShape(t: string)
    requires Template(t)
    ensures 10 <= |t| <= 12 && t[0] == '{' && t[|t| - 1] == '}'
  {
  }

  lemma AtFits(s: string, t: string, i: nat)
    requires At(s, t, i)
    ensures i + |t| <= |s|
  {
  }

  lemma {:induction false} ReplacedFrom(s: string, t: string, r: string, p: nat)
    requires t != "" && Find(s, t) == Some(p)
    ensures ReplacedAll(s, t, r) == s[..p] + r + ReplacedAll(s[p + |t|..], t, r)
  {
  }

  lemma ReplacedParts(s: string, p: nat, t: string, r: string, k: nat)
    requires p + |t| + k + |t| <= |s|
    ensures var s', rest, q := ReplacedAt(s, p, t, r), s[p + |t|..], p + |r| + k;
            s'[..q] == s[..p] + r + rest[..k] && s'[q + |t|..] == rest[k + |t|..]
  {
  }

  lemma StillAbsent(s: string, p: nat, t: string, r: string)
    requires Template(t) && IsSender(r) && p + |t| <= |s|
    ensures forall u | Template(u) && Absent(s, u) :: Absent(ReplacedAt(s, p, t, r), u)
  {
    hide Template, Absent, ReplacedAt, NoBraces;
    forall u | Template(u) && Absent(s, u) ensures Absent(ReplacedAt(s, p, t, r), u) {
      StaysAbsent(s, p, t, r, u);
    }
  }

  // ----- The rewrite loop -----

  /** The edit puts the sender in the place of a template. */
  ghost predicate SenderEdit(text: string, e: Edit, sender: string) {
    Fits(e, |text|) && Template(text[e.start..e.end]) && e.text == sender
  }

  ghost predicate SenderEdits(t: Traced, es: seq<Edit>, sender: string) {
    es == [] || (SenderEdits(t, es[..|es| - 1], sender)
                 && SenderEdit(AllEdited(t, es[..|es| - 1]).text, es[|es| - 1], sender))
  }

  ghost predicate Aligned(t: Traced) {
    |t.origin| == |t.text| + 1
  }

  ghost function Opening(s: string): nat {
    multiset(s)['{']
  }

  lemma FewerBraces(s: string, p: nat, t: string, r: string)
    requires At(s, t, p) && '{' in t && '{' !in r
    ensures Opening(ReplacedAt(s, p, t, r)) < Opening(s)
  {
    var a, b := s[..p], s[p + |t|..];
    assert s == a + t + b;
    assert multiset(a + t + b) == multiset(a) + multiset(t) + multiset(b);
    assert multiset(a + r + b) == multiset(a) + multiset(r) + multiset(b);
    assert '{' in multiset(t) && '{' !in multiset(r);
  }

  /** The text is the traced text after edits of the pass. */
  ghost predicate Recorded(t: Traced, es: seq<Edit>, text: string, sender: string) {
    SenderEdits(t, es, sender) && Aligned(AllEdited(t, es)) && AllEdited(t, es).text == text
  }

  /** One round of the loop, as an edit of the traced text. */
  ghost function TemplateEdit(p: nat, t: string, sender: string): Edit {
    Edit(p, p + |t|, sender, p + |sender|)
  }

  lemma TemplateEdited(t: Traced, p: nat, template: string, sender: string)
    requires Aligned(t) && Template(template) && IsSender(sender) && At(t.text, template, p)
    ensures var e := TemplateEdit(p, template, sender);
            SenderEdit(t.text, e, sender) && Aligned(Edited(t, e))
            && Edited(t, e).text == ReplacedAt(t.text, p, template, sender)
            && Edited(t, e).layers == t.layers + [Layer(p + |sender|, LenDifference(template, sender))]
  {
  }

  lemma {:induction false} NothingRecorded(t: Traced, text: string, sender: string)
    requires Aligned(t) && t.text == text
    ensures Recorded(t, [], text, sender) && AllEdited(t, []) == t
  {
  }

  lemma {:induction false} RecordedOnce(t: Traced, es: seq<Edit>, text: string, p: nat, template: string, sender: string,
                                        base: seq<Layer>)
    requires Recorded(t, es, text, sender) && Template(template) && IsSender(sender) && At(text, template, p)
    ensures var es' := es + [TemplateEdit(p, template, sender)];
            Recorded(t, es', ReplacedAt(text, p, template, sender), sender)
            && base + AllEdited(t, es').layers ==
               base + AllEdited(t, es).layers + [Layer(p + |sender|, LenDifference(template, sender))]
  {
    hide Edited, SenderEdit, ReplacedAt, At, Template, NoBraces;
    var e := TemplateEdit(p, template, sender);
    TemplateEdited(AllEdited(t, es), p, template, sender);
    EditedSnoc(t, es, e);
    assert (es + [e])[..|es|] == es;
  }

  /** One template: `replace_range` at the leftmost occurrence until there is none. The
      traced text is what the layers that follow `base` record. */
  method ReplaceTemplate(s: string, template: string, sender: string, fileSourceMap: FileOffsetMap,
                         ghost traced: Traced, ghost base: seq<Layer>)
    returns (text: string, ghost es: seq<Edit>)
    requires Template(template) && IsSender(sender)
    requires Aligned(traced) && traced.text == s && fileSourceMap.layers == base + traced.layers
    modifies fileSourceMap`layers
    ensures text == ReplacedAll(s, template, sender) && Absent(text, template)
    ensures forall u | Template(u) && Absent(s, u) :: Absent(text, u)
    ensures Recorded(traced, es, text, sender) && fileSourceMap.layers == base + AllEdited(traced, es).layers
  {
    hide At, Absent, ReplacedAll, Template, NoBraces, Recorded, ReplacedAt, Opening, Find, AllEdited;
    TemplateShape(template);
    NothingRecorded(traced, s, sender);
    text := s;
    es := [];
    var pos := Find(text, template);
    while pos.Some?
      invariant pos == Find(text, template) && ReplacedAll(text, template, sender) == ReplacedAll(s, template, sender)
      invariant forall u | Template(u) && Absent(s, u) :: Absent(text, u)
      invariant Recorded(traced, es, text, sender)
      invariant fileSourceMap.layers == base + AllEdited(traced, es).layers
      decreases Opening(text)
    {
      var p := pos.value;
      AtFits(text, template, p);
      LeftmostFirst(text, template, sender);
      TemplateBraces(template, sender);
      FewerBraces(text, p, template, sender);
      StillAbsent(text, p, template, sender);
      RecordedOnce(traced, es, text, p, template, sender, base);
      ReplacedIs(text, p, template, sender);
      text := text[..p] + sender + text[p + |template|..];
      fileSourceMap.InsertLayer(p + |sender|, LenDifference(template, sender));
      es := es + [TemplateEdit(p, template, sender)];
      pos := Find(text, template);
    }
    NothingToReplace(text, template, sender);
  }

  lemma TemplateBraces(template: string, sender: string)
    requires Template(template) && NoBraces(sender)
    ensures '{' in template && '{' !in sender
  {
  }

  lemma ReplacedIs(s: string, p: nat, t: string, r: string)
    requires p + |t| <= |s|
    ensures ReplacedAt(s, p, t, r) == s[..p] + r + s[p + |t|..]
  {
  }

  lemma {:induction false} NothingToReplace(s: string, t: string, r: string)
    requires t != "" && Find(s, t).None?
    ensures ReplacedAll(s, t, r) == s && Absent(s, t)
  {
  }

  /** The pass: both templates in turn. No template is left. */
  method ReplaceSenderPlaceholder(s: string, sender: string, fileSourceMap: FileOffsetMap,
                                  ghost traced: Traced, ghost base: seq<Layer>)
    returns (text: string, ghost es: seq<Edit>)
    requires IsSender(sender)
    requires Aligned(traced) && traced.text == s && fileSourceMap.layers == base + traced.layers
    modifies fileSourceMap`layers
    ensures text == SenderReplaced(s, sender) == ReplacedAll(ReplacedAll(s, "{{sender}}", sender), "{{ sender }}", sender)
    ensures Absent(text, "{{sender}}") && Absent(text, "{{ sender }}")
    ensures Recorded(traced, es, text, sender) && fileSourceMap.layers == base + AllEdited(traced, es).layers
  {
    hide Absent, ReplacedAll, NoBraces, Edited, SenderEdits;
    var tight;
    ghost var more;
    tight, es := ReplaceTemplate(s, TIGHT, sender, fileSourceMap, traced, base);
    text, more := ReplaceTemplate(tight, SPACED, sender, fileSourceMap, AllEdited(traced, es), base);
    EditedConcat(traced, es, more);
    SenderEditsConcat(traced, es, more, sender);
    es := es + more;
  }

  lemma {:induction false} SenderEditsConcat(t: Traced, a: seq<Edit>, b: seq<Edit>, sender: string)
    requires SenderEdits(t, a, sender) && SenderEdits(AllEdited(t, a), b, sender)
    ensures SenderEdits(t, a + b, sender)
    decreases |b|
  {
    hide SenderEdit, Edited;
    if b == [] {
      assert a + b == a;
    } else {
      var n := |b| - 1;
      assert (a + b)[..|a + b| - 1] == a + b[..n];
      SenderEditsConcat(t, a, b[..n], sender);
      EditedConcat(t, a, b[..n]);
    }
  }
}
