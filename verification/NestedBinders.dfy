/** Unpacks whose fields are unpacked in turn (exp/unpack.rs): when the nested translator
    gives every field to the local, or to the inner fields, that receive its value. */
module NestedBinders {
  import opened Wrappers
  import opened Bytecode
  import opened Exp
  import opened Translator
  import opened BinderBlocks
  import opened UnpackMeaning
  import Trees

  /** What the code behind an unpack does with a field: it drops the value, stores it, or takes
      it apart. The parts are in the order of the code, the last field first. */
  datatype Pattern = Drop | Bind(local: nat) | Take(op: Bytecode, parts: seq<Pattern>)

  ghost predicate Valid(env: Env, p: Pattern)
    decreases p
  {
    p.Take? ==>
      && UnpackTarget(env.unit, p.op).Some?
      && |p.parts| == |FieldNames(UnpackTarget(env.unit, p.op).value.0)|
      && forall i :: 0 <= i < |p.parts| ==> Valid(env, p.parts[i])
  }

  ghost predicate AllValid(env: Env, ps: seq<Pattern>) {
    forall i :: 0 <= i < |ps| ==> Valid(env, ps[i])
  }

  ghost function PatternCode(p: Pattern): seq<Bytecode>
    decreases p
  {
    match p
    case Drop => [Bytecode.Pop]
    case Bind(local) => [StLoc(local)]
    case Take(op, parts) => [op] + PatternCodes(parts)
  }

  ghost function PatternCodes(ps: seq<Pattern>): seq<Bytecode>
    decreases ps
  {
    if ps == [] then [] else PatternCode(ps[0]) + PatternCodes(ps[1..])
  }

  /** The expression of a field shows what is done with its value. */
  ghost predicate Shows(env: Env, e: Exp, p: Pattern)
    requires Valid(env, p)
    decreases p
  {
    match p
    case Drop => e.Nop?
    case Bind(local) => e.Let? && e.local == local && e.value_.exp.Nop?
    case Take(op, parts) =>
      e.Unpack? && e.source.exp.Nop? && FieldsShow(env, e.fields, parts)
      && var t := UnpackTarget(env.unit, op).value; e.name == NameOf(t.0, t.1)
  }

  ghost predicate FieldsShow(env: Env, fs: seq<PackField>, parts: seq<Pattern>)
    requires AllValid(env, parts)
    decreases parts
  {
    |fs| == |parts| && forall i :: 0 <= i < |parts| ==> Shows(env, fs[|parts| - 1 - i].value.exp, parts[i])
  }

  /** No value is dropped between two that are not, and a value that is taken apart is the
      only one that is not dropped, and the last, unless it has no fields. */
  ghost predicate Right(ps: seq<Pattern>)
    decreases ps
  {
    Together(ps)
    && forall i :: 0 <= i < |ps| && ps[i].Take? ==>
         Alone(ps, i) && (i == |ps| - 1 || ps[i].parts == []) && Right(ps[i].parts)
  }

  ghost predicate Together(ps: seq<Pattern>) {
    forall i, j, k :: 0 <= i < j < k < |ps| && !ps[i].Drop? && ps[j].Drop? ==> ps[k].Drop?
  }

  ghost predicate Alone(ps: seq<Pattern>, i: nat) {
    forall j :: 0 <= j < |ps| && j != i ==> ps[j].Drop?
  }

  // ----- The list of a block -----

  // The entries of a block, padded in front to the number of fields.
  ghost function PaddedAt(list: seq<ExpLoc>, n: nat, i: nat): Exp
    requires |list| <= n && i < n
  {
    if i < n - |list| then Exp.Nop else list[i - (n - |list|)].exp
  }

  ghost predicate BlockShows(env: Env, list: seq<ExpLoc>, ps: seq<Pattern>)
    requires AllValid(env, ps)
  {
    |list| <= |ps| && forall i :: 0 <= i < |ps| ==> Shows(env, PaddedAt(list, |ps|, i), ps[i])
  }

  ghost predicate Nameless(list: seq<ExpLoc>, q: nat) {
    q <= |list| && forall i :: 0 <= i < q ==> list[i].exp.Nop?
  }

  // An entry that took another one than a placeholder.
  ghost predicate Swallowed(e: Exp) {
    (e.Let? && !e.value_.exp.Nop?) || (e.Unpack? && !e.source.exp.Nop?)
  }

  ghost predicate Binds(env: Env, op: Bytecode) {
    op.StLoc? || op.Pop? || UnpackTarget(env.unit, op).Some?
  }

  ghost predicate BindsUpTo(env: Env, code: seq<Bytecode>, calls: nat, end: nat) {
    end < |code| && forall i :: calls <= i <= end ==> Binds(env, code[i])
  }

  // How many opcodes are left until the end of the block.
  ghost function Left(calls: nat, end: nat): nat {
    if end < calls then 0 else end - calls + 1
  }

  /** One more opcode of a block: the last entry stays or is swallowed, those before stay. */
  lemma StepKeeps(env: Env, code: seq<Bytecode>, calls: nat, es: seq<ExpLoc>, q: nat)
    requires calls < |code| && Binds(env, code[calls]) && q < |es| && !es[q].exp.Nop?
    ensures var es' := Step(env, code, calls, es).list;
            q < |es'| && es'[..q] == es[..q] && (es'[q] == es[q] || Swallowed(es'[q].exp))
  {
    hide Step, UnpackTarget;
    if code[calls].StLoc? || code[calls].Pop? {
      BinderStep(env, code, calls, es);
    } else {
      UnpackIsOnTop(env, code, calls, es);
    }
  }

  lemma UnpackIsOnTop(env: Env, code: seq<Bytecode>, calls: nat, es: seq<ExpLoc>)
    requires calls < |code| && UnpackTarget(env.unit, code[calls]).Some?
    ensures var es', n := Step(env, code, calls, es).list, |Below(es)|;
            |es'| == n + 1 && es'[..n] == Below(es) && es'[n].exp.Unpack? && es'[n].exp.source == Top(es)
  {
    hide Translation, UnpackTarget, FieldNames, NameOf, Zip, Reversed;
  }

  lemma {:induction false} TailKeeps(env: Env, code: seq<Bytecode>, calls: nat, end: nat, es: seq<ExpLoc>, q: nat)
    requires 0 < calls && (calls <= end ==> BindsUpTo(env, code, calls, end)) && q < |es| && !es[q].exp.Nop?
    ensures var list := Translation(env, code, calls, end, es).list;
            q < |list| && list[..q] == es[..q] && (list[q] == es[q] || Swallowed(list[q].exp))
            && |list| <= |es| + Left(calls, end)
    decreases Remaining(code, calls)
  {
    hide Step, Translation;
    if end < calls {
      TranslationEnds(env, code, calls, end, es);
    } else {
      var step := Step(env, code, calls, es);
      TranslationStep(env, code, calls, end, es);
      StepKeeps(env, code, calls, es, q);
      TailKeeps(env, code, step.calls, end, step.list, q);
      TranslationLength(env, code, calls, end, es);
    }
  }

  lemma TranslationLength(env: Env, code: seq<Bytecode>, calls: nat, end: nat, es: seq<ExpLoc>)
    requires 0 < calls
    ensures |Translation(env, code, calls, end, es).list| <= |es| + Left(calls, end)
  {
  }

  /** The first value that is not dropped is value `j`, and its entry is entry `q`. If that
      entry is wrong, or the list gets too short, the block is wrong. */
  lemma {:induction false} WrongBlock(env: Env, code: seq<Bytecode>, calls: nat, end: nat, es: seq<ExpLoc>, ps: seq<Pattern>,
                                      q: nat, j: nat)
    requires 0 < calls && (calls <= end ==> BindsUpTo(env, code, calls, end)) && AllValid(env, ps)
    requires q < |es| && Nameless(es, q) && !es[q].exp.Nop? && q <= j < |ps| && !ps[j].Drop?
    requires |es| + Left(calls, end) + j - q < |ps|
             || (|es| + Left(calls, end) + j - q == |ps| && !Shows(env, es[q].exp, ps[j]))
    ensures !BlockShows(env, Translation(env, code, calls, end, es).list, ps)
  {
    hide Translation, Valid;
    TailKeeps(env, code, calls, end, es, q);
    var list := Translation(env, code, calls, end, es).list;
    assert forall i :: 0 <= i < q ==> list[..q][i] == list[i] && es[..q][i] == es[i];
    SwallowedShowsNothing(env, list[q].exp, ps[j]);
    if BlockShows(env, list, ps) {
      BlockShowsAt(env, list, ps, j);
      assert false;
    }
  }

  lemma BlockShowsAt(env: Env, list: seq<ExpLoc>, ps: seq<Pattern>, i: nat)
    requires AllValid(env, ps) && BlockShows(env, list, ps) && i < |ps|
    ensures |list| <= |ps| && Shows(env, PaddedAt(list, |ps|, i), ps[i])
  {
  }

  lemma {:induction false} SwallowedShowsNothing(env: Env, e: Exp, p: Pattern)
    requires Valid(env, p)
    ensures Swallowed(e) ==> !Shows(env, e, p)
    ensures e.Nop? && !p.Drop? ==> !Shows(env, e, p)
  {
  }

  // ----- Walking through a block -----

  // The code of the patterns stands at `c`, and that of the first `m` of them has been read.
  ghost predicate At(env: Env, code: seq<Bytecode>, c: nat, ps: seq<Pattern>, m: nat, calls: nat) {
    0 < c <= calls && m <= |ps| && AllValid(env, ps)
    && Trees.Holds(code, calls, PatternCodes(ps[m..]))
    && c + |ps| <= |code| && (c + |ps| > c ==> BindsUpTo(env, code, c, c + |ps| - 1))
  }

  lemma NextAt(env: Env, code: seq<Bytecode>, c: nat, ps: seq<Pattern>, m: nat, calls: nat)
    requires At(env, code, c, ps, m, calls) && m < |ps|
    ensures var n := |PatternCode(ps[m])|;
            Trees.Holds(code, calls, PatternCode(ps[m])) && At(env, code, c, ps, m + 1, calls + n)
            && |PatternCodes(ps[m..])| == n + |PatternCodes(ps[m + 1..])| && n > 0 && calls < |code|
            && (ps[m].Drop? ==> code[calls].Pop? && n == 1)
            && (ps[m].Bind? ==> code[calls] == StLoc(ps[m].local) && n == 1)
            && (ps[m].Take? ==>
                  && code[calls] == ps[m].op && Trees.Holds(code, calls + 1, PatternCodes(ps[m].parts))
                  && n == 1 + |PatternCodes(ps[m].parts)|)
  {
    hide Valid;
    assert ps[m..][0] == ps[m] && ps[m..][1..] == ps[m + 1..];
    Trees.HoldsParts(code, calls, PatternCode(ps[m]), PatternCodes(ps[m + 1..]));
    assert PatternCode(ps[m])[0] == code[calls..][0];
    if ps[m].Take? {
      Trees.HoldsParts(code, calls, [ps[m].op], PatternCodes(ps[m].parts));
    }
  }

  /** What the block of the patterns comes to from here on: it shows them if and only if they
      are right, and then it has read all of their code. */
  ghost predicate Decided(env: Env, code: seq<Bytecode>, ps: seq<Pattern>, m: nat, calls: nat, end: nat, es: seq<ExpLoc>)
    requires AllValid(env, ps) && m <= |ps|
  {
    var r := Translation(env, code, calls, end, es);
    (BlockShows(env, r.list, ps) <==> Right(ps)) && (Right(ps) ==> r.calls == calls + |PatternCodes(ps[m..])|)
  }

  // The block so far shows the patterns so far.
  ghost predicate ShownUpTo(env: Env, es: seq<ExpLoc>, ps: seq<Pattern>, m: nat)
    requires AllValid(env, ps) && m <= |ps|
  {
    |es| <= m && forall i :: 0 <= i < m ==> Shows(env, PaddedAt(es, m, i), ps[i])
  }

  lemma ShownSnoc(env: Env, es: seq<ExpLoc>, x: ExpLoc, ps: seq<Pattern>, m: nat)
    requires AllValid(env, ps) && m < |ps| && ShownUpTo(env, es, ps, m) && Shows(env, x.exp, ps[m])
    ensures ShownUpTo(env, es + [x], ps, m + 1)
  {
    hide Shows, Valid;
    forall i | 0 <= i < m + 1 ensures Shows(env, PaddedAt(es + [x], m + 1, i), ps[i]) {
      if i < m {
        assert PaddedAt(es + [x], m + 1, i) == PaddedAt(es, m, i);
      }
    }
  }

  lemma {:induction false} BlockEnds(env: Env, code: seq<Bytecode>, c: nat, ps: seq<Pattern>, calls: nat, es: seq<ExpLoc>)
    requires At(env, code, c, ps, |ps|, calls) && c + |ps| <= calls && ShownUpTo(env, es, ps, |ps|) && Right(ps)
    ensures Decided(env, code, ps, |ps|, calls, c + |ps| - 1, es)
  {
    hide Translation, Right, Shows, Valid;
    TranslationEnds(env, code, calls, c + |ps| - 1, es);
    assert ps[|ps|..] == [];
  }

  lemma PlainPush(env: Env, code: seq<Bytecode>, calls: nat, end: nat, es: seq<ExpLoc>)
    requires 0 < calls <= end && calls < |code| && IsBinder(code[calls])
    ensures Translation(env, code, calls, end, es) == Translation(env, code, calls + 1, end, PushBinder(code[calls], es, calls + 1))
  {
    hide Translation, PushBinder, Step;
    BinderStep(env, code, calls, es);
    TranslationStep(env, code, calls, end, es);
  }

  /** After a value that was stored: the rest is right as long as it drops values, or stores
      them without having dropped one. */
  lemma {:induction false} AfterBind(env: Env, code: seq<Bytecode>, c: nat, ps: seq<Pattern>, m: nat, es: seq<ExpLoc>, q: nat, j: nat)
    requires At(env, code, c, ps, m, c + m) && j < m && ps[j].Bind? && (forall i :: 0 <= i < j ==> ps[i].Drop?)
    requires ShownUpTo(env, es, ps, m) && |es| + j - q == m && q <= j && q < |es| && Nameless(es, q) && !es[q].exp.Nop?
    requires Together(ps[..m]) && forall i :: 0 <= i < m ==> !ps[i].Take?
    requires ps[m - 1].Bind? ==> es[|es| - 1].exp.Let?
    requires ps[m - 1].Drop? ==> es[|es| - 1].exp.Nop?
    ensures Decided(env, code, ps, m, c + m, c + |ps| - 1, es)
    decreases |ps| - m
  {
    hide Translation, Valid, Shows, PatternCodes, Right, BlockShows, ShownUpTo, PushBinder;
    var end, calls := c + |ps| - 1, c + m;
    if m == |ps| {
      assert ps[..m] == ps;
      RightWithoutTakes(ps);
      BlockEnds(env, code, c, ps, calls, es);
    } else {
      NextAt(env, code, c, ps, m, calls);
      if ps[m].Take? || (ps[m].Bind? && ps[m - 1].Drop?) {
        NotRight(ps, m, j);
        StuckStep(env, code, c, ps, m, calls, es, q, j);
      } else {
        PlainPush(env, code, calls, end, es);
        var es' := PushBinder(code[calls], es, calls + 1);
        PushShows(env, code[calls], es, calls, ps[m]);
        var x := es'[|es|];
        assert es' == es + [x];
        ShownSnoc(env, es, x, ps, m);
        TogetherSnoc(ps, m);
        AfterBind(env, code, c, ps, m + 1, es', q, j);
      }
    }
  }

  lemma PushShows(env: Env, op: Bytecode, es: seq<ExpLoc>, calls: nat, p: Pattern)
    requires (p.Drop? && op.Pop?) || (p.Bind? && op == StLoc(p.local) && (es == [] || es[|es| - 1].exp.Let?))
    ensures var es' := PushBinder(op, es, calls + 1);
            |es'| == |es| + 1 && es'[..|es|] == es && Shows(env, es'[|es|].exp, p)
            && (p.Bind? ==> es'[|es|].exp.Let?) && (p.Drop? ==> es'[|es|].exp.Nop?)
  {
  }

  lemma {:induction false} RightWithoutTakes(ps: seq<Pattern>)
    requires Together(ps) && forall i :: 0 <= i < |ps| ==> !ps[i].Take?
    ensures Right(ps)
  {
  }

  lemma TogetherSnoc(ps: seq<Pattern>, m: nat)
    requires 0 < m < |ps| && Together(ps[..m]) && (ps[m].Drop? || !ps[m - 1].Drop?)
    ensures Together(ps[..m + 1])
  {
    var a, b := ps[..m], ps[..m + 1];
    forall i, j, k | 0 <= i < j < k < |b| && !b[i].Drop? && b[j].Drop? ensures b[k].Drop? {
      assert b[i] == a[i] && b[j] == a[j];
      if k < m {
        assert b[k] == a[k];
      } else if j < m - 1 {
        assert a[m - 1].Drop?;
      }
    }
  }

  lemma {:induction false} NotRight(ps: seq<Pattern>, m: nat, j: nat)
    requires j < m < |ps| && !ps[j].Drop? && (ps[m].Take? || (ps[j].Take? && !ps[m].Drop?) || (ps[m].Bind? && ps[m - 1].Drop?))
    ensures !Right(ps)
  {
  }

  /** A store that takes the entry before it, or an inner unpack behind another entry, does not
      lengthen the list, which is too short then. */
  lemma {:induction false} StuckStep(env: Env, code: seq<Bytecode>, c: nat, ps: seq<Pattern>, m: nat, calls: nat, es: seq<ExpLoc>,
                                     q: nat, j: nat)
    requires At(env, code, c, ps, m, calls) && j < m < |ps| && calls == c + m && !ps[j].Drop? && !Right(ps)
    requires |es| + j - q == m && q <= j && q < |es| && Nameless(es, q) && !es[q].exp.Nop?
    requires ps[m].Take? || (ps[m].Bind? && !es[|es| - 1].exp.Let?)
    ensures Decided(env, code, ps, m, calls, c + |ps| - 1, es)
  {
    hide Translation, Valid, Shows, Right, PatternCodes, Step, BlockShows;
    var end := c + |ps| - 1;
    NextAt(env, code, c, ps, m, calls);
    TranslationStep(env, code, calls, end, es);
    var step := Step(env, code, calls, es);
    StuckLength(env, code, calls, es, ps[m]);
    StepKeeps(env, code, calls, es, q);
    assert forall i :: 0 <= i < q ==> step.list[..q][i] == step.list[i] && es[..q][i] == es[i];
    SwallowedIsNamed(step.list[q].exp);
    WrongBlock(env, code, step.calls, end, step.list, ps, q, j);
  }

  lemma SwallowedIsNamed(e: Exp)
    ensures Swallowed(e) ==> !e.Nop?
  {
  }

  lemma StuckLength(env: Env, code: seq<Bytecode>, calls: nat, es: seq<ExpLoc>, p: Pattern)
    requires calls < |code| && es != [] && Valid(env, p)
    requires (p.Take? && code[calls] == p.op) || (p.Bind? && code[calls] == StLoc(p.local) && !es[|es| - 1].exp.Let?)
    ensures var step := Step(env, code, calls, es);
            |step.list| == |es| && calls < step.calls && Binds(env, code[calls])
  {
    hide Translation;
    if p.Bind? {
      BinderStep(env, code, calls, es);
    }
  }

  lemma {:induction false} OnlyOneRight(ps: seq<Pattern>, j: nat)
    requires j < |ps| && ps[j].Take? && Alone(ps, j) && (j == |ps| - 1 || ps[j].parts == []) && Right(ps[j].parts)
    ensures Right(ps)
  {
  }

  /** After a struct without fields: the rest is right as long as it drops values. */
  lemma {:induction false} AfterEmpty(env: Env, code: seq<Bytecode>, c: nat, ps: seq<Pattern>, m: nat, es: seq<ExpLoc>, q: nat, j: nat)
    requires At(env, code, c, ps, m, c + m) && j < m && ps[j].Take? && ps[j].parts == []
    requires forall i :: 0 <= i < m && i != j ==> ps[i].Drop?
    requires ShownUpTo(env, es, ps, m) && |es| + j - q == m && q <= j && q < |es| && Nameless(es, q) && !es[q].exp.Nop?
    requires !es[|es| - 1].exp.Let?
    ensures Decided(env, code, ps, m, c + m, c + |ps| - 1, es)
    decreases |ps| - m
  {
    hide Translation, Valid, Shows, PatternCodes, Right, BlockShows, ShownUpTo, PushBinder;
    var end, calls := c + |ps| - 1, c + m;
    if m == |ps| {
      OnlyOneRight(ps, j);
      BlockEnds(env, code, c, ps, calls, es);
    } else {
      NextAt(env, code, c, ps, m, calls);
      if ps[m].Drop? {
        PlainPush(env, code, calls, end, es);
        var es' := PushBinder(code[calls], es, calls + 1);
        PushShows(env, code[calls], es, calls, ps[m]);
        var x := es'[|es|];
        assert es' == es + [x];
        ShownSnoc(env, es, x, ps, m);
        AfterEmpty(env, code, c, ps, m + 1, es', q, j);
      } else {
        NotRight(ps, m, j);
        StuckStep(env, code, c, ps, m, calls, es, q, j);
      }
    }
  }

  // ----- The expression of an inner unpack -----

  lemma EntryIsPadded(list: seq<ExpLoc>, n: nat, at: nat, i: nat)
    requires |list| <= n && i < n
    ensures FieldEntries(list, n, at)[n - 1 - i].exp == PaddedAt(list, n, i)
  {
    if n - 1 - i < |list| {
      ReversedAt(list, n - 1 - i);
    }
  }

  lemma FieldsShowBlock(env: Env, names: seq<string>, list: seq<ExpLoc>, at: nat, parts: seq<Pattern>)
    requires AllValid(env, parts) && |names| == |parts| && |list| <= |parts|
    ensures FieldsShow(env, Zip(names, FieldEntries(list, |names|, at)), parts) <==> BlockShows(env, list, parts)
  {
    hide Shows, Valid, Reversed;
    var n := |names|;
    var fs := Zip(names, FieldEntries(list, n, at));
    forall i | 0 <= i < n ensures fs[n - 1 - i].value.exp == PaddedAt(list, n, i) {
      EntryIsPadded(list, n, at, i);
    }
  }

  /** An inner unpack becomes one entry over the last one; it shows the pattern if its block
      shows the parts and it took a placeholder. */
  lemma TakeStep(env: Env, code: seq<Bytecode>, calls: nat, es: seq<ExpLoc>, p: Pattern)
    returns (x: ExpLoc)
    requires calls < |code| && p.Take? && Valid(env, p) && code[calls] == p.op
    ensures var inner := Translation(env, code, calls + 1, Index(calls + 1) + |p.parts|, []);
            |inner.list| <= |p.parts| && AllValid(env, p.parts)
            && Step(env, code, calls, es) == Translated(Below(es) + [x], inner.calls)
            && x.exp.Unpack? && x.exp.source == Top(es)
            && (var t := UnpackTarget(env.unit, p.op).value; x.exp.name == NameOf(t.0, t.1))
            && (FieldsShow(env, x.exp.fields, p.parts) <==> BlockShows(env, inner.list, p.parts))
            && (Shows(env, x.exp, p) <==> x.exp.source.exp.Nop? && BlockShows(env, inner.list, p.parts))
  {
    hide Translation, Reversed, Zip, Right;
    var t := UnpackTarget(env.unit, p.op).value;
    var inner := Translation(env, code, calls + 1, Index(calls + 1) + |p.parts|, []);
    TranslationBound(env, code, calls + 1, |p.parts|);
    x := ExpLoc(Index(inner.calls), UnpackExp(t.0, t.1, inner, Top(es)));
    FieldsShowBlock(env, FieldNames(t.0), inner.list, Index(inner.calls), p.parts);
  }

  // ----- Blocks -----

  lemma {:induction false} CodesBind(env: Env, ps: seq<Pattern>)
    requires AllValid(env, ps)
    ensures |ps| <= |PatternCodes(ps)|
    ensures forall i :: 0 <= i < |PatternCodes(ps)| ==> Binds(env, PatternCodes(ps)[i])
    decreases ps
  {
    if ps != [] {
      var p := ps[0];
      CodesBind(env, ps[1..]);
      if p.Take? {
        CodesBind(env, p.parts);
      }
      assert forall i :: 0 <= i < |PatternCode(p)| ==> Binds(env, PatternCode(p)[i]);
    }
  }

  lemma BlockStarts(env: Env, code: seq<Bytecode>, c: nat, ps: seq<Pattern>)
    requires 0 < c && AllValid(env, ps) && Trees.Holds(code, c, PatternCodes(ps))
    ensures At(env, code, c, ps, 0, c)
  {
    CodesBind(env, ps);
    hide Binds, Valid;
    assert ps[0..] == ps;
    var part := PatternCodes(ps);
    forall i | c <= i < c + |ps| ensures Binds(env, code[i]) {
      assert part[i - c] == code[c..][i - c];
    }
  }

  /** A block of patterns shows them if and only if they are right, and then it reads exactly
      their code. */
  lemma {:induction false} BlockIsDecided(env: Env, code: seq<Bytecode>, c: nat, ps: seq<Pattern>)
    requires 0 < c && AllValid(env, ps) && Trees.Holds(code, c, PatternCodes(ps))
    ensures Decided(env, code, ps, 0, c, Index(c) + |ps|, [])
    decreases ps, |ps| + 1
  {
    hide Translation, Valid, PatternCodes, Decided;
    BlockStarts(env, code, c, ps);
    AfterDrops(env, code, c, ps, 0, []);
  }

  /** After values that were dropped. */
  lemma {:induction false} AfterDrops(env: Env, code: seq<Bytecode>, c: nat, ps: seq<Pattern>, m: nat, es: seq<ExpLoc>)
    requires At(env, code, c, ps, m, c + m) && (forall i :: 0 <= i < m ==> ps[i].Drop?)
    requires |es| == m && Nameless(es, m)
    ensures Decided(env, code, ps, m, c + m, c + |ps| - 1, es)
    decreases ps, |ps| - m
  {
    hide Translation, Valid, Shows, PatternCodes, Decided;
    var end, calls := c + |ps| - 1, c + m;
    DropsAreShown(env, ps, m, es);
    if m == |ps| {
      RightWithoutTakes(ps);
      BlockEnds(env, code, c, ps, calls, es);
    } else {
      NextAt(env, code, c, ps, m, calls);
      if ps[m].Take? {
        AfterTake(env, code, c, ps, m, es);
      } else {
        PlainPush(env, code, calls, end, es);
        var es' := PushBinder(code[calls], es, calls + 1);
        if ps[m].Drop? {
          AfterDrops(env, code, c, ps, m + 1, es');
        } else {
          FirstBind(env, ps, m, es, code[calls], calls);
          AfterBind(env, code, c, ps, m + 1, es', if m == 0 then 0 else m - 1, m);
        }
        DecidedBefore(env, code, ps, m, calls, end, es, es');
      }
    }
  }

  // What is decided behind the first opcode is decided.
  lemma DecidedBefore(env: Env, code: seq<Bytecode>, ps: seq<Pattern>, m: nat, calls: nat, end: nat, es: seq<ExpLoc>, es': seq<ExpLoc>)
    requires AllValid(env, ps) && m < |ps| && |PatternCodes(ps[m..])| == 1 + |PatternCodes(ps[m + 1..])|
    requires Translation(env, code, calls, end, es) == Translation(env, code, calls + 1, end, es')
    requires Decided(env, code, ps, m + 1, calls + 1, end, es')
    ensures Decided(env, code, ps, m, calls, end, es)
  {
    hide Translation, Valid, PatternCodes, Right, BlockShows;
  }

  lemma DropsAreShown(env: Env, ps: seq<Pattern>, m: nat, es: seq<ExpLoc>)
    requires AllValid(env, ps) && m <= |ps| && (forall i :: 0 <= i < m ==> ps[i].Drop?) && |es| == m && Nameless(es, m)
    ensures ShownUpTo(env, es, ps, m)
  {
  }

  lemma FirstBind(env: Env, ps: seq<Pattern>, m: nat, es: seq<ExpLoc>, op: Bytecode, calls: nat)
    requires AllValid(env, ps) && m < |ps| && ps[m].Bind? && op == StLoc(ps[m].local)
    requires (forall i :: 0 <= i < m ==> ps[i].Drop?) && |es| == m && Nameless(es, m)
    ensures var es', q := PushBinder(op, es, calls + 1), if m == 0 then 0 else m - 1;
            |es'| == q + 1 && Nameless(es', q) && es'[q].exp.Let? && ShownUpTo(env, es', ps, m + 1)
    ensures Together(ps[..m + 1])
  {
    FirstIsShown(env, ps, m, es, PushBinder(op, es, calls + 1)[if m == 0 then 0 else m - 1]);
  }

  // The first value that is not dropped takes the place of the last placeholder.
  lemma FirstIsShown(env: Env, ps: seq<Pattern>, m: nat, es: seq<ExpLoc>, x: ExpLoc)
    requires AllValid(env, ps) && m < |ps| && (forall i :: 0 <= i < m ==> ps[i].Drop?) && |es| == m && Nameless(es, m)
    ensures Shows(env, x.exp, ps[m]) ==> ShownUpTo(env, Below(es) + [x], ps, m + 1)
  {
  }

  lemma {:induction false} AfterTake(env: Env, code: seq<Bytecode>, c: nat, ps: seq<Pattern>, m: nat, es: seq<ExpLoc>)
    requires At(env, code, c, ps, m, c + m) && m < |ps| && ps[m].Take? && (forall i :: 0 <= i < m ==> ps[i].Drop?)
    requires |es| == m && Nameless(es, m)
    ensures Decided(env, code, ps, m, c + m, c + |ps| - 1, es)
    decreases ps, 0
  {
    hide Translation, Valid, Shows, PatternCodes, Step, Right, BlockShows, FieldsShow;
    var end, calls, p := c + |ps| - 1, c + m, ps[m];
    NextAt(env, code, c, ps, m, calls);
    TranslationStep(env, code, calls, end, es);
    var x := TakeStep(env, code, calls, es, p);
    BlockIsDecided(env, code, calls + 1, p.parts);
    assert p.parts[0..] == p.parts;
    var inner := Translation(env, code, calls + 1, Index(calls + 1) + |p.parts|, []);
    AfterBlock(env, code, c, ps, m, es, x, inner.calls);
  }

  /** Behind the block of an inner unpack, whose entry shows the pattern if its parts are right. */
  lemma AfterBlock(env: Env, code: seq<Bytecode>, c: nat, ps: seq<Pattern>, m: nat, es: seq<ExpLoc>, x: ExpLoc, next: nat)
    requires At(env, code, c, ps, m, c + m) && m < |ps| && ps[m].Take? && (forall i :: 0 <= i < m ==> ps[i].Drop?)
    requires |es| == m && Nameless(es, m) && x.exp.Unpack? && c + m < next && AllValid(env, ps[m].parts)
    requires Shows(env, x.exp, ps[m]) <==> Right(ps[m].parts)
    requires Right(ps[m].parts) ==> next == c + m + 1 + |PatternCodes(ps[m].parts)|
    ensures var r := Translation(env, code, next, c + |ps| - 1, Below(es) + [x]);
            (BlockShows(env, r.list, ps) <==> Right(ps)) && (Right(ps) ==> r.calls == c + m + |PatternCodes(ps[m..])|)
  {
    hide Translation, Valid, Shows, PatternCodes, Right, BlockShows, ShownUpTo, FieldsShow;
    var end, p, es', q := c + |ps| - 1, ps[m], Below(es) + [x], if m == 0 then 0 else m - 1;
    NextAt(env, code, c, ps, m, c + m);
    FirstIsShown(env, ps, m, es, x);
    if Right(p.parts) && m == |ps| - 1 {
      OnlyOneRight(ps, m);
      BlockEnds(env, code, c, ps, next, es');
    } else if Right(p.parts) && p.parts == [] {
      NoCode();
      AfterEmpty(env, code, c, ps, m + 1, es', q, m);
    } else {
      CodesBind(env, p.parts);
      TakenRight(ps, m);
      WrongBlock(env, code, next, end, es', ps, q, m);
    }
  }

  lemma NoCode()
    ensures PatternCodes([]) == []
  {
  }

  lemma {:induction false} TakenRight(ps: seq<Pattern>, m: nat)
    requires m < |ps| && ps[m].Take? && !(Right(ps[m].parts) && (m == |ps| - 1 || ps[m].parts == []))
    ensures !Right(ps)
  {
  }

  // ----- Whole unpacks -----

  /** For any nesting of unpacks, stores and pops behind an unpack, each field of the
      recovered expression shows what is done with its value if and only if the patterns are
      right: no value is dropped between two that are not, and a field that is taken apart is
      the only one that is not dropped, the last in the code, unless it has no fields, and is
      itself right. Then the unpack takes exactly its code. */
  lemma NestedUnpackIsPaired(env: Env, code: seq<Bytecode>, pc: nat, list: seq<ExpLoc>, p: Pattern)
    returns (x: ExpLoc)
    requires p.Take? && Valid(env, p) && list != [] && Trees.Holds(code, pc, PatternCode(p))
    ensures Step(env, code, pc, list).list == list[..|list| - 1] + [x] && x.exp.Unpack? && x.exp.source == list[|list| - 1]
    ensures FieldsShow(env, x.exp.fields, p.parts) <==> Right(p.parts)
    ensures Right(p.parts) ==> Step(env, code, pc, list).calls == pc + |PatternCode(p)|
  {
    hide Translation, Shows, PatternCodes, Step, Right, BlockShows, FieldsShow;
    Trees.HoldsParts(code, pc, [p.op], PatternCodes(p.parts));
    assert code[pc..][0] == p.op;
    x := TakeStep(env, code, pc, list, p);
    BlockIsDecided(env, code, pc + 1, p.parts);
    assert p.parts[0..] == p.parts;
  }

  /** Without inner unpacks this is the condition on stores and pops alone. */
  lemma {:induction false} FlatIsRight(ps: seq<Pattern>)
    requires forall i :: 0 <= i < |ps| ==> !ps[i].Take?
    ensures |PatternCodes(ps)| == |ps| && AllBinders(PatternCodes(ps))
    ensures Right(ps) <==> StoresTogether(PatternCodes(ps))
  {
    FlatCodes(ps);
    var ops := PatternCodes(ps);
    assert forall i :: 0 <= i < |ps| ==> (ops[i].Pop? <==> ps[i].Drop?) && (ops[i].StLoc? <==> ps[i].Bind?);
    if Right(ps) {
      forall i, j, k | 0 <= i < j < k < |ops| && ops[i].StLoc? && ops[j].Pop? ensures !ops[k].StLoc? {
        assert !ps[i].Drop? && ps[j].Drop? && ps[k].Drop?;
      }
    }
    if StoresTogether(ops) {
      forall i, j, k | 0 <= i < j < k < |ps| && !ps[i].Drop? && ps[j].Drop? ensures ps[k].Drop? {
        assert ops[i].StLoc? && ops[j].Pop? && !ops[k].StLoc?;
      }
    }
  }

  lemma {:induction false} FlatCodes(ps: seq<Pattern>)
    requires forall i :: 0 <= i < |ps| ==> !ps[i].Take?
    ensures |PatternCodes(ps)| == |ps|
    ensures forall i :: 0 <= i < |ps| ==> PatternCodes(ps)[i] == if ps[i].Drop? then Bytecode.Pop else StLoc(ps[i].local)
    decreases |ps|
  {
    if ps != [] {
      FlatCodes(ps[1..]);
    }
  }

  /** A struct with a field `a` that is taken apart and a field `b` that is stored: the inner
      unpack takes the store of `b` as its source, and `b` is left without a local. */
  lemma NestedUnpackFails(env: Env, outer: Bytecode, inner: Bytecode, a: string, b: string, c: string,
                          x: nat, y: nat, v: ExpLoc)
    requires UnpackTarget(env.unit, outer).Some? && FieldNames(UnpackTarget(env.unit, outer).value.0) == [a, b]
    requires UnpackTarget(env.unit, inner).Some? && FieldNames(UnpackTarget(env.unit, inner).value.0) == [c]
    ensures var s, t := UnpackTarget(env.unit, outer).value, UnpackTarget(env.unit, inner).value;
            var store := ExpLoc(1, Let(y, ExpLoc(1, Exp.Nop)));
            var part := Exp.Unpack(NameOf(t.0, t.1), [PackField(c, ExpLoc(3, Let(x, ExpLoc(3, Exp.Nop))))], store);
            Step(env, [outer, StLoc(y), inner, StLoc(x)], 0, [v]) ==
            Translated([ExpLoc(3, Exp.Unpack(NameOf(s.0, s.1), [PackField(a, ExpLoc(3, part)), PackField(b, ExpLoc(3, Exp.Nop))], v))], 4)
  {
    hide Translation, UnpackTarget, FieldNames, NameOf, Step, Zip, FieldEntries, PushBinder;
    var code := [outer, StLoc(y), inner, StLoc(x)];
    var t := UnpackTarget(env.unit, inner).value;
    var store, binder := ExpLoc(1, Let(y, ExpLoc(1, Exp.Nop))), ExpLoc(3, Let(x, ExpLoc(3, Exp.Nop)));
    var part := ExpLoc(3, Exp.Unpack(NameOf(t.0, t.1), [PackField(c, binder)], store));
    OneStore(env, code, x);
    OneField(c, binder);
    UnpackStep(env, code, 2, [store], Translated([binder], 4));
    PlainPush(env, code, 1, 2, []);
    Pushes(y, y, store, ExpLoc(2, Exp.Nop));
    TranslationStep(env, code, 2, 2, [store]);
    TranslationEnds(env, code, 4, 2, [part]);
    OneOfTwo(a, b, part);
    UnpackStep(env, code, 0, [v], Translated([part], 4));
  }

  lemma OneField(c: string, binder: ExpLoc)
    ensures Zip([c], FieldEntries([binder], 1, 3)) == [PackField(c, binder)]
  {
    assert Reversed([binder]) == [binder];
  }

  lemma OneOfTwo(a: string, b: string, part: ExpLoc)
    ensures Zip([a, b], FieldEntries([part], 2, 3)) == [PackField(a, part), PackField(b, ExpLoc(3, Exp.Nop))]
  {
    assert Reversed([part]) == [part];
  }

  /** Three fields of which the middle one is dropped between two stores: the second store takes
      the placeholder, the middle field is left with the local of the last one, and the last
      one with none. */
  lemma DropBetweenStoresFails(env: Env, op: Bytecode, a: string, b: string, c: string, x: nat, y: nat, v: ExpLoc)
    requires UnpackTarget(env.unit, op).Some? && FieldNames(UnpackTarget(env.unit, op).value.0) == [a, b, c]
    ensures var t := UnpackTarget(env.unit, op).value;
            var first, second := ExpLoc(1, Let(x, ExpLoc(1, Exp.Nop))), ExpLoc(3, Let(y, ExpLoc(2, Exp.Nop)));
            Step(env, [op, StLoc(x), Bytecode.Pop, StLoc(y)], 0, [v]) ==
            Translated([ExpLoc(3, Exp.Unpack(NameOf(t.0, t.1),
                                             [PackField(a, second), PackField(b, first), PackField(c, ExpLoc(3, Exp.Nop))], v))], 4)
  {
    hide Translation, UnpackTarget, FieldNames, NameOf, Step, Zip, FieldEntries;
    var code := [op, StLoc(x), Bytecode.Pop, StLoc(y)];
    var first, second := ExpLoc(1, Let(x, ExpLoc(1, Exp.Nop))), ExpLoc(3, Let(y, ExpLoc(2, Exp.Nop)));
    DropIsTaken(env, code, x, y);
    UnpackStep(env, code, 0, [v], Translated([first, second], 4));
    GapInFields(a, b, c, first, second);
  }

  lemma DropIsTaken(env: Env, code: seq<Bytecode>, x: nat, y: nat)
    requires |code| == 4 && code[1..] == [StLoc(x), Bytecode.Pop, StLoc(y)]
    ensures Translation(env, code, 1, 3, []) ==
            Translated([ExpLoc(1, Let(x, ExpLoc(1, Exp.Nop))), ExpLoc(3, Let(y, ExpLoc(2, Exp.Nop)))], 4)
  {
    hide Translation, PushBinder;
    var first, drop, second := ExpLoc(1, Let(x, ExpLoc(1, Exp.Nop))), ExpLoc(2, Exp.Nop), ExpLoc(3, Let(y, ExpLoc(2, Exp.Nop)));
    assert code[1] == code[1..][0] && code[2] == code[1..][1] && code[3] == code[1..][2];
    PlainPush(env, code, 1, 3, []);
    PlainPush(env, code, 2, 3, [first]);
    PlainPush(env, code, 3, 3, [first, drop]);
    Pushes(x, y, first, drop);
    TranslationEnds(env, code, 4, 3, [first, second]);
  }

  lemma Pushes(x: nat, y: nat, first: ExpLoc, drop: ExpLoc)
    requires first == ExpLoc(1, Let(x, ExpLoc(1, Exp.Nop))) && drop == ExpLoc(2, Exp.Nop)
    ensures PushBinder(StLoc(x), [], 2) == [first]
    ensures PushBinder(Bytecode.Pop, [first], 3) == [first, drop]
    ensures PushBinder(StLoc(y), [first, drop], 4) == [first, ExpLoc(3, Let(y, drop))]
  {
    assert [first, drop][..1] == [first];
  }

  lemma GapInFields(a: string, b: string, c: string, first: ExpLoc, second: ExpLoc)
    ensures Zip([a, b, c], FieldEntries([first, second], 3, 3)) ==
            [PackField(a, second), PackField(b, first), PackField(c, ExpLoc(3, Exp.Nop))]
  {
    assert [first, second][1..] == [second] && Reversed([second]) == [second] && Reversed([first, second]) == [second, first];
  }

  lemma OneStore(env: Env, code: seq<Bytecode>, x: nat)
    requires |code| == 4 && code[3] == StLoc(x)
    ensures Translation(env, code, 3, 3, []) == Translated([ExpLoc(3, Let(x, ExpLoc(3, Exp.Nop)))], 4)
  {
    hide Translation;
    PlainPush(env, code, 3, 3, []);
    TranslationEnds(env, code, 4, 3, [ExpLoc(3, Let(x, ExpLoc(3, Exp.Nop)))]);
  }
}
