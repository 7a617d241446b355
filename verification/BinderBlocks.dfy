/** The forward translation of the stores behind an unpack (exp/unpack.rs): when the fields
    of the expression name the locals that receive their values. */
module BinderBlocks {
  import opened Wrappers
  import opened Bytecode
  import opened Exp
  import opened Translator

  ghost predicate IsBinder(op: Bytecode) {
    op.StLoc? || op.Pop?
  }

  ghost predicate AllBinders(ops: seq<Bytecode>) {
    forall i :: 0 <= i < |ops| ==> IsBinder(ops[i])
  }

  /** The local that an opcode stores to; none for a `Pop`. */
  ghost function Target(op: Bytecode): Option<nat> {
    if op.StLoc? then Some(op.local) else None
  }

  ghost function Targets(ops: seq<Bytecode>): (ts: seq<Option<nat>>)
    ensures |ts| == |ops|
  {
    if ops == [] then [] else [Target(ops[0])] + Targets(ops[1..])
  }

  /** The local that an entry of a block, or a field, names. */
  ghost function NamedBy(x: ExpLoc): Option<nat> {
    if x.exp.Let? then Some(x.exp.local) else None
  }

  ghost function Named(es: seq<ExpLoc>): (ts: seq<Option<nat>>)
    ensures |ts| == |es|
  {
    if es == [] then [] else [NamedBy(es[0])] + Named(es[1..])
  }

  // An entry that binds a field or drops it.
  ghost predicate BinderEntry(x: ExpLoc) {
    x.exp.Nop? || (x.exp.Let? && x.exp.value_.exp.Nop?)
  }

  ghost predicate AllBinderEntries(es: seq<ExpLoc>) {
    forall i :: 0 <= i < |es| ==> BinderEntry(es[i])
  }

  /** The list after one binder; `n` counts the calls of `next` by then. */
  ghost function PushBinder(op: Bytecode, es: seq<ExpLoc>, n: nat): seq<ExpLoc> {
    var b := if op.StLoc? then LetExp(op.local, es, Index(n)) else Built(Exp.Nop, es);
    b.rest + [ExpLoc(Index(n), b.exp)]
  }

  ghost function BlockList(ops: seq<Bytecode>, n: nat, es: seq<ExpLoc>): seq<ExpLoc> {
    if ops == [] then es else BlockList(ops[1..], n + 1, PushBinder(ops[0], es, n + 1))
  }

  lemma BinderStep(env: Env, code: seq<Bytecode>, n: nat, es: seq<ExpLoc>)
    requires n < |code| && IsBinder(code[n])
    ensures Step(env, code, n, es) == Translated(PushBinder(code[n], es, n + 1), n + 1)
  {
  }

  /** The nested translator consumes exactly the binders that it was given. */
  lemma {:induction false} BlockIsConsumed(env: Env, code: seq<Bytecode>, n: nat, count: nat, es: seq<ExpLoc>)
    requires 0 < n && n + count <= |code| && AllBinders(code[n..n + count])
    ensures Translation(env, code, n, Index(n) + count, es) ==
            Translated(BlockList(code[n..n + count], n, es), n + count)
    decreases count
  {
    hide Translation, Step, PushBinder;
    var ops := code[n..n + count];
    if count == 0 {
      TranslationEnds(env, code, n, Index(n), es);
    } else {
      assert IsBinder(ops[0]) && ops[1..] == code[n + 1..n + count];
      BinderStep(env, code, n, es);
      TranslationStep(env, code, n, Index(n) + count, es);
      forall i | 0 <= i < count - 1 ensures IsBinder(ops[1..][i]) {
        assert IsBinder(ops[i + 1]);
      }
      BlockIsConsumed(env, code, n + 1, count - 1, PushBinder(code[n], es, n + 1));
    }
  }

  lemma {:induction false} BlockListSnoc(ops: seq<Bytecode>, op: Bytecode, n: nat, es: seq<ExpLoc>)
    ensures BlockList(ops + [op], n, es) == PushBinder(op, BlockList(ops, n, es), n + |ops| + 1)
  {
    hide PushBinder;
    if ops == [] {
      assert (ops + [op])[1..] == [];
    } else {
      BlockListSnoc(ops[1..], op, n + 1, PushBinder(ops[0], es, n + 1));
      assert (ops + [op])[1..] == ops[1..] + [op];
    }
  }

  lemma {:induction false} TargetsSnoc(ops: seq<Bytecode>, op: Bytecode)
    ensures Targets(ops + [op]) == Targets(ops) + [Target(op)]
  {
    if ops != [] {
      TargetsSnoc(ops[1..], op);
      assert (ops + [op])[1..] == ops[1..] + [op];
    }
  }

  lemma {:induction false} NamedSnoc(es: seq<ExpLoc>, x: ExpLoc)
    ensures Named(es + [x]) == Named(es) + [NamedBy(x)]
  {
    if es != [] {
      NamedSnoc(es[1..], x);
      assert (es + [x])[1..] == es[1..] + [x];
    }
  }

  ghost function Nones(count: nat): seq<Option<nat>> {
    seq(count, _ => None)
  }

  // What the entries of the block name, padded in front to the length of the block.
  ghost function Padded(ops: seq<Bytecode>, n: nat): seq<Option<nat>> {
    var es := BlockList(ops, n, []);
    Nones(if |es| <= |ops| then |ops| - |es| else 0) + Named(es)
  }

  // A store directly behind a `Pop` takes the place of its entry.
  ghost function Shifted(padded: seq<Option<nat>>, local: nat): seq<Option<nat>>
    requires padded != []
  {
    [None] + padded[..|padded| - 1] + [Some(local)]
  }

  ghost predicate EndsInPop(ops: seq<Bytecode>) {
    ops != [] && ops[|ops| - 1].Pop?
  }

  ghost predicate BlockFacts(ops: seq<Bytecode>, n: nat) {
    var es := BlockList(ops, n, []);
    |es| <= |ops| && AllBinderEntries(es) && (ops != [] ==> es != [])
    && (es != [] ==> (es[|es| - 1].exp.Nop? <==> EndsInPop(ops)))
  }

  lemma {:induction false} BlockFactsHold(ops: seq<Bytecode>, n: nat)
    requires AllBinders(ops)
    ensures BlockFacts(ops, n)
    decreases |ops|
  {
    hide BlockList, PushBinder, IsBinder;
    if ops == [] {
      NoEntries(n);
    } else {
      var front, op := ops[..|ops| - 1], ops[|ops| - 1];
      assert ops == front + [op];
      forall i | 0 <= i < |front| ensures IsBinder(front[i]) {
        assert front[i] == ops[i];
      }
      BlockFactsHold(front, n);
      BlockListSnoc(front, op, n, []);
      assert IsBinder(ops[|ops| - 1]);
      PushKeepsFacts(op, BlockList(front, n, []), n + |front| + 1);
    }
  }

  lemma NoEntries(n: nat)
    ensures BlockList([], n, []) == []
  {
  }

  lemma PushKeepsFacts(op: Bytecode, es: seq<ExpLoc>, at: nat)
    requires IsBinder(op) && AllBinderEntries(es)
    ensures var es' := PushBinder(op, es, at);
            0 < |es'| <= |es| + 1 && AllBinderEntries(es') && (es'[|es'| - 1].exp.Nop? <==> op.Pop?)
  {
    assert es != [] ==> BinderEntry(es[|es| - 1]);
  }

  // A store directly behind a `Pop` replaces the last entry.
  lemma {:induction false} ReplaceLast(es: seq<ExpLoc>, op: Bytecode, at: nat, n: nat)
    requires op.StLoc? && es != [] && es[|es| - 1].exp.Nop? && |es| <= n
    ensures Nones(n + 1 - |es|) + Named(PushBinder(op, es, at)) == Shifted(Nones(n - |es|) + Named(es), op.local)
    ensures (Nones(n - |es|) + Named(es))[n - 1] == None
  {
    hide PushBinder, Named, Nones, NamedBy;
    var front, x := es[..|es| - 1], es[|es| - 1];
    var y := ExpLoc(Index(at), Let(op.local, x));
    assert es == front + [x];
    PushTakesLast(es, op, at);
    NamedSnoc(front, x);
    NamedSnoc(front, y);
    Names(x, y);
    NonesCons(n - |es|);
    ShiftedPad(Nones(n - |es|), Named(front), op.local);
  }

  lemma PushTakesLast(es: seq<ExpLoc>, op: Bytecode, at: nat)
    requires op.StLoc? && es != [] && es[|es| - 1].exp.Nop?
    ensures PushBinder(op, es, at) == es[..|es| - 1] + [ExpLoc(Index(at), Let(op.local, es[|es| - 1]))]
  {
  }

  lemma Names(x: ExpLoc, y: ExpLoc)
    requires x.exp.Nop? && y.exp.Let?
    ensures NamedBy(x) == None && NamedBy(y) == Some(y.exp.local)
  {
  }

  lemma NonesCons(count: nat)
    ensures |Nones(count)| == count && Nones(count + 1) == [None] + Nones(count)
  {
  }

  lemma ShiftedPad(pad: seq<Option<nat>>, names: seq<Option<nat>>, local: nat)
    ensures Shifted(pad + (names + [None]), local) == [None] + pad + (names + [Some(local)])
  {
    assert (pad + (names + [None]))[..|pad| + |names|] == pad + names;
  }

  // Every other binder adds an entry.
  lemma AddLast(es: seq<ExpLoc>, op: Bytecode, at: nat, n: nat)
    requires IsBinder(op) && |es| <= n && (op.Pop? || es == [] || es[|es| - 1].exp.Let?)
    ensures |PushBinder(op, es, at)| == |es| + 1
    ensures Nones(n - |es|) + Named(PushBinder(op, es, at)) == Nones(n - |es|) + Named(es) + [Target(op)]
  {
    var e := if op.StLoc? then Let(op.local, ExpLoc(Index(at), Exp.Nop)) else Exp.Nop;
    assert PushBinder(op, es, at) == es + [ExpLoc(Index(at), e)];
    NamedSnoc(es, ExpLoc(Index(at), e));
  }

  lemma PaddedShape(ops: seq<Bytecode>, n: nat)
    requires AllBinders(ops)
    ensures |Padded(ops, n)| == |ops|
    ensures EndsInPop(ops) ==> Padded(ops, n)[|ops| - 1] == None
  {
    BlockFactsHold(ops, n);
    if EndsInPop(ops) {
      ReplaceLast(BlockList(ops, n, []), StLoc(0), 0, |ops|);
    }
  }

  /** How one more binder changes what the padded block names. */
  lemma PaddedSnoc(ops: seq<Bytecode>, op: Bytecode, n: nat)
    requires AllBinders(ops) && IsBinder(op)
    ensures |Padded(ops, n)| == |ops|
    ensures Padded(ops + [op], n) ==
            if op.StLoc? && EndsInPop(ops) then Shifted(Padded(ops, n), op.local)
            else Padded(ops, n) + [Target(op)]
  {
    hide PushBinder, BlockList, AllBinders, Named, Nones, Target;
    PaddedShape(ops, n);
    BlockFactsHold(ops, n);
    BlockListSnoc(ops, op, n, []);
    var es, at := BlockList(ops, n, []), n + |ops| + 1;
    if op.StLoc? && EndsInPop(ops) {
      ReplaceLast(es, op, at, |ops|);
      PushedLength(es, op, at);
    } else {
      assert es != [] ==> BinderEntry(es[|es| - 1]);
      AddLast(es, op, at, |ops|);
    }
  }

  lemma PushedLength(es: seq<ExpLoc>, op: Bytecode, at: nat)
    requires op.StLoc? && es != [] && es[|es| - 1].exp.Nop?
    ensures |PushBinder(op, es, at)| == |es|
  {
  }

  /** No `Pop` stands between two stores. */
  ghost predicate StoresTogether(ops: seq<Bytecode>) {
    forall i, j, k :: 0 <= i < j < k < |ops| && ops[i].StLoc? && ops[j].Pop? ==> !ops[k].StLoc?
  }

  ghost function Count(ts: seq<Option<nat>>): nat {
    if ts == [] then 0 else Count(ts[..|ts| - 1]) + if ts[|ts| - 1].Some? then 1 else 0
  }

  // No prefix of `a` names more locals than the same prefix of `b`.
  ghost predicate Behind(a: seq<Option<nat>>, b: seq<Option<nat>>) {
    |a| == |b| && forall j :: 0 <= j <= |a| ==> Count(a[..j]) <= Count(b[..j])
  }

  lemma {:induction false} CountShift(a: seq<Option<nat>>)
    ensures Count([None] + a) == Count(a)
    decreases |a|
  {
    if a == [] {
      var single: seq<Option<nat>> := [None];
      assert single[..0] == [] && [None] + a == single;
    } else {
      CountShift(a[..|a| - 1]);
      assert ([None] + a)[..|a|] == [None] + a[..|a| - 1];
    }
  }

  lemma {:induction false} CountMonotone(a: seq<Option<nat>>, j: nat, k: nat)
    requires j <= k <= |a|
    ensures Count(a[..j]) <= Count(a[..k])
    decreases k
  {
    if j < k {
      CountMonotone(a, j, k - 1);
      assert a[..k][..k - 1] == a[..k - 1];
    }
  }

  lemma BehindSnoc(a: seq<Option<nat>>, b: seq<Option<nat>>, t: Option<nat>)
    requires Behind(a, b)
    ensures Behind(a + [t], b + [t])
  {
    forall j | 0 <= j <= |a| + 1 ensures Count((a + [t])[..j]) <= Count((b + [t])[..j]) {
      if j <= |a| {
        assert (a + [t])[..j] == a[..j] && (b + [t])[..j] == b[..j];
      } else {
        assert (a + [t])[..j] == a + [t] && (b + [t])[..j] == b + [t];
        assert (a + [t])[..|a|] == a && (b + [t])[..|b|] == b && a[..|a|] == a && b[..|b|] == b;
      }
    }
  }

  lemma BehindShift(a: seq<Option<nat>>, b: seq<Option<nat>>, local: nat)
    requires Behind(a, b) && a != [] && a[|a| - 1] == None
    ensures Behind(Shifted(a, local), b + [Some(local)])
  {
    var s, n := Shifted(a, local), |a|;
    var core := [None] + a[..n - 1];
    forall j | 0 <= j <= n + 1 ensures Count(s[..j]) <= Count((b + [Some(local)])[..j]) {
      if 0 < j {
        var i := if j <= n then j - 1 else n - 1;
        CountShift(a[..i]);
        CountMonotone(b, i, if j <= n then j else n);
        assert Count(a[..i]) <= Count(b[..i]);
        if j <= n {
          assert s[..j] == [None] + a[..i] && (b + [Some(local)])[..j] == b[..j];
        } else {
          assert s[..j] == s && s[..n] == core && (b + [Some(local)])[..j] == b + [Some(local)];
          assert (b + [Some(local)])[..n] == b && b[..n] == b;
        }
      }
    }
  }

  lemma {:induction false} PaddedIsBehind(ops: seq<Bytecode>, n: nat)
    requires AllBinders(ops)
    ensures Behind(Padded(ops, n), Targets(ops))
    decreases |ops|
  {
    if ops == [] {
      assert Padded(ops, n) == [];
    } else {
      var front, op := ops[..|ops| - 1], ops[|ops| - 1];
      assert ops == front + [op];
      forall i | 0 <= i < |front| ensures IsBinder(front[i]) {
        assert front[i] == ops[i];
      }
      assert IsBinder(ops[|ops| - 1]);
      PaddedIsBehind(front, n);
      PaddedShape(front, n);
      PaddedSnoc(front, op, n);
      TargetsSnoc(front, op);
      if op.StLoc? && EndsInPop(front) {
        BehindShift(Padded(front, n), Targets(front), op.local);
      } else {
        BehindSnoc(Padded(front, n), Targets(front), Target(op));
      }
    }
  }

  lemma {:induction false} TargetsAt(ops: seq<Bytecode>)
    ensures forall i :: 0 <= i < |ops| ==> Targets(ops)[i] == Target(ops[i])
  {
    if ops != [] {
      TargetsAt(ops[1..]);
    }
  }

  // A shifted block can only agree when nothing at all was stored before.
  lemma ShiftedAgrees(a: seq<Option<nat>>, b: seq<Option<nat>>, local: nat, i: nat)
    requires Behind(a, b) && i < |b| && Shifted(a, local) == b + [Some(local)]
    ensures b[i] == None
  {
    assert ([None] + a[..|a| - 1])[..i + 1] == (b + [Some(local)])[..i + 1];
    assert (b + [Some(local)])[..i + 1] == b[..i + 1];
    assert ([None] + a[..|a| - 1])[..i + 1] == [None] + a[..i];
    CountShift(a[..i]);
    assert Count(a[..i]) <= Count(b[..i]);
    assert b[..i + 1][..i] == b[..i];
  }

  lemma NothingStored(a: seq<Option<nat>>, b: seq<Option<nat>>, local: nat)
    requires |a| == |b| > 0 && a == b && forall i :: 0 <= i < |b| ==> b[i] == None
    ensures Shifted(a, local) == b + [Some(local)]
  {
  }

  /** The block names each target in its place if and only if no `Pop` stands between two
      stores. */
  lemma {:induction false} PlacesAreRight(ops: seq<Bytecode>, n: nat)
    requires AllBinders(ops)
    ensures Padded(ops, n) == Targets(ops) <==> StoresTogether(ops)
    decreases |ops|
  {
    if ops == [] {
      assert Padded(ops, n) == [];
    } else {
      var front, op, last := ops[..|ops| - 1], ops[|ops| - 1], |ops| - 1;
      assert ops == front + [op];
      forall i | 0 <= i < |front| ensures IsBinder(front[i]) {
        assert front[i] == ops[i];
      }
      assert IsBinder(ops[last]);
      PlacesAreRight(front, n);
      PaddedShape(front, n);
      PaddedSnoc(front, op, n);
      TargetsSnoc(front, op);
      TargetsAt(front);
      SplitStores(front, op);
      var a, b := Padded(front, n), Targets(front);
      if op.StLoc? && EndsInPop(front) {
        if StoresTogether(ops) {
          forall i | 0 <= i < |b| ensures b[i] == None {
            assert front[i] == ops[i] && IsBinder(front[i]);
          }
          NothingStored(a, b, op.local);
        }
        if Padded(ops, n) == Targets(ops) {
          PaddedIsBehind(front, n);
          forall i | 0 <= i < |b| ensures !front[i].StLoc? {
            ShiftedAgrees(a, b, op.local, i);
          }
        }
      } else {
        assert a + [Target(op)] == b + [Target(op)] <==> a == b by {
          assert (a + [Target(op)])[..|a|] == a && (b + [Target(op)])[..|b|] == b;
        }
      }
    }
  }

  // Appending a binder keeps stores together unless it is a store behind a store and a `Pop`.
  lemma SplitStores(front: seq<Bytecode>, op: Bytecode)
    requires AllBinders(front) && IsBinder(op)
    ensures op.StLoc? && EndsInPop(front) ==>
              (StoresTogether(front + [op]) <==> forall i :: 0 <= i < |front| ==> !front[i].StLoc?)
    ensures !(op.StLoc? && EndsInPop(front)) ==> (StoresTogether(front + [op]) <==> StoresTogether(front))
  {
    var ops, last := front + [op], |front|;
    if StoresTogether(ops) {
      forall i, j, k | 0 <= i < j < k < |front| && front[i].StLoc? && front[j].Pop? ensures !front[k].StLoc? {
        assert ops[i].StLoc? && ops[j].Pop? && ops[k] == front[k];
      }
    }
    if op.StLoc? && EndsInPop(front) {
      if StoresTogether(ops) {
        forall i | 0 <= i < |front| ensures !front[i].StLoc? {
          assert ops[i] == front[i] && ops[last - 1].Pop? && ops[last].StLoc?;
        }
      }
    } else if StoresTogether(front) {
      forall i, j, k | 0 <= i < j < k < |ops| && ops[i].StLoc? && ops[j].Pop? ensures !ops[k].StLoc? {
        if k < last {
          assert front[i].StLoc? && front[j].Pop? && front[k] == ops[k];
        } else if op.StLoc? {
          assert false;
        }
      }
    }
  }
}
