/** Decompiling inverts compiling: the post-order code of expression trees is translated
    back to these trees, each with the exact range of its opcodes. */
module Trees {
  import opened Wrappers
  import opened Bytecode
  import opened Exp
  import opened Translator
  import opened Machine
  import opened BinderBlocks
  import opened Discipline
  import opened MeaningPreserved
  import opened UnpackMeaning

  /** An opcode applied to the trees of its operands. */
  datatype Tree = Node(op: Bytecode, args: seq<Tree>)

  /** The opcodes of trees: they make one expression of their operands. */
  ghost predicate Operator(env: Env, op: Bytecode) {
    Usable(env, op) && !op.Pop? && !op.Nop?
  }

  /** Every operand produces a value; the whole may be a statement. */
  ghost predicate Proper(env: Env, t: Tree)
    decreases t
  {
    Operator(env, t.op) && |t.args| == Takes(env, t.op) && ProperOperands(env, t.args)
  }

  ghost predicate ProperOperands(env: Env, ts: seq<Tree>)
    decreases ts
  {
    ts == [] || (Gives(env, ts[0].op) && Proper(env, ts[0]) && ProperOperands(env, ts[1..]))
  }

  ghost function Code(t: Tree): seq<Bytecode>
    decreases t
  {
    CodeAll(t.args) + [t.op]
  }

  /** Post-order stack code. */
  ghost function CodeAll(ts: seq<Tree>): seq<Bytecode>
    decreases ts
  {
    if ts == [] then [] else Code(ts[0]) + CodeAll(ts[1..])
  }

  /** A binary operation, once freezes are erased. */
  ghost predicate IsBinary(env: Env, t: Tree)
    decreases t
  {
    if t.op.FreezeRef? then t.args != [] && IsBinary(env, t.args[0])
    else var p := Meaning(env.unit, env.retLen, t.op); p.Some? && p.value.Binary?
  }

  /** The expression is the tree without its freezes, with parentheses around every operand of
      a binary operation that is itself a binary operation, and nowhere else. */
  ghost predicate Represents(env: Env, e: Exp, t: Tree)
    decreases t
  {
    if t.op.FreezeRef? then |t.args| == 1 && Represents(env, e, t.args[0])
    else
      Head(e) == Meaning(env.unit, env.retLen, t.op) && Head(e).Some?
      && RepresentAll(env, Operands(e), t.args, Head(e).value.Binary?)
  }

  ghost function Unwrapped(x: ExpLoc): Exp {
    if x.exp.Basket? then x.exp.inner.exp else x.exp
  }

  ghost predicate RepresentAll(env: Env, xs: seq<ExpLoc>, ts: seq<Tree>, binary: bool)
    decreases ts
  {
    |xs| == |ts|
    && (ts == [] ||
        (&& (xs[0].exp.Basket? <==> binary && IsBinary(env, ts[0]))
         && Represents(env, Unwrapped(xs[0]), ts[0])
         && RepresentAll(env, xs[1..], ts[1..], binary)))
  }

  lemma {:induction false} BinaryIsRepresented(env: Env, e: Exp, t: Tree)
    requires Represents(env, e, t)
    ensures e.BinaryOp? <==> IsBinary(env, t)
    decreases t
  {
    if t.op.FreezeRef? {
      BinaryIsRepresented(env, e, t.args[0]);
    } else {
      HeadOfBinary(e);
    }
  }

  lemma HeadOfBinary(e: Exp)
    ensures e.BinaryOp? <==> Head(e).Some? && Head(e).value.Binary?
  {
  }

  /** The first opcode of the tree is a leaf that is frozen at once. */
  ghost predicate LeftFrozen(t: Tree)
    decreases t
  {
    t.args != [] && (LeftFrozen(t.args[0]) || (t.op.FreezeRef? && t.args[0].args == []))
  }

  // ----- Ranges -----

  lemma RangeCovers(x: ExpLoc)
    ensures Range(x).0 <= x.index <= Range(x).1
  {
  }

  lemma {:induction false} LeastCons(n: nat, ns: seq<nat>)
    requires ns != []
    ensures Least([n] + ns) == if n <= Least(ns) then n else Least(ns)
    ensures Greatest([n] + ns) == if n >= Greatest(ns) then n else Greatest(ns)
  {
  }

  lemma EndpointsCons(a: (nat, nat), rs: seq<(nat, nat)>)
    requires a.0 <= a.1
    ensures FindRange([a] + rs) ==
            match FindRange(rs)
            case None => Some(a)
            case Some(r) => Some((if a.0 <= r.0 then a.0 else r.0, if a.1 >= r.1 then a.1 else r.1))
  {
    assert ([a] + rs)[1..] == rs;
    var ends := Endpoints(rs);
    var all := Endpoints([a] + rs);
    if ends == [] {
      assert all == [a.0] + [a.1];
      LeastCons(a.0, [a.1]);
    } else {
      assert all == [a.0] + ([a.1] + ends);
      LeastCons(a.1, ends);
      LeastCons(a.0, [a.1] + ends);
      LeastIsLeast(ends);
    }
  }

  lemma LeastIsLeast(ns: seq<nat>)
    requires ns != []
    ensures Least(ns) <= Greatest(ns)
  {
  }

  lemma TwoRanges(x: ExpLoc, y: ExpLoc)
    ensures Ranges([x, y]) == [Range(x), Range(y)]
  {
  }

  lemma OneRange(a: (nat, nat))
    requires a.0 <= a.1
    ensures FindRange([a]) == Some(a)
  {
    EndpointsCons(a, []);
    assert [a] + [] == [a];
  }

  lemma {:induction false} FieldRangesAreRanges(fs: seq<PackField>)
    ensures FieldRanges(fs) == Ranges(FieldValues(fs))
  {
    if fs != [] {
      FieldRangesAreRanges(fs[1..]);
      assert FieldValues(fs)[1..] == FieldValues(fs[1..]);
    }
  }

  /** The source range of an expression is the range of its operands. */
  lemma OperandRanges(e: Exp)
    requires Head(e).Some? && !e.Unpack?
    ensures SourceRange(e) == FindRange(Ranges(Operands(e)))
  {
    hide FindRange;
    if |Operands(e)| == 1 && !e.Pack? {
      var x := Operands(e)[0];
      RangeCovers(x);
      OneRange(Range(x));
      assert Operands(e) == [x] && [x][1..] == [];
      assert Ranges([x]) == [Range(x)];
    } else if e.Pack? {
      FieldRangesAreRanges(e.fields);
    } else if e.BinaryOp? {
      TwoRanges(e.left, e.right);
    } else if e.WriteRef? {
      TwoRanges(e.val, e.valRef);
    } else if Operands(e) == [] {
      NoRange();
    }
  }

  /** That of an unpack is the range of its fields; what it takes apart does not count. */
  lemma UnpackRange(e: Exp)
    requires e.Unpack?
    ensures SourceRange(e) == FindRange(Ranges(FieldValues(e.fields)))
  {
    FieldRangesAreRanges(e.fields);
  }

  lemma WrappedRange(x: ExpLoc, y: ExpLoc, binary: bool)
    requires Wrapped(x, y, binary)
    ensures Range(x) == Range(y)
  {
  }

  lemma {:induction false} WrappedRanges(xs: seq<ExpLoc>, ys: seq<ExpLoc>, binary: bool)
    requires AllWrapped(xs, ys, binary)
    ensures Ranges(xs) == Ranges(ys)
  {
    if xs != [] {
      assert Wrapped(xs[0], ys[0], binary);
      WrappedRange(xs[0], ys[0], binary);
      forall i | 0 <= i < |xs| - 1 ensures Wrapped(xs[1..][i], ys[1..][i], binary) {
        assert Wrapped(xs[i + 1], ys[i + 1], binary);
      }
      WrappedRanges(xs[1..], ys[1..], binary);
    }
  }

  // ----- The translation of trees -----

  /** The entry recovered for a tree whose code starts at `n`: it represents the tree, and
      the source range of its operands, if any, starts at `n` unless a frozen leaf does. */
  ghost predicate Recovered(env: Env, x: ExpLoc, t: Tree, n: nat) {
    var last := n + |CodeAll(t.args)|;
    Represents(env, x.exp, t) && (Gives(env, t.op) ==> ValueExp(x.exp)) && !x.exp.Basket? && x.index == last
    && match SourceRange(x.exp)
       case None => LeftFrozen(t) <==> n < last
       case Some(r) => t.args != [] && n <= r.0 <= r.1 <= last && (r.0 == n <==> !LeftFrozen(t))
  }

  /** Entries of consecutive trees. */
  ghost predicate RecoveredAll(env: Env, xs: seq<ExpLoc>, ts: seq<Tree>, n: nat)
    decreases |ts|
  {
    |xs| == |ts|
    && (ts == [] || (Recovered(env, xs[0], ts[0], n) && RecoveredAll(env, xs[1..], ts[1..], n + |Code(ts[0])|)))
  }

  /** The range of a recovered entry is the interval of its opcodes if, and only if, its
      first opcode is not a leaf that is frozen at once. */
  lemma {:induction false} RangeOfRecovered(env: Env, x: ExpLoc, t: Tree, n: nat)
    requires Recovered(env, x, t, n)
    ensures Range(x).1 == n + |Code(t)| - 1 && n <= Range(x).0 <= Range(x).1
    ensures Range(x) == (n, n + |Code(t)| - 1) <==> !LeftFrozen(t)
  {
  }

  /** Such a leaf: a borrowed local that is frozen has two opcodes, but its range is that of
      the freeze alone. */
  lemma FrozenLeafIsShort(env: Env, local: nat)
    ensures var x := ExpLoc(1, Ref(true, local));
            Translation(env, [MutBorrowLoc(local), FreezeRef], 0, 2, []).list == [x] && Range(x) == (1, 1)
  {
    hide Translation, PlainExp, Step, Range;
    var code, leaf, x := [MutBorrowLoc(local), FreezeRef], ExpLoc(0, Ref(true, local)), ExpLoc(1, Ref(true, local));
    LeafIsPushed(env, code, local);
    TranslationStep(env, code, 0, 2, []);
    LeafIsFrozen(env, code, leaf);
    TranslationStep(env, code, 1, 2, [leaf]);
    TranslationEnds(env, code, 2, 2, [x]);
    LeafRange(x);
  }

  lemma LeafIsPushed(env: Env, code: seq<Bytecode>, local: nat)
    requires code != [] && code[0] == MutBorrowLoc(local)
    ensures Step(env, code, 0, []) == Translated([ExpLoc(0, Ref(true, local))], 1)
  {
    hide Translation;
  }

  lemma LeafIsFrozen(env: Env, code: seq<Bytecode>, leaf: ExpLoc)
    requires |code| > 1 && code[1] == FreezeRef
    ensures Step(env, code, 1, [leaf]) == Translated([ExpLoc(1, leaf.exp)], 2)
  {
    hide Translation, PlainExp;
    FreezeIsErased(env, FreezeRef, [leaf], 1);
  }

  lemma LeafRange(x: ExpLoc)
    requires x.exp.Ref?
    ensures Range(x) == (x.index, x.index)
  {
  }

  lemma {:induction false} RangeOfOperands(env: Env, xs: seq<ExpLoc>, ts: seq<Tree>, n: nat)
    requires RecoveredAll(env, xs, ts, n)
    ensures ts == [] ==> FindRange(Ranges(xs)).None?
    ensures ts != [] ==>
              FindRange(Ranges(xs)).Some?
              && var r := FindRange(Ranges(xs)).value;
                 r.1 == n + |CodeAll(ts)| - 1 && n <= r.0 <= r.1 && (r.0 == n <==> !LeftFrozen(ts[0]))
    decreases |ts|
  {
    hide Recovered, LeftFrozen, Range, FindRange;
    if ts == [] {
      assert Ranges(xs) == [];
      NoRange();
    } else {
      RangeOfRecovered(env, xs[0], ts[0], n);
      RangeOfOperands(env, xs[1..], ts[1..], n + |Code(ts[0])|);
      EndpointsCons(Range(xs[0]), Ranges(xs[1..]));
    }
  }

  lemma NoRange()
    ensures FindRange([]).None?
  {
  }

  lemma {:induction false} OperandsRepresent(env: Env, xs: seq<ExpLoc>, ys: seq<ExpLoc>, ts: seq<Tree>, binary: bool, n: nat)
    requires AllWrapped(xs, ys, binary) && RecoveredAll(env, ys, ts, n)
    ensures RepresentAll(env, xs, ts, binary)
    decreases |ts|
  {
    hide Represents, IsBinary, ValueExp, LeftFrozen;
    if ts != [] {
      BinaryIsRepresented(env, ys[0].exp, ts[0]);
      assert Wrapped(xs[0], ys[0], binary);
      forall i | 0 <= i < |xs| - 1 ensures Wrapped(xs[1..][i], ys[1..][i], binary) {
        assert Wrapped(xs[i + 1], ys[i + 1], binary);
      }
      OperandsRepresent(env, xs[1..], ys[1..], ts[1..], binary, n + |Code(ts[0])|);
    }
  }

  lemma {:induction false} OperandsAreValues(env: Env, xs: seq<ExpLoc>, ts: seq<Tree>, n: nat)
    requires RecoveredAll(env, xs, ts, n) && ProperOperands(env, ts)
    ensures AllValues(xs)
    decreases |ts|
  {
    hide Represents, ValueExp, LeftFrozen, Gives, Proper;
    if ts != [] {
      OperandsAreValues(env, xs[1..], ts[1..], n + |Code(ts[0])|);
      forall i | 0 <= i < |xs| ensures ValueExp(xs[i].exp) {
        if i > 0 {
          assert xs[i] == xs[1..][i - 1];
        }
      }
    }
  }

  /** The entry made of recovered operands is recovered. */
  lemma NodeIsRecovered(env: Env, t: Tree, n: nat, list: seq<ExpLoc>, xs: seq<ExpLoc>, at: nat)
    requires Proper(env, t) && !t.op.FreezeRef? && RecoveredAll(env, xs, t.args, n) && at == n + |CodeAll(t.args)|
    ensures var b := PlainExp(env, t.op, list + xs, at);
            b.rest == list && Recovered(env, ExpLoc(at, b.exp), t, n)
  {
    hide PlainExp, Meaning, Usable, Builds, Recovered, RecoveredAll, Represents, AllValues;
    OperandCount(env, t, xs, n);
    var b, p := PlainExp(env, t.op, list + xs, at), Meaning(env.unit, env.retLen, t.op).value;
    assert TopEntries(list + xs, |xs|) == xs && (list + xs)[..|list + xs| - |xs|] == list;
    OperandsAreValues(env, xs, t.args, n);
    OpcodeBuilds(env, t.op, list + xs, at);
    BuiltIsRecovered(env, t, n, list, xs, at, b, p);
  }

  lemma {:induction false} OperandCount(env: Env, t: Tree, xs: seq<ExpLoc>, n: nat)
    requires Proper(env, t) && !t.op.FreezeRef? && RecoveredAll(env, xs, t.args, n)
    ensures |xs| == |t.args| == Takes(env, t.op) && Usable(env, t.op) && !t.op.Nop? && !t.op.Pop? && ProperOperands(env, t.args)
    ensures Meaning(env.unit, env.retLen, t.op).Some? && Meaning(env.unit, env.retLen, t.op).value.Arity() == |xs|
    ensures Gives(env, t.op) <==> Meaning(env.unit, env.retLen, t.op).value.Results() == 1
  {
    hide Recovered, Meaning;
  }

  lemma {:induction false} BuiltIsRecovered(env: Env, t: Tree, n: nat, list: seq<ExpLoc>, xs: seq<ExpLoc>, at: nat, b: Built, p: Prim)
    requires !t.op.FreezeRef? && RecoveredAll(env, xs, t.args, n) && at == n + |CodeAll(t.args)|
    requires Meaning(env.unit, env.retLen, t.op) == Some(p) && (Gives(env, t.op) <==> p.Results() == 1) && |xs| == |t.args|
    requires p.Arity() == |xs| && Builds(b, p, list + xs)
    ensures b.rest == list && Recovered(env, ExpLoc(at, b.exp), t, n)
  {
    hide Meaning, SourceRange, FindRange, RecoveredAll, Gives, Ranges;
    BuiltOver(b, p, list, xs);
    OperandRanges(b.exp);
    WrappedRanges(Operands(b.exp), xs, p.Binary?);
    RangeOfOperands(env, xs, t.args, n);
    OperandsRepresent(env, Operands(b.exp), xs, t.args, p.Binary?, n);
  }

  lemma BuiltOver(b: Built, p: Prim, list: seq<ExpLoc>, xs: seq<ExpLoc>)
    requires p.Arity() == |xs| && Builds(b, p, list + xs)
    ensures b.rest == list && Head(b.exp) == Some(p) && !b.exp.Unpack? && !b.exp.Basket? && AllWrapped(Operands(b.exp), xs, p.Binary?)
  {
    hide Operands;
    assert TopEntries(list + xs, |xs|) == xs && (list + xs)[..|list + xs| - |xs|] == list;
  }

  lemma FreezeIsRecovered(env: Env, t: Tree, n: nat, list: seq<ExpLoc>, x: ExpLoc, at: nat)
    requires Proper(env, t) && t.op.FreezeRef? && Recovered(env, x, t.args[0], n) && at == n + |CodeAll(t.args)|
    ensures var b := PlainExp(env, t.op, list + [x], at);
            b.rest == list && Recovered(env, ExpLoc(at, b.exp), t, n)
  {
    assert t.args == [t.args[0]] && CodeAll(t.args) == Code(t.args[0]) + [] == Code(t.args[0]);
    FreezeIsErased(env, t.op, list + [x], at);
    var inner := t.args[0].args;
    assert inner != [] ==> CodeAll(inner) == Code(inner[0]) + CodeAll(inner[1..]) && |Code(inner[0])| > 0;
  }

  ghost predicate Holds(code: seq<Bytecode>, n: nat, part: seq<Bytecode>) {
    n <= |code| && part <= code[n..]
  }

  lemma HoldsParts(code: seq<Bytecode>, n: nat, a: seq<Bytecode>, b: seq<Bytecode>)
    requires Holds(code, n, a + b)
    ensures Holds(code, n, a) && Holds(code, n + |a|, b)
  {
  }

  /** Translating the code of a tree, from any list, appends exactly one entry, that of the
      tree, and leaves the entries before it alone. */
  lemma {:induction false} TreeIsRecovered(env: Env, code: seq<Bytecode>, n: nat, list: seq<ExpLoc>, t: Tree)
    returns (x: ExpLoc)
    requires Proper(env, t) && Holds(code, n, Code(t))
    ensures Translation(env, code, n, |code|, list) == Translation(env, code, n + |Code(t)|, |code|, list + [x])
    ensures Recovered(env, x, t, n)
    decreases t
  {
    hide Translation, Step, PlainExp, Recovered, Usable, Represents;
    HoldsParts(code, n, CodeAll(t.args), [t.op]);
    var at := n + |CodeAll(t.args)|;
    assert code[n..][|CodeAll(t.args)|] == t.op == code[at];
    OperandsAreProper(env, t.args);
    var xs := TreesAreRecovered(env, code, n, list, t.args);
    OperatorIsPlain(env, t.op);
    TranslationStep(env, code, at, |code|, list + xs);
    StepOfPlain(env, code, at, list + xs);
    x := ExpLoc(at, PlainExp(env, t.op, list + xs, at).exp);
    if t.op.FreezeRef? {
      assert xs == [xs[0]];
      FreezeIsRecovered(env, t, n, list, xs[0], at);
    } else {
      NodeIsRecovered(env, t, n, list, xs, at);
    }
  }

  lemma OperatorIsPlain(env: Env, op: Bytecode)
    requires Operator(env, op)
    ensures UnpackedFields(env.unit, op).None? && UnpackTarget(env.unit, op).None?
  {
  }

  ghost predicate ProperAll(env: Env, ts: seq<Tree>) {
    forall t :: t in ts ==> Proper(env, t)
  }

  lemma {:induction false} OperandsAreProper(env: Env, ts: seq<Tree>)
    requires ProperOperands(env, ts)
    ensures ProperAll(env, ts)
  {
    hide Proper, Gives;
    if ts != [] {
      OperandsAreProper(env, ts[1..]);
      forall t | t in ts ensures Proper(env, t) {
        assert t == ts[0] || t in ts[1..];
      }
    }
  }

  /** A list of trees, such as the statements of a body that ends in a return, becomes one
      entry per tree. */
  lemma {:induction false} TreesAreRecovered(env: Env, code: seq<Bytecode>, n: nat, list: seq<ExpLoc>, ts: seq<Tree>)
    returns (xs: seq<ExpLoc>)
    requires ProperAll(env, ts) && Holds(code, n, CodeAll(ts))
    ensures Translation(env, code, n, |code|, list) == Translation(env, code, n + |CodeAll(ts)|, |code|, list + xs)
    ensures RecoveredAll(env, xs, ts, n)
    decreases ts
  {
    hide Translation, Recovered, Proper;
    if ts == [] {
      xs := [];
      assert list + xs == list;
    } else {
      HoldsParts(code, n, Code(ts[0]), CodeAll(ts[1..]));
      var x := TreeIsRecovered(env, code, n, list, ts[0]);
      var rest := TreesAreRecovered(env, code, n + |Code(ts[0])|, list + [x], ts[1..]);
      xs := [x] + rest;
      assert xs[1..] == rest && list + [x] + rest == list + xs;
    }
  }

  /** Decompiling inverts compiling: the body made of the trees is translated to one entry
      per tree. */
  lemma BodyIsRecovered(env: Env, ts: seq<Tree>) returns (xs: seq<ExpLoc>)
    requires ProperAll(env, ts)
    ensures Translation(env, CodeAll(ts), 0, |CodeAll(ts)|, []).list == xs && RecoveredAll(env, xs, ts, 0)
  {
    hide Translation, Recovered, RecoveredAll, Proper, CodeAll;
    var code := CodeAll(ts);
    assert code[0..] == code;
    xs := TreesAreRecovered(env, code, 0, [], ts);
    assert [] + xs == xs;
    TranslationEnds(env, code, |code|, |code|, xs);
  }

  // ----- The discipline of trees -----

  ghost function Shape(env: Env, ts: seq<Tree>): (shape: seq<bool>)
    ensures |shape| == |ts|
  {
    seq(|ts|, i requires 0 <= i < |ts| => Gives(env, ts[i].op))
  }

  /** Code of trees obeys the discipline, so its meaning is preserved. */
  lemma {:induction false} TreeIsDisciplined(env: Env, code: seq<Bytecode>, n: nat, shape: seq<bool>, t: Tree)
    requires Proper(env, t) && Holds(code, n, Code(t))
    requires Disciplined(env, code, n + |Code(t)|, shape + [Gives(env, t.op)])
    ensures Disciplined(env, code, n, shape)
    decreases t
  {
    hide Proper, Usable, Takes, Gives;
    HoldsParts(code, n, CodeAll(t.args), [t.op]);
    var at, operands := n + |CodeAll(t.args)|, Shape(env, t.args);
    assert code[n..][|CodeAll(t.args)|] == t.op == code[at];
    OperandShape(env, t);
    var under := shape + operands;
    assert under[..|under| - |operands|] == shape && under[|under| - |operands|..] == operands;
    assert Disciplined(env, code, at + 1, ShapeAfter(env, t.op, under));
    assert Disciplined(env, code, at, under);
    TreesAreDisciplined(env, code, n, shape, t.args);
  }

  lemma OperandShape(env: Env, t: Tree)
    requires Proper(env, t)
    ensures |Shape(env, t.args)| == Takes(env, t.op) && AllTrue(Shape(env, t.args)) && ProperAll(env, t.args)
    ensures Usable(env, t.op) && !t.op.Pop? && UnpackedFields(env.unit, t.op).None?
  {
    OperandsGive(env, t.args);
    OperandsAreProper(env, t.args);
    OperatorIsPlain(env, t.op);
  }

  lemma {:induction false} OperandsGive(env: Env, ts: seq<Tree>)
    requires ProperOperands(env, ts)
    ensures forall i :: 0 <= i < |ts| ==> Gives(env, ts[i].op)
  {
    hide Proper, Gives;
    if ts != [] {
      OperandsGive(env, ts[1..]);
      forall i | 0 <= i < |ts| ensures Gives(env, ts[i].op) {
        assert i > 0 ==> ts[i] == ts[1..][i - 1];
      }
    }
  }

  lemma {:induction false} TreesAreDisciplined(env: Env, code: seq<Bytecode>, n: nat, shape: seq<bool>, ts: seq<Tree>)
    requires ProperAll(env, ts) && Holds(code, n, CodeAll(ts))
    requires Disciplined(env, code, n + |CodeAll(ts)|, shape + Shape(env, ts))
    ensures Disciplined(env, code, n, shape)
    decreases ts
  {
    hide Proper, Disciplined, Gives;
    if ts == [] {
      assert shape + Shape(env, ts) == shape;
    } else {
      HoldsParts(code, n, Code(ts[0]), CodeAll(ts[1..]));
      var first := shape + [Gives(env, ts[0].op)];
      assert first + Shape(env, ts[1..]) == shape + Shape(env, ts);
      TreesAreDisciplined(env, code, n + |Code(ts[0])|, first, ts[1..]);
      TreeIsDisciplined(env, code, n, shape, ts[0]);
    }
  }

  lemma BodyIsDisciplined(env: Env, ts: seq<Tree>)
    requires ProperAll(env, ts)
    ensures Disciplined(env, CodeAll(ts), 0, [])
  {
    hide Proper, CodeAll, Gives;
    var code := CodeAll(ts);
    assert code[0..] == code;
    TreesAreDisciplined(env, code, 0, [], ts);
  }
}
