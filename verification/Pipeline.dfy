/** Runs of scripts one after the other (executor/src/session.rs, executor/src/execution.rs)
    over a virtual machine that is a parameter. */
module Pipeline {
  import opened Wrappers

  type Bytes = seq<byte>

  datatype Key = Key(address: nat, tag: string)

  type Store = map<Key, Bytes>

  /** Resources that are written, or removed. */
  type Effects = seq<(Key, Option<Bytes>)>

  /** What the doc comments of a script ask for; prices and balances come with their keys. */
  datatype Meta = Meta(signers: seq<nat>, accountsBalance: seq<(Key, nat)>, oraclePrices: seq<(Key, nat)>, currentTime: Option<nat>,
                       abortsWith: Option<nat>, status: Option<nat>, block: Option<nat>, dryRun: bool)

  datatype Script = Script(name: string, code: Bytes, meta: Meta)

  /** The virtual machine; `Broken` stands for a failure outside of the script. */
  datatype VmResult = Executed(effects: Effects) | MoveAbort(code: nat) | ExecutionFailure(status: nat) | VmError | Broken

  type Vm = (Store, Bytes, seq<nat>, seq<nat>) -> VmResult

  datatype StepResult = Success(writeSetSize: nat) | ExpectedError | Error

  const TIME: Key := Key(1, "Time::CurrentTimestamp")
  const BLOCK: Key := Key(1, "Block::BlockMetadata")
  const BLOCK_HEIGHT: nat := 100

  function LittleEndian(n: nat, width: nat): Bytes {
    if width == 0 then [] else [n % 256] + LittleEndian(n / 256, width - 1)
  }

  function Written(store: Store, values: seq<(Key, nat)>): Store {
    if values == [] then store
    else
      var n := |values| - 1;
      Written(store, values[..n])[values[n].0 := LittleEndian(values[n].1, 16)]
  }

  /** The copy of the store that a script runs on. */
  function Injected(store: Store, meta: Meta): Store {
    var timed := if meta.currentTime.Some? then store[TIME := LittleEndian(meta.currentTime.value, 8)] else store;
    var height := if meta.block.Some? then meta.block.value else BLOCK_HEIGHT;
    Written(Written(timed[BLOCK := LittleEndian(height, 8)], meta.oraclePrices), meta.accountsBalance)
  }

  function Merged(store: Store, effects: Effects): Store {
    if effects == [] then store
    else
      var n := |effects| - 1;
      var before := Merged(store, effects[..n]);
      match effects[n].1
      case Some(bytes) => before[effects[n].0 := bytes]
      case None => before - {effects[n].0}
  }

  function WriteSetSize(effects: Effects): nat {
    if effects == [] then 0
    else
      var n := |effects| - 1;
      WriteSetSize(effects[..n]) + if effects[n].1.Some? then |effects[n].1.value| else 0
  }

  /** One script: its result, or a failure that ends everything, and what it leaves to merge. */
  datatype Step = Step(result: Option<StepResult>, effects: Effects)

  function Expected(expected: Option<nat>, code: nat): StepResult {
    if expected == Some(code) then ExpectedError else Error
  }

  function StepOf(vm: Vm, hasCoins: bool, store: Store, script: Script, args: seq<nat>): Step {
    if script.meta.oraclePrices != [] && !hasCoins then Step(Some(Error), [])
    else
      match vm(Injected(store, script.meta), script.code, args, script.meta.signers)
      case Executed(effects) => Step(Some(Success(WriteSetSize(effects))), if script.meta.dryRun then [] else effects)
      case MoveAbort(code) => Step(Some(Expected(script.meta.abortsWith, code)), [])
      case ExecutionFailure(status) => Step(Some(Expected(script.meta.status, status)), [])
      case VmError => Step(Some(Error), [])
      case Broken => Step(None, [])
  }

  /** The results up to the first error, and the store. */
  datatype Outcome = Finished(results: seq<(string, StepResult)>, store: Store) | Failed

  function Run(vm: Vm, hasCoins: bool, store: Store, scripts: seq<Script>, args: seq<nat>): Outcome
    decreases |scripts|
  {
    if scripts == [] then Finished([], store)
    else
      var step := StepOf(vm, hasCoins, store, scripts[0], args);
      var after := Merged(store, step.effects);
      match step.result
      case None => Failed
      case Some(r) =>
        if r.Error? then Finished([(scripts[0].name, r)], after)
        else Prepend((scripts[0].name, r), Run(vm, hasCoins, after, scripts[1..], []))
  }

  function Prepend(r: (string, StepResult), rest: Outcome): Outcome {
    match rest
    case Failed => Failed
    case Finished(results, store) => Finished([r] + results, store)
  }

  ghost function PrependAll(rs: seq<(string, StepResult)>, rest: Outcome): Outcome {
    match rest
    case Failed => Failed
    case Finished(results, store) => Finished(rs + results, store)
  }

  // ----- The store, key by key -----

  ghost predicate LastFor<V>(values: seq<(Key, V)>, key: Key, k: nat) {
    k < |values| && values[k].0 == key && forall j :: k < j < |values| ==> values[j].0 != key
  }

  ghost predicate NoneFor<V>(values: seq<(Key, V)>, key: Key) {
    forall j :: 0 <= j < |values| ==> values[j].0 != key
  }

  ghost function At(store: Store, key: Key): Option<Bytes> {
    if key in store then Some(store[key]) else None
  }

  /** After a merge the last effect on a key decides: the bytes that it writes, or none after a
      removal; a key without an effect is as before. */
  lemma {:induction false} LastEffectDecides(store: Store, effects: Effects, key: Key)
    ensures NoneFor(effects, key) ==> At(Merged(store, effects), key) == At(store, key)
    ensures forall k: nat :: LastFor(effects, key, k) ==> At(Merged(store, effects), key) == effects[k].1
    decreases |effects|
  {
    hide NoneFor, LastFor;
    if effects == [] {
      NothingFor(effects, key);
    } else {
      var front, last := effects[..|effects| - 1], effects[|effects| - 1];
      LastEffectDecides(store, front, key);
      ForSnoc(effects, key);
    }
  }

  lemma NothingFor<V>(values: seq<(Key, V)>, key: Key)
    requires values == []
    ensures forall k: nat :: !LastFor(values, key, k)
  {
  }

  lemma ForSnoc<V>(values: seq<(Key, V)>, key: Key)
    requires values != []
    ensures var front, last := values[..|values| - 1], values[|values| - 1];
            (NoneFor(values, key) <==> NoneFor(front, key) && last.0 != key)
            && forall k: nat :: LastFor(values, key, k) <==>
                 if last.0 == key then k == |values| - 1 else k < |front| && values[k] == front[k] && LastFor(front, key, k)
  {
    var front, last := values[..|values| - 1], values[|values| - 1];
    assert forall j :: 0 <= j < |front| ==> front[j] == values[j];
  }

  lemma {:induction false} LastValueIsWritten(store: Store, values: seq<(Key, nat)>, key: Key)
    ensures NoneFor(values, key) ==> At(Written(store, values), key) == At(store, key)
    ensures forall k: nat :: LastFor(values, key, k) ==> At(Written(store, values), key) == Some(LittleEndian(values[k].1, 16))
    decreases |values|
  {
    hide LittleEndian, NoneFor, LastFor;
    if values == [] {
      NothingFor(values, key);
    } else {
      LastValueIsWritten(store, values[..|values| - 1], key);
      ForSnoc(values, key);
    }
  }

  /** What the copy holds at a key: the last balance for it, else the last price, else the
      block height, 100 by default, or the time, if it is one of their keys, else what the
      store holds. */
  lemma InjectedAtKey(store: Store, meta: Meta, key: Key)
    ensures var got := At(Injected(store, meta), key);
            (forall k: nat :: LastFor(meta.accountsBalance, key, k) ==>
               got == Some(LittleEndian(meta.accountsBalance[k].1, 16)))
            && (NoneFor(meta.accountsBalance, key) ==>
                  (forall k: nat :: LastFor(meta.oraclePrices, key, k) ==> got == Some(LittleEndian(meta.oraclePrices[k].1, 16)))
                  && (NoneFor(meta.oraclePrices, key) ==>
                        got ==
                        if key == Key(1, "Block::BlockMetadata")
                        then Some(LittleEndian(if meta.block.Some? then meta.block.value else 100, 8))
                        else if key == Key(1, "Time::CurrentTimestamp") && meta.currentTime.Some?
                        then Some(LittleEndian(meta.currentTime.value, 8))
                        else At(store, key)))
  {
    hide Written, LittleEndian;
    var timed := if meta.currentTime.Some? then store[TIME := LittleEndian(meta.currentTime.value, 8)] else store;
    var height := if meta.block.Some? then meta.block.value else BLOCK_HEIGHT;
    var blocked := timed[BLOCK := LittleEndian(height, 8)];
    LastValueIsWritten(blocked, meta.oraclePrices, key);
    LastValueIsWritten(Written(blocked, meta.oraclePrices), meta.accountsBalance, key);
    KeysDiffer();
  }

  lemma KeysDiffer()
    ensures TIME != BLOCK
  {
    assert "Time::CurrentTimestamp"[0] != "Block::BlockMetadata"[0];
  }

  ghost function FromLittleEndian(b: Bytes): nat {
    if b == [] then 0 else b[0] as nat + 256 * FromLittleEndian(b[1..])
  }

  ghost predicate FitsIn(n: nat, width: nat) {
    if width == 0 then n == 0 else FitsIn(n / 256, width - 1)
  }

  /** A number that fits is written in so many bytes, the lowest first. */
  lemma {:induction false} LittleEndianIsRead(n: nat, width: nat)
    ensures |LittleEndian(n, width)| == width
    ensures FitsIn(n, width) ==> FromLittleEndian(LittleEndian(n, width)) == n
  {
    if width > 0 {
      LittleEndianIsRead(n / 256, width - 1);
    }
  }

  // The bytes that the effects write, one after the other.
  ghost function AllWritten(effects: Effects): Bytes {
    if effects == [] then []
    else
      var last := effects[|effects| - 1].1;
      AllWritten(effects[..|effects| - 1]) + (if last.Some? then last.value else [])
  }

  /** The size that a success reports is the number of all bytes written. */
  lemma {:induction false} WriteSetSizeIsLength(effects: Effects)
    ensures WriteSetSize(effects) == |AllWritten(effects)|
    decreases |effects|
  {
    if effects != [] {
      WriteSetSizeIsLength(effects[..|effects| - 1]);
    }
  }

  /** What becomes of a script: it does not run when prices are asked for and `0x1::Coins` is
      missing; an abort is expected if its code is the one announced as `aborts_with`, and an
      execution failure if its status is the one announced as `status`; only an execution
      that is no dry run has effects to merge. */
  lemma StepIsDecided(vm: Vm, hasCoins: bool, store: Store, script: Script, args: seq<nat>)
    ensures var step, meta := StepOf(vm, hasCoins, store, script, args), script.meta;
            var r := vm(Injected(store, meta), script.code, args, meta.signers);
            if meta.oraclePrices != [] && !hasCoins then step == Step(Some(Error), [])
            else
              (step.result.None? <==> r.Broken?)
              && (r.Executed? ==> step.result == Some(Success(WriteSetSize(r.effects))))
              && (step.result.Some? && step.result.value.Success? ==> r.Executed?)
              && (step.result == Some(ExpectedError) <==>
                    (r.MoveAbort? && meta.abortsWith == Some(r.code)) || (r.ExecutionFailure? && meta.status == Some(r.status)))
              && step.effects == if r.Executed? && !meta.dryRun then r.effects else []
  {
    hide Injected, WriteSetSize;
  }

  // ----- The program -----

  class FakeRemoteCache {
    const hasCoins: bool
    var resources: Store

    constructor (hasCoins: bool)
      ensures this.hasCoins == hasCoins && resources == map[]
    {
      this.hasCoins := hasCoins;
      resources := map[];
    }

    method MergeEffects(effects: Effects)
      modifies this
      ensures resources == Merged(old(resources), effects)
    {
      assert effects[..0] == [];
      for i := 0 to |effects|
        invariant resources == Merged(old(resources), effects[..i])
      {
        assert effects[..i + 1][..i] == effects[..i];
        var (key, val) := effects[i];
        match val {
          case Some(bytes) => resources := resources[key := bytes];
          case None => resources := resources - {key};
        }
      }
      assert effects[..|effects|] == effects;
    }
  }

  /** `insert` one value after the other into the copy. */
  method InsertValues(store: Store, values: seq<(Key, nat)>) returns (ds: Store)
    ensures ds == Written(store, values)
  {
    ds := store;
    assert values[..0] == [];
    for i := 0 to |values|
      invariant ds == Written(store, values[..i])
    {
      assert values[..i + 1][..i] == values[..i];
      ds := ds[values[i].0 := LittleEndian(values[i].1, 16)];
    }
    assert values[..|values|] == values;
  }

  method ExecuteScript(vm: Vm, script: Script, dataStore: FakeRemoteCache, args: seq<nat>) returns (r: Option<StepResult>)
    modifies dataStore
    ensures var step := StepOf(vm, dataStore.hasCoins, old(dataStore.resources), script, args);
            r == step.result && dataStore.resources == Merged(old(dataStore.resources), step.effects)
  {
    var ds, meta := dataStore.resources, script.meta;
    if meta.oraclePrices != [] && !dataStore.hasCoins {
      return Some(Error);
    }
    if meta.currentTime.Some? {
      ds := ds[TIME := LittleEndian(meta.currentTime.value, 8)];
    }
    var blockHeight := if meta.block.Some? then meta.block.value else BLOCK_HEIGHT;
    ds := ds[BLOCK := LittleEndian(blockHeight, 8)];
    ds := InsertValues(ds, meta.oraclePrices);
    ds := InsertValues(ds, meta.accountsBalance);
    match vm(ds, script.code, args, meta.signers) {
      case Executed(effects) =>
        if !meta.dryRun {
          dataStore.MergeEffects(effects);
        }
        r := Some(Success(WriteSetSize(effects)));
      case MoveAbort(code) =>
        r := Some(Expected(meta.abortsWith, code));
      case ExecutionFailure(status) =>
        r := Some(Expected(meta.status, status));
      case VmError =>
        r := Some(Error);
      case Broken =>
        r := None;
    }
  }

  /** All scripts in order; the arguments go to the first, and an error ends the run. */
  method Execute(vm: Vm, hasCoins: bool, scripts: seq<Script>, scriptArgs: seq<nat>)
    returns (results: Option<seq<(string, StepResult)>>)
    ensures results ==
            match Run(vm, hasCoins, map[], scripts, scriptArgs) case Failed => None case Finished(rs, _) => Some(rs)
  {
    hide Merged, StepOf;
    var dataStore := new FakeRemoteCache(hasCoins);
    var args, stepResults := scriptArgs, [];
    ghost var whole := Run(vm, hasCoins, map[], scripts, scriptArgs);
    for i := 0 to |scripts|
      invariant dataStore.hasCoins == hasCoins && fresh(dataStore)
      invariant whole == PrependAll(stepResults, Run(vm, hasCoins, dataStore.resources, scripts[i..], args))
    {
      var script := scripts[i];
      assert scripts[i..][1..] == scripts[i + 1..];
      var stepResult := ExecuteScript(vm, script, dataStore, args);
      if stepResult.None? {
        return None;
      }
      args := [];
      ghost var before := stepResults;
      stepResults := stepResults + [(script.name, stepResult.value)];
      if stepResult.value.Error? {
        return Some(stepResults);
      }
      RegroupResults(before, (script.name, stepResult.value), Run(vm, hasCoins, dataStore.resources, scripts[i + 1..], []));
    }
    assert stepResults + [] == stepResults;
    return Some(stepResults);
  }

  lemma RegroupResults(rs: seq<(string, StepResult)>, r: (string, StepResult), rest: Outcome)
    ensures PrependAll(rs, Prepend(r, rest)) == PrependAll(rs + [r], rest)
  {
  }

  // ----- What a run is -----

  /** The arguments of the script at a position. */
  ghost function ArgsAt(args: seq<nat>, i: nat): seq<nat> {
    if i == 0 then args else []
  }

  /** The store before the script at a position: the fold of what the scripts before it left. */
  ghost function StoreAt(vm: Vm, hasCoins: bool, store: Store, scripts: seq<Script>, args: seq<nat>, i: nat): Store
    requires i <= |scripts|
  {
    if i == 0 then store
    else
      var before := StoreAt(vm, hasCoins, store, scripts, args, i - 1);
      Merged(before, StepOf(vm, hasCoins, before, scripts[i - 1], ArgsAt(args, i - 1)).effects)
  }

  ghost function StepAt(vm: Vm, hasCoins: bool, store: Store, scripts: seq<Script>, args: seq<nat>, i: nat): Step
    requires i < |scripts|
  {
    StepOf(vm, hasCoins, StoreAt(vm, hasCoins, store, scripts, args, i), scripts[i], ArgsAt(args, i))
  }

  lemma {:induction false} StoreShift(vm: Vm, hasCoins: bool, store: Store, scripts: seq<Script>, args: seq<nat>, i: nat)
    requires 0 < i <= |scripts|
    ensures StoreAt(vm, hasCoins, store, scripts, args, i) ==
            StoreAt(vm, hasCoins, Merged(store, StepOf(vm, hasCoins, store, scripts[0], args).effects), scripts[1..], [], i - 1)
    decreases i
  {
    hide Merged, StepOf;
    if i == 1 {
      assert StoreAt(vm, hasCoins, store, scripts, args, 0) == store;
    } else {
      StoreShift(vm, hasCoins, store, scripts, args, i - 1);
    }
  }

  /** The results up to `n` are those of the scripts on the stores that the scripts before
      them left, without an error before the last. */
  ghost predicate IsFold(vm: Vm, hasCoins: bool, store: Store, scripts: seq<Script>, args: seq<nat>,
                         results: seq<(string, StepResult)>, final: Store) {
    var n := |results|;
    n <= |scripts| && final == StoreAt(vm, hasCoins, store, scripts, args, n)
    && (forall i :: 0 <= i < n ==> ResultAt(vm, hasCoins, store, scripts, args, i, results[i]))
    && (forall i :: 0 <= i < n - 1 ==> !results[i].1.Error?)
    && (n == |scripts| || (n > 0 && results[n - 1].1.Error?))
  }

  ghost predicate ResultAt(vm: Vm, hasCoins: bool, store: Store, scripts: seq<Script>, args: seq<nat>, i: nat, r: (string, StepResult))
    requires i < |scripts|
  {
    r.0 == scripts[i].name && StepAt(vm, hasCoins, store, scripts, args, i).result == Some(r.1)
  }

  /** The script is broken, and no script before it is, nor is any of them in error. */
  ghost predicate BreaksAt(vm: Vm, hasCoins: bool, store: Store, scripts: seq<Script>, args: seq<nat>, k: nat)
    requires k < |scripts|
  {
    StepAt(vm, hasCoins, store, scripts, args, k).result.None?
    && forall i :: 0 <= i < k ==>
         var r := StepAt(vm, hasCoins, store, scripts, args, i).result; r.Some? && !r.value.Error?
  }

  lemma {:induction false} StepShift(vm: Vm, hasCoins: bool, store: Store, scripts: seq<Script>, args: seq<nat>)
    requires scripts != []
    ensures var after := Merged(store, StepOf(vm, hasCoins, store, scripts[0], args).effects);
            forall i :: 0 <= i < |scripts| - 1 ==>
              StepAt(vm, hasCoins, store, scripts, args, i + 1) == StepAt(vm, hasCoins, after, scripts[1..], [], i)
  {
    hide Merged, StepOf, StoreAt;
    forall i | 0 <= i < |scripts| - 1
      ensures StepAt(vm, hasCoins, store, scripts, args, i + 1) ==
              StepAt(vm, hasCoins, Merged(store, StepOf(vm, hasCoins, store, scripts[0], args).effects), scripts[1..], [], i)
    {
      StoreShift(vm, hasCoins, store, scripts, args, i + 1);
    }
  }

  /** The pipeline is a fold: a finished run has the result of each script on the store that
      the scripts before it left, up to the first error and no further, and its store is that
      fold; a run fails when a script before any error is broken. */
  lemma {:induction false} RunIsFold(vm: Vm, hasCoins: bool, store: Store, scripts: seq<Script>, args: seq<nat>)
    ensures var run := Run(vm, hasCoins, store, scripts, args);
            run.Finished? ==> IsFold(vm, hasCoins, store, scripts, args, run.results, run.store)
    ensures Run(vm, hasCoins, store, scripts, args).Failed? ==>
              exists k :: 0 <= k < |scripts| && BreaksAt(vm, hasCoins, store, scripts, args, k)
    decreases |scripts|
  {
    hide Merged, StepOf, IsFold, StepAt;
    if scripts == [] {
      NothingIsFold(vm, hasCoins, store, args);
    } else {
      var step := StepOf(vm, hasCoins, store, scripts[0], args);
      var after := Merged(store, step.effects);
      FirstStep(vm, hasCoins, store, scripts, args);
      if step.result.None? {
        assert BreaksAt(vm, hasCoins, store, scripts, args, 0);
      } else if step.result.value.Error? {
        ErrorIsFold(vm, hasCoins, store, scripts, args);
      } else {
        var rest := Run(vm, hasCoins, after, scripts[1..], []);
        RunIsFold(vm, hasCoins, after, scripts[1..], []);
        if rest.Finished? {
          FoldCons(vm, hasCoins, store, scripts, args, rest.results, rest.store);
        } else {
          var k :| 0 <= k < |scripts[1..]| && BreaksAt(vm, hasCoins, after, scripts[1..], [], k);
          BreaksCons(vm, hasCoins, store, scripts, args, k);
        }
      }
    }
  }

  lemma {:induction false} BreaksCons(vm: Vm, hasCoins: bool, store: Store, scripts: seq<Script>, args: seq<nat>, k: nat)
    requires k + 1 < |scripts|
    requires var step := StepOf(vm, hasCoins, store, scripts[0], args);
             step.result.Some? && !step.result.value.Error?
             && BreaksAt(vm, hasCoins, Merged(store, step.effects), scripts[1..], [], k)
    ensures BreaksAt(vm, hasCoins, store, scripts, args, k + 1)
  {
    hide StepOf, Merged, StepAt;
    var after := Merged(store, StepOf(vm, hasCoins, store, scripts[0], args).effects);
    FirstStep(vm, hasCoins, store, scripts, args);
    StepShift(vm, hasCoins, store, scripts, args);
    assert StepAt(vm, hasCoins, store, scripts, args, k + 1) == StepAt(vm, hasCoins, after, scripts[1..], [], k);
    forall i | 0 <= i < k + 1
      ensures var r := StepAt(vm, hasCoins, store, scripts, args, i).result; r.Some? && !r.value.Error?
    {
      if i > 0 {
        assert StepAt(vm, hasCoins, store, scripts, args, i - 1 + 1) == StepAt(vm, hasCoins, after, scripts[1..], [], i - 1);
      }
    }
  }

  lemma FirstStep(vm: Vm, hasCoins: bool, store: Store, scripts: seq<Script>, args: seq<nat>)
    requires scripts != []
    ensures StepAt(vm, hasCoins, store, scripts, args, 0) == StepOf(vm, hasCoins, store, scripts[0], args)
  {
  }

  lemma NothingIsFold(vm: Vm, hasCoins: bool, store: Store, args: seq<nat>)
    ensures IsFold(vm, hasCoins, store, [], args, [], store)
  {
  }

  lemma {:induction false} ErrorIsFold(vm: Vm, hasCoins: bool, store: Store, scripts: seq<Script>, args: seq<nat>)
    requires scripts != []
    requires StepOf(vm, hasCoins, store, scripts[0], args).result == Some(Error)
    ensures IsFold(vm, hasCoins, store, scripts, args, [(scripts[0].name, Error)],
                   Merged(store, StepOf(vm, hasCoins, store, scripts[0], args).effects))
  {
  }

  lemma {:induction false} FoldCons(vm: Vm, hasCoins: bool, store: Store, scripts: seq<Script>, args: seq<nat>,
                                    rest: seq<(string, StepResult)>, final: Store)
    requires scripts != []
    requires var step := StepOf(vm, hasCoins, store, scripts[0], args);
             step.result.Some? && !step.result.value.Error?
             && IsFold(vm, hasCoins, Merged(store, step.effects), scripts[1..], [], rest, final)
    ensures var r := StepOf(vm, hasCoins, store, scripts[0], args).result.value;
            IsFold(vm, hasCoins, store, scripts, args, [(scripts[0].name, r)] + rest, final)
  {
    hide StepOf, Merged, StoreAt, StepAt;
    var step := StepOf(vm, hasCoins, store, scripts[0], args);
    var results := [(scripts[0].name, step.result.value)] + rest;
    FirstStep(vm, hasCoins, store, scripts, args);
    StoreShift(vm, hasCoins, store, scripts, args, |results|);
    StepShift(vm, hasCoins, store, scripts, args);
    forall i | 0 <= i < |results| ensures ResultAt(vm, hasCoins, store, scripts, args, i, results[i]) {
      if i > 0 {
        assert ResultAt(vm, hasCoins, Merged(store, step.effects), scripts[1..], [], i - 1, rest[i - 1]);
      }
    }
    forall i | 0 <= i < |results| - 1 ensures !results[i].1.Error? {
      if i > 0 {
        assert !rest[i - 1].1.Error?;
      }
    }
  }

  ghost predicate Mentions(effects: Effects, key: Key) {
    exists i :: 0 <= i < |effects| && effects[i].0 == key
  }

  lemma {:induction false} UnmentionedIsKept(store: Store, effects: Effects, key: Key)
    requires !Mentions(effects, key)
    ensures key in Merged(store, effects) <==> key in store
    ensures key in store ==> Merged(store, effects)[key] == store[key]
  {
    if effects != [] {
      var n := |effects| - 1;
      assert effects[n].0 != key;
      UnmentionedBefore(effects, n, key);
      UnmentionedIsKept(store, effects[..n], key);
    }
  }

  lemma UnmentionedBefore(effects: Effects, n: nat, key: Key)
    requires n <= |effects| && !Mentions(effects, key)
    ensures !Mentions(effects[..n], key)
  {
  }

  /** The injected time, block, prices and balances do not leak: the store changes only where
      a successful script that is no dry run had an effect. */
  lemma {:induction false} NothingLeaks(vm: Vm, hasCoins: bool, store: Store, scripts: seq<Script>, args: seq<nat>, n: nat, key: Key)
    requires n <= |scripts|
    requires forall i :: 0 <= i < n ==>
               var step := StepAt(vm, hasCoins, store, scripts, args, i);
               step.result.Some? && step.result.value.Success? && !scripts[i].meta.dryRun ==> !Mentions(step.effects, key)
    ensures var after := StoreAt(vm, hasCoins, store, scripts, args, n);
            (key in after <==> key in store) && (key in store ==> after[key] == store[key])
    decreases n
  {
    hide StepOf, Merged;
    if n > 0 {
      NothingLeaks(vm, hasCoins, store, scripts, args, n - 1, key);
      var step := StepAt(vm, hasCoins, store, scripts, args, n - 1);
      OnlySuccessHasEffects(vm, hasCoins, StoreAt(vm, hasCoins, store, scripts, args, n - 1), scripts[n - 1], ArgsAt(args, n - 1));
      UnmentionedIsKept(StoreAt(vm, hasCoins, store, scripts, args, n - 1), step.effects, key);
    }
  }

  lemma OnlySuccessHasEffects(vm: Vm, hasCoins: bool, store: Store, script: Script, args: seq<nat>)
    ensures var step := StepOf(vm, hasCoins, store, script, args);
            step.effects != [] ==> step.result.Some? && step.result.value.Success? && !script.meta.dryRun
  {
  }

  /** A dry run between other scripts is invisible to them: without it, the others have the
      same results and leave the same store. */
  lemma {:induction false} DryRunIsInvisible(vm: Vm, hasCoins: bool, store: Store, a: seq<Script>, dry: Script, b: seq<Script>, args: seq<nat>)
    requires a != [] && dry.meta.dryRun
    requires var with := Run(vm, hasCoins, store, a + [dry] + b, args);
             with.Finished? && |a| < |with.results| && !with.results[|a|].1.Error?
    ensures var with, without := Run(vm, hasCoins, store, a + [dry] + b, args), Run(vm, hasCoins, store, a + b, args);
            without == Finished(with.results[..|a|] + with.results[|a| + 1..], with.store)
    decreases |a|
  {
    hide Merged, StepOf, Run;
    var all := a + [dry] + b;
    assert all[1..] == a[1..] + [dry] + b && (a + b)[1..] == a[1..] + b && all[0] == a[0] == (a + b)[0];
    RunStep(vm, hasCoins, store, all, args);
    RunStep(vm, hasCoins, store, a + b, args);
    var after := Merged(store, StepOf(vm, hasCoins, store, a[0], args).effects);
    var rest := Run(vm, hasCoins, after, all[1..], []);
    if |a| == 1 {
      assert all[1..] == [dry] + b && all[1..][1..] == b && a[1..] + b == b;
      DryRunKeepsStore(vm, hasCoins, after, dry, []);
      RunStep(vm, hasCoins, after, all[1..], []);
    } else {
      DryRunIsInvisible(vm, hasCoins, after, a[1..], dry, b, []);
    }
    WithoutOne(Run(vm, hasCoins, store, all, args), rest, |a|);
  }

  lemma {:induction false} RunStep(vm: Vm, hasCoins: bool, store: Store, scripts: seq<Script>, args: seq<nat>)
    requires scripts != []
    ensures var step := StepOf(vm, hasCoins, store, scripts[0], args);
            var after := Merged(store, step.effects);
            Run(vm, hasCoins, store, scripts, args) ==
            if step.result.None? then Failed
            else if step.result.value.Error? then Finished([(scripts[0].name, step.result.value)], after)
            else Prepend((scripts[0].name, step.result.value), Run(vm, hasCoins, after, scripts[1..], []))
  {
  }

  // Leaving out a result, seen from the whole run and from the rest of it.
  lemma WithoutOne(with: Outcome, rest: Outcome, n: nat)
    requires with.Finished? && rest.Finished? && 0 < n < |with.results| && with.results == [with.results[0]] + rest.results
    ensures with.results[..n] + with.results[n + 1..] == [with.results[0]] + (rest.results[..n - 1] + rest.results[n..])
  {
  }

  lemma DryRunKeepsStore(vm: Vm, hasCoins: bool, store: Store, dry: Script, args: seq<nat>)
    requires dry.meta.dryRun
    ensures Merged(store, StepOf(vm, hasCoins, store, dry, args).effects) == store
  {
  }
}
