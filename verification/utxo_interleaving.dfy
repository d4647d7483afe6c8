/**
 * Many UTXO handlers at work on one node (src/modules/validation.rs). Verifying, reading the chain
 * length, applying to the set and pushing the block are separate critical sections, so handlers
 * interleave between them; account requests are handled in between as well.
 */
module UtxoInterleaving {
  import opened Base
  import opened UtxoSets
  import opened UtxoAccounting
  import opened TransactionHashes
  import opened Blockchains
  import opened Signatures
  import opened Ledgers

  datatype Phase =
    | Arrived
    | Approved
    | Measured(height: nat)
    | Spent(height: nat)
    | Pushed
    | Stopped      // rejected, voted down, or refused by the set
    | Crashed      // applied, but the chain panicked on the missing first input

  datatype Handler = Handler(tx: Transaction, phase: Phase)

  datatype World = World(ledger: Ledger, handlers: seq<Handler>)

  datatype Step =
    | Verify(i: nat)
    | VoteDown(i: nat)
    | Measure(i: nat)
    | Apply(i: nat)
    | Push(i: nat)
    | Account(event: Event)

  predicate Enabled(w: World, step: Step) {
    match step
    case Verify(i) => i < |w.handlers| && w.handlers[i].phase.Arrived?
    case VoteDown(i) => i < |w.handlers| && w.handlers[i].phase.Approved?
    case Measure(i) => i < |w.handlers| && w.handlers[i].phase.Approved?
    case Apply(i) => i < |w.handlers| && w.handlers[i].phase.Measured?
    case Push(i) => i < |w.handlers| && w.handlers[i].phase.Spent?
    case Account(e) => !e.request.SpendUtxos?
  }

  function Moved(w: World, i: nat, ledger: Ledger, phase: Phase): World
    requires i < |w.handlers|
  {
    World(ledger, w.handlers[i := Handler(w.handlers[i].tx, phase)])
  }

  function Next(c: Crypto, w: World, step: Step): World
    requires Enabled(w, step)
  {
    var l := w.ledger;
    match step
    case Verify(i) =>
      var tx := w.handlers[i].tx;
      var (marked, vote) := Verified(c, l, SpendUtxos(tx.inputs, tx.outputs, tx.timestamp));
      Moved(w, i, marked, if vote == Some(true) then Approved else Stopped)
    case VoteDown(i) => Moved(w, i, l, Stopped)
    case Measure(i) => Moved(w, i, l, Measured(|l.blocks|))
    case Apply(i) =>
      var tx, height := w.handlers[i].tx, w.handlers[i].phase.height;
      (match Applied(l.utxos, tx, height)
       case None => Moved(w, i, l, Stopped)
       case Some(m) => Moved(w, i, l.(utxos := m), Spent(height)))
    case Push(i) =>
      var tx := w.handlers[i].tx;
      if tx.inputs == [] then Moved(w, i, l, Crashed)
      else Moved(w, i, Recorded(c, l, Spend(tx, w.handlers[i].phase.height, [])), Pushed)
    case Account(e) => w.(ledger := Handled(c, l, e))
  }

  function Reached(c: Crypto, w: World, steps: seq<Step>): Option<World> {
    if steps == [] then Some(w)
    else
      match Reached(c, w, steps[..|steps| - 1])
      case None => None
      case Some(before) =>
        if Enabled(before, steps[|steps| - 1]) then Some(Next(c, before, steps[|steps| - 1])) else None
  }

  /** Nobody has been served yet. */
  ghost predicate Starts(w: World) {
    forall i :: 0 <= i < |w.handlers| ==> w.handlers[i].phase.Arrived?
  }

  lemma AccountKeepsUtxos(c: Crypto, l: Ledger, e: Event)
    requires !e.request.SpendUtxos?
    ensures Handled(c, l, e).utxos == l.utxos
  {
    VerifiedMarksOnly(c, l, e.request);
  }

  // ---------------------------------------------------------------- what the steps do

  /** The request a handler serves. */
  function RequestOf(h: Handler): Request {
    SpendUtxos(h.tx.inputs, h.tx.outputs, h.tx.timestamp)
  }

  /**
   * A measured handler applies its transaction exactly if every input is present then, whatever happened since
   * it was verified: its inputs go, its outputs are there, and all else is untouched. Otherwise it stops and
   * nothing changes.
   */
  lemma MeasuredApplies(c: Crypto, w: World, i: nat)
    requires i < |w.handlers| && w.handlers[i].phase.Measured?
    ensures Enabled(w, Apply(i))
    ensures var after, h := Next(c, w, Apply(i)), w.handlers[i];
            && (after.handlers[i].phase == Spent(h.phase.height)
                <==> forall k :: 0 <= k < |h.tx.inputs| ==> h.tx.inputs[k].outpoint in w.ledger.utxos)
            && (after.handlers[i].phase.Spent? ==>
                  && EntriesAfter(w.ledger.utxos, after.ledger.utxos, h.tx, h.phase.height)
                  && after.ledger == w.ledger.(utxos := after.ledger.utxos))
            && (!after.handlers[i].phase.Spent? ==> after.handlers[i].phase == Stopped && after.ledger == w.ledger)
            && after.handlers == w.handlers[i := after.handlers[i]] && after.handlers[i].tx == h.tx
  {
    AppliedEntries(w.ledger.utxos, w.handlers[i].tx, w.handlers[i].phase.height);
  }

  lemma StepThen(c: Crypto, w: World, steps: seq<Step>, step: Step)
    requires Reached(c, w, steps).Some? && Enabled(Reached(c, w, steps).value, step)
    ensures Reached(c, w, steps + [step]) == Some(Next(c, Reached(c, w, steps).value, step))
  {
    assert (steps + [step])[..|steps|] == steps;
  }

  /** The four critical sections of one handler, nothing in between. */
  function Alone(i: nat): seq<Step> {
    [] + [Verify(i)] + [Measure(i)] + [Apply(i)] + [Push(i)]
  }

  /**
   * A handler with inputs that verification approves, left alone, goes through and leaves exactly the ledger
   * of the request handled in one piece.
   */
  lemma AloneIsHandled(c: Crypto, w: World, i: nat, time: nat)
    requires i < |w.handlers| && w.handlers[i].phase.Arrived? && w.handlers[i].tx.inputs != []
    requires var tx := w.handlers[i].tx; tx == NewTransaction(c.sha, tx.inputs, tx.outputs, tx.timestamp)
    requires Verified(c, w.ledger, RequestOf(w.handlers[i])).1 == Some(true)
    ensures Reached(c, w, Alone(i)).Some?
    ensures var after := Reached(c, w, Alone(i)).value;
            && after.ledger == Handled(c, w.ledger, Event(RequestOf(w.handlers[i]), time, true))
            && after.handlers == w.handlers[i := Handler(w.handlers[i].tx, Pushed)]
  {
    var r := RequestOf(w.handlers[i]);
    VerifiedMarksOnly(c, w.ledger, r);
    StepThen(c, w, [], Verify(i));
    var verified := Next(c, w, Verify(i));
    StepThen(c, w, [] + [Verify(i)], Measure(i));
    var measured := Next(c, verified, Measure(i));
    StepThen(c, w, [] + [Verify(i)] + [Measure(i)], Apply(i));
    var applied := Next(c, measured, Apply(i));
    assert AllPresent(w.ledger.utxos, r.inputs);
    StepThen(c, w, [] + [Verify(i)] + [Measure(i)] + [Apply(i)], Push(i));
  }

  /** Account requests in between leave exactly the ledger of a serial run of theirs. */
  lemma {:induction false} AccountsAreRun(c: Crypto, w: World, events: seq<Event>, steps: seq<Step>)
    requires forall k :: 0 <= k < |events| ==> !events[k].request.SpendUtxos?
    requires |steps| == |events| && forall k :: 0 <= k < |events| ==> steps[k] == Account(events[k])
    ensures Reached(c, w, steps) == Some(World(Run(c, w.ledger, events), w.handlers))
    decreases |events|
  {
    if events != [] {
      AccountsAreRun(c, w, events[..|events| - 1], steps[..|events| - 1]);
    }
  }

  // ---------------------------------------------------------------- a name fixes an amount

  /** What the inputs are worth by name alone. */
  function NamedValue(amountOf: OutPoint -> nat, inputs: seq<TxInput>): nat {
    if inputs == [] then 0
    else NamedValue(amountOf, inputs[..|inputs| - 1]) + amountOf(inputs[|inputs| - 1].outpoint)
  }

  /** What inputs listed before count again, by name alone. */
  function NamedRepeats(amountOf: OutPoint -> nat, inputs: seq<TxInput>): nat {
    if inputs == [] then 0
    else
      var last := |inputs| - 1;
      NamedRepeats(amountOf, inputs[..last])
      + if inputs[last].outpoint in Outpoints(inputs[..last]) then amountOf(inputs[last].outpoint) else 0
  }

  ghost predicate NamesFixEntries(amountOf: OutPoint -> nat, m: UtxoMap) {
    forall op :: op in m ==> m[op].amount == amountOf(op)
  }

  ghost predicate NamesFixOutputs(amountOf: OutPoint -> nat, tx: Transaction) {
    forall j :: 0 <= j < |tx.outputs| ==> tx.outputs[j].amount == amountOf(OutputName(tx.hash, j))
  }

  lemma {:induction false} ValueByName(amountOf: OutPoint -> nat, m: UtxoMap, inputs: seq<TxInput>)
    requires AllPresent(m, inputs) && NamesFixEntries(amountOf, m)
    ensures InputValue(m, inputs, None) == NamedValue(amountOf, inputs)
    ensures RepeatedValue(m, inputs, None) == NamedRepeats(amountOf, inputs)
    decreases |inputs|
  {
    if inputs != [] {
      ValueByName(amountOf, m, inputs[..|inputs| - 1]);
    }
  }

  lemma {:induction false} OutputsKeepNames(amountOf: OutPoint -> nat, m: UtxoMap, tx: Transaction, height: nat, n: nat)
    requires NamesFixEntries(amountOf, m) && NamesFixOutputs(amountOf, tx) && n <= |tx.outputs|
    ensures NamesFixEntries(amountOf, WithOutputs(m, tx.hash, tx.outputs, height, tx.timestamp, n))
  {
    if n > 0 {
      OutputsKeepNames(amountOf, m, tx, height, n - 1);
    }
  }

  // ---------------------------------------------------------------- supply

  ghost predicate SupplyInv(amountOf: OutPoint -> nat, w: World) {
    && NamesFixEntries(amountOf, w.ledger.utxos)
    && forall i :: 0 <= i < |w.handlers| ==>
         && NamesFixOutputs(amountOf, w.handlers[i].tx)
         && (w.handlers[i].phase.Approved? || w.handlers[i].phase.Measured? ==>
               OutputValue(w.handlers[i].tx.outputs, None) <= NamedValue(amountOf, w.handlers[i].tx.inputs))
  }

  predicate HasApplied(phase: Phase) {
    phase.Spent? || phase.Pushed? || phase.Crashed?
  }

  /** The value that applied transactions counted again, by listing an input more than once. */
  function CountedAgain(amountOf: OutPoint -> nat, handlers: seq<Handler>): nat {
    if handlers == [] then 0
    else
      var last := handlers[|handlers| - 1];
      CountedAgain(amountOf, handlers[..|handlers| - 1])
      + if HasApplied(last.phase) then NamedRepeats(amountOf, last.tx.inputs) else 0
  }

  lemma {:induction false} CountedAgainUpdate(amountOf: OutPoint -> nat, handlers: seq<Handler>, i: nat, h: Handler)
    requires i < |handlers| && h.tx == handlers[i].tx
    ensures CountedAgain(amountOf, handlers[i := h])
            + (if HasApplied(handlers[i].phase) then NamedRepeats(amountOf, h.tx.inputs) else 0)
         == CountedAgain(amountOf, handlers)
            + (if HasApplied(h.phase) then NamedRepeats(amountOf, h.tx.inputs) else 0)
    decreases |handlers|
  {
    var last := |handlers| - 1;
    if i < last {
      CountedAgainUpdate(amountOf, handlers[..last], i, h);
      assert handlers[i := h][..last] == handlers[..last][i := h];
    } else {
      assert handlers[i := h][..last] == handlers[..last];
    }
  }

  /** What verification saw is still what the inputs are worth when the transaction is applied. */
  lemma ApplyBoundsTotal(amountOf: OutPoint -> nat, m: UtxoMap, tx: Transaction, height: nat)
    requires NamesFixEntries(amountOf, m) && NamesFixOutputs(amountOf, tx)
    requires OutputValue(tx.outputs, None) <= NamedValue(amountOf, tx.inputs)
    requires Applied(m, tx, height).Some?
    ensures Holdings(Applied(m, tx, height).value, None) <= Holdings(m, None) + NamedRepeats(amountOf, tx.inputs)
    ensures NamesFixEntries(amountOf, Applied(m, tx, height).value)
  {
    HoldingsAfterApply(m, tx, height, None);
    ValueByName(amountOf, m, tx.inputs);
    OutputsKeepNames(amountOf, m - Outpoints(tx.inputs), tx, height, |tx.outputs|);
  }

  lemma VerifyKeepsSupply(c: Crypto, amountOf: OutPoint -> nat, w: World, step: Step)
    requires SupplyInv(amountOf, w) && Enabled(w, step) && step.Verify?
    ensures SupplyInv(amountOf, Next(c, w, step)) && Next(c, w, step).ledger.utxos == w.ledger.utxos
  {
    var tx := w.handlers[step.i].tx;
    VerifiedMarksOnly(c, w.ledger, SpendUtxos(tx.inputs, tx.outputs, tx.timestamp));
    if Funded(w.ledger.utxos, tx.inputs, tx.outputs) {
      ValueByName(amountOf, w.ledger.utxos, tx.inputs);
    }
  }

  lemma ApplyKeepsSupply(c: Crypto, amountOf: OutPoint -> nat, w: World, i: nat)
    requires SupplyInv(amountOf, w) && Enabled(w, Apply(i))
    ensures var after := Next(c, w, Apply(i));
            && SupplyInv(amountOf, after)
            && Holdings(after.ledger.utxos, None) + CountedAgain(amountOf, w.handlers)
               <= Holdings(w.ledger.utxos, None) + CountedAgain(amountOf, after.handlers)
  {
    var after, tx, height := Next(c, w, Apply(i)), w.handlers[i].tx, w.handlers[i].phase.height;
    CountedAgainUpdate(amountOf, w.handlers, i, after.handlers[i]);
    if Applied(w.ledger.utxos, tx, height).Some? {
      ApplyBoundsTotal(amountOf, w.ledger.utxos, tx, height);
    }
  }

  /** No step adds more to the total than the applied transactions counted again. */
  lemma StepKeepsSupply(c: Crypto, amountOf: OutPoint -> nat, w: World, step: Step)
    requires SupplyInv(amountOf, w) && Enabled(w, step)
    ensures var after := Next(c, w, step);
            && SupplyInv(amountOf, after)
            && Holdings(after.ledger.utxos, None) + CountedAgain(amountOf, w.handlers)
               <= Holdings(w.ledger.utxos, None) + CountedAgain(amountOf, after.handlers)
  {
    match step
    case Apply(i) => ApplyKeepsSupply(c, amountOf, w, i);
    case Account(e) => AccountKeepsUtxos(c, w.ledger, e);
    case Verify(i) =>
      VerifyKeepsSupply(c, amountOf, w, step);
      CountedAgainUpdate(amountOf, w.handlers, i, Next(c, w, step).handlers[i]);
    case VoteDown(i) => CountedAgainUpdate(amountOf, w.handlers, i, Next(c, w, step).handlers[i]);
    case Measure(i) => CountedAgainUpdate(amountOf, w.handlers, i, Next(c, w, step).handlers[i]);
    case Push(i) => CountedAgainUpdate(amountOf, w.handlers, i, Next(c, w, step).handlers[i]);
  }

  lemma {:induction false} RunKeepsSupply(c: Crypto, amountOf: OutPoint -> nat, w: World, steps: seq<Step>)
    requires SupplyInv(amountOf, w) && Reached(c, w, steps).Some?
    ensures var now := Reached(c, w, steps).value;
            && SupplyInv(amountOf, now)
            && Holdings(now.ledger.utxos, None) + CountedAgain(amountOf, w.handlers)
               <= Holdings(w.ledger.utxos, None) + CountedAgain(amountOf, now.handlers)
    decreases |steps|
  {
    if steps != [] {
      RunKeepsSupply(c, amountOf, w, steps[..|steps| - 1]);
      StepKeepsSupply(c, amountOf, Reached(c, w, steps[..|steps| - 1]).value, steps[|steps| - 1]);
    }
  }

  lemma {:induction false} DistinctCountOnce(amountOf: OutPoint -> nat, inputs: seq<TxInput>)
    requires DistinctInputs(inputs)
    ensures NamedRepeats(amountOf, inputs) == 0
    decreases |inputs|
  {
    if inputs != [] {
      DistinctCountOnce(amountOf, inputs[..|inputs| - 1]);
    }
  }

  lemma {:induction false} NothingCountedAgain(amountOf: OutPoint -> nat, handlers: seq<Handler>)
    requires forall i :: 0 <= i < |handlers| && HasApplied(handlers[i].phase) ==> DistinctInputs(handlers[i].tx.inputs)
    ensures CountedAgain(amountOf, handlers) == 0
    decreases |handlers|
  {
    if handlers != [] {
      NothingCountedAgain(amountOf, handlers[..|handlers| - 1]);
      if HasApplied(handlers[|handlers| - 1].phase) {
        DistinctCountOnce(amountOf, handlers[|handlers| - 1].tx.inputs);
      }
    }
  }

  /**
   * A name stands for one amount: transactions with one hash have one list of outputs, and an entry present at
   * the start that is named like one of them, because the request was applied before, is worth as much.
   */
  ghost predicate HashesNameOutputs(w: World) {
    && (forall i, j ::
          0 <= i < |w.handlers| && 0 <= j < |w.handlers| && w.handlers[i].tx.hash == w.handlers[j].tx.hash ==>
            w.handlers[i].tx.outputs == w.handlers[j].tx.outputs)
    && (forall i, op :: 0 <= i < |w.handlers| && op in w.ledger.utxos && op.txid == w.handlers[i].tx.hash
                        && op.vout < |w.handlers[i].tx.outputs| ==>
          w.ledger.utxos[op].amount == w.handlers[i].tx.outputs[op.vout].amount)
    && (forall i :: 0 <= i < |w.handlers| ==> |w.handlers[i].tx.outputs| <= U32_LIMIT)
  }

  /** The amount a name stands for in this world. */
  ghost function AmountNamed(w: World, op: OutPoint): nat {
    if op in w.ledger.utxos then w.ledger.utxos[op].amount
    else if exists i :: && 0 <= i < |w.handlers| && w.handlers[i].tx.hash == op.txid
                        && op.vout < |w.handlers[i].tx.outputs|
    then
      var i :| 0 <= i < |w.handlers| && w.handlers[i].tx.hash == op.txid && op.vout < |w.handlers[i].tx.outputs|;
      w.handlers[i].tx.outputs[op.vout].amount
    else 0
  }

  ghost function AmountsOf(w: World): OutPoint -> nat {
    op => AmountNamed(w, op)
  }

  lemma NamesFixAmounts(w: World)
    requires Starts(w) && HashesNameOutputs(w)
    ensures SupplyInv(AmountsOf(w), w)
  {
    forall i | 0 <= i < |w.handlers| ensures NamesFixOutputs(AmountsOf(w), w.handlers[i].tx) {
      var tx := w.handlers[i].tx;
      forall j | 0 <= j < |tx.outputs| ensures tx.outputs[j].amount == AmountsOf(w)(OutputName(tx.hash, j)) {
        assert OutputName(tx.hash, j).vout == j;
        assert w.handlers[i].tx.hash == tx.hash && j < |w.handlers[i].tx.outputs|;
      }
    }
  }

  /**
   * Supply under interleaving: for any number of handlers, in every order of their critical sections, the
   * value in the set never exceeds what it started with by more than the applied transactions counted again
   * by listing an input twice; so it never grows as long as those applied have distinct inputs.
   */
  lemma SupplyNeverGrows(c: Crypto, w: World, steps: seq<Step>)
    requires Starts(w) && Reached(c, w, steps).Some? && HashesNameOutputs(w)
    ensures var now := Reached(c, w, steps).value;
            && Holdings(now.ledger.utxos, None)
               <= Holdings(w.ledger.utxos, None) + CountedAgain(AmountsOf(w), now.handlers)
            && ((forall i :: 0 <= i < |now.handlers| && HasApplied(now.handlers[i].phase) ==>
                   DistinctInputs(now.handlers[i].tx.inputs))
                ==> Holdings(now.ledger.utxos, None) <= Holdings(w.ledger.utxos, None))
  {
    ghost var amountOf := AmountsOf(w);
    NamesFixAmounts(w);
    RunKeepsSupply(c, amountOf, w, steps);
    NothingCountedAgain(amountOf, w.handlers);
    var now := Reached(c, w, steps).value;
    if forall i :: 0 <= i < |now.handlers| && HasApplied(now.handlers[i].phase) ==>
         DistinctInputs(now.handlers[i].tx.inputs) {
      NothingCountedAgain(amountOf, now.handlers);
    }
  }

  // ---------------------------------------------------------------- what hashes give

  /** Every handler serves a transaction made from its request. */
  ghost predicate FromRequests(sha: Digest, w: World) {
    forall i :: 0 <= i < |w.handlers| ==>
      var tx := w.handlers[i].tx; tx == NewTransaction(sha, tx.inputs, tx.outputs, tx.timestamp)
  }

  function PreimageOf(tx: Transaction): Bytes {
    TransactionPreimage(tx.inputs, tx.outputs, tx.timestamp)
  }

  /** No two transactions run together to the same bytes, and SHA-256 collides on none. */
  ghost predicate Comparable(sha: Digest, w: World) {
    && (forall i, j :: 0 <= i < |w.handlers| && 0 <= j < |w.handlers| ==>
          var x, y := w.handlers[i].tx, w.handlers[j].tx;
          Unambiguous(x.inputs, x.outputs, x.timestamp, y.inputs, y.outputs, y.timestamp))
    && CollisionFreeOn(sha, set i | 0 <= i < |w.handlers| :: PreimageOf(w.handlers[i].tx))
  }

  predicate SameContents(x: Transaction, y: Transaction) {
    SameSpends(x.inputs, y.inputs) && x.outputs == y.outputs && x.timestamp == y.timestamp
  }

  /**
   * Transactions made from requests have one hash exactly if they agree in outpoints, keys, outputs
   * and time, so hashes name outputs, and are distinct if the requests are.
   */
  lemma HashesTellContents(sha: Digest, w: World, i: nat, j: nat)
    requires FromRequests(sha, w) && Comparable(sha, w) && i < |w.handlers| && j < |w.handlers|
    ensures w.handlers[i].tx.hash == w.handlers[j].tx.hash <==> SameContents(w.handlers[i].tx, w.handlers[j].tx)
  {
    var x, y := w.handlers[i].tx, w.handlers[j].tx;
    assert PreimageOf(x) in (set k | 0 <= k < |w.handlers| :: PreimageOf(w.handlers[k].tx));
    assert PreimageOf(y) in (set k | 0 <= k < |w.handlers| :: PreimageOf(w.handlers[k].tx));
    TransactionHashIff(sha, x.inputs, x.outputs, x.timestamp, y.inputs, y.outputs, y.timestamp);
  }

  // ---------------------------------------------------------------- double spending

  predicate Names(tx: Transaction, op: OutPoint) {
    exists j :: 0 <= j < |tx.outputs| && op == OutputName(tx.hash, j)
  }

  /** The handlers whose transaction was applied and lists `op` as an input. */
  function Spenders(w: World, op: OutPoint): set<nat> {
    set i | 0 <= i < |w.handlers| && HasApplied(w.handlers[i].phase) && op in Outpoints(w.handlers[i].tx.inputs)
  }

  /** The handlers whose transaction was applied and creates `op`. */
  function Creators(w: World, op: OutPoint): set<nat> {
    set i | 0 <= i < |w.handlers| && HasApplied(w.handlers[i].phase) && Names(w.handlers[i].tx, op)
  }

  function Present(m: UtxoMap, op: OutPoint): nat {
    if op in m then 1 else 0
  }

  ghost predicate SpendInv(w: World, op: OutPoint, initially: nat) {
    |Spenders(w, op)| + Present(w.ledger.utxos, op) <= |Creators(w, op)| + initially
  }

  lemma SpendersAfterMove(w: World, i: nat, ledger: Ledger, phase: Phase, op: OutPoint)
    requires i < |w.handlers| && !HasApplied(w.handlers[i].phase)
    ensures Spenders(Moved(w, i, ledger, phase), op)
         == Spenders(w, op) + if HasApplied(phase) && op in Outpoints(w.handlers[i].tx.inputs) then {i} else {}
    ensures i !in Spenders(w, op)
  {
  }

  lemma CreatorsAfterMove(w: World, i: nat, ledger: Ledger, phase: Phase, op: OutPoint)
    requires i < |w.handlers| && !HasApplied(w.handlers[i].phase)
    ensures Creators(Moved(w, i, ledger, phase), op)
         == Creators(w, op) + if HasApplied(phase) && Names(w.handlers[i].tx, op) then {i} else {}
    ensures i !in Creators(w, op)
  {
  }

  /** An applied transaction leaves `op` in the set exactly if it creates it, or it was there and is not spent. */
  lemma PresentAfterApply(m: UtxoMap, tx: Transaction, height: nat, op: OutPoint)
    requires Applied(m, tx, height).Some?
    ensures op in Applied(m, tx, height).value <==> Names(tx, op) || (op in m && op !in Outpoints(tx.inputs))
    ensures op in Outpoints(tx.inputs) ==> op in m
  {
    OutputNames(m - Outpoints(tx.inputs), tx, height, |tx.outputs|, op);
  }

  lemma ApplyKeepsSpend(c: Crypto, w: World, i: nat, op: OutPoint, initially: nat)
    requires SpendInv(w, op, initially) && Enabled(w, Apply(i))
    ensures SpendInv(Next(c, w, Apply(i)), op, initially)
  {
    var l, tx, height := w.ledger, w.handlers[i].tx, w.handlers[i].phase.height;
    match Applied(l.utxos, tx, height)
    case None =>
      SpendersAfterMove(w, i, l, Stopped, op);
      CreatorsAfterMove(w, i, l, Stopped, op);
    case Some(m) =>
      PresentAfterApply(l.utxos, tx, height, op);
      SpendersAfterMove(w, i, l.(utxos := m), Spent(height), op);
      CreatorsAfterMove(w, i, l.(utxos := m), Spent(height), op);
  }

  lemma StepKeepsSpend(c: Crypto, w: World, step: Step, op: OutPoint, initially: nat)
    requires SpendInv(w, op, initially) && Enabled(w, step)
    ensures SpendInv(Next(c, w, step), op, initially)
  {
    var after := Next(c, w, step);
    if step.Apply? {
      ApplyKeepsSpend(c, w, step.i, op, initially);
    } else {
      assert after.ledger.utxos == w.ledger.utxos by {
        if step.Account? {
          AccountKeepsUtxos(c, w.ledger, step.event);
        } else if step.Verify? {
          var tx := w.handlers[step.i].tx;
          VerifiedMarksOnly(c, w.ledger, SpendUtxos(tx.inputs, tx.outputs, tx.timestamp));
        }
      }
      assert Spenders(after, op) == Spenders(w, op) && Creators(after, op) == Creators(w, op);
    }
  }

  /**
   * Double-spend safety: in every prefix of every interleaved run, an outpoint has been spent at most as
   * often as it was created, counting its presence at the start.
   */
  lemma {:induction false} SpendsBoundedByCreations(c: Crypto, w: World, steps: seq<Step>, op: OutPoint)
    requires Starts(w) && Reached(c, w, steps).Some?
    ensures var now := Reached(c, w, steps).value;
            |Spenders(now, op)| + Present(now.ledger.utxos, op)
            <= |Creators(now, op)| + Present(w.ledger.utxos, op)
    decreases |steps|
  {
    if steps == [] {
      assert Spenders(w, op) == {} && Creators(w, op) == {};
    } else {
      var front := steps[..|steps| - 1];
      SpendsBoundedByCreations(c, w, front, op);
      StepKeepsSpend(c, Reached(c, w, front).value, steps[|steps| - 1], op, Present(w.ledger.utxos, op));
    }
  }

  lemma {:induction false} HandlersKeepTransactions(c: Crypto, w: World, steps: seq<Step>)
    requires Reached(c, w, steps).Some?
    ensures var now := Reached(c, w, steps).value;
            && |now.handlers| == |w.handlers|
            && forall i :: 0 <= i < |w.handlers| ==> now.handlers[i].tx == w.handlers[i].tx
    decreases |steps|
  {
    if steps != [] {
      HandlersKeepTransactions(c, w, steps[..|steps| - 1]);
    }
  }

  ghost predicate DistinctHashes(w: World) {
    forall a, b :: 0 <= a < b < |w.handlers| ==> w.handlers[a].tx.hash != w.handlers[b].tx.hash
  }

  ghost predicate NamesUnused(w: World, m: UtxoMap) {
    forall a, p :: 0 <= a < |w.handlers| && p in m ==> p.txid != w.handlers[a].tx.hash
  }

  /** A name has one origin: the start or one transaction. */
  lemma OneOrigin(w: World, m: UtxoMap, op: OutPoint)
    requires DistinctHashes(w) && NamesUnused(w, m)
    ensures |Creators(w, op)| + Present(m, op) <= 1
  {
    if Creators(w, op) != {} {
      var k :| k in Creators(w, op);
      assert op.txid == w.handlers[k].tx.hash;
      assert Creators(w, op) == {k};
    }
  }

  /** With distinct hashes that name nothing present at the start, no two applied transactions share an input. */
  lemma SpentAtMostOnce(c: Crypto, w: World, steps: seq<Step>, op: OutPoint, i: nat, j: nat)
    requires Starts(w) && Reached(c, w, steps).Some?
    requires DistinctHashes(w) && NamesUnused(w, w.ledger.utxos)
    requires var now := Reached(c, w, steps).value;
             i in Spenders(now, op) && j in Spenders(now, op)
    ensures i == j
  {
    var now := Reached(c, w, steps).value;
    HandlersKeepTransactions(c, w, steps);
    SpendsBoundedByCreations(c, w, steps, op);
    OneOrigin(now, w.ledger.utxos, op);
    if i != j {
      AtLeastTwo(Spenders(now, op), i, j);
    }
  }

  lemma AtLeastTwo(s: set<nat>, i: nat, j: nat)
    requires i in s && j in s && i != j
    ensures |s| >= 2
  {
    assert s == {i, j} + (s - {i, j});
  }

  /**
   * So pairwise different requests, from a set that knows none of their names, never spend one outpoint twice,
   * in any interleaving.
   */
  lemma DifferentRequestsSpendOnce(c: Crypto, w: World, steps: seq<Step>, op: OutPoint, i: nat, j: nat)
    requires Starts(w) && Reached(c, w, steps).Some? && FromRequests(c.sha, w) && Comparable(c.sha, w)
    requires forall a, b :: 0 <= a < b < |w.handlers| ==> !SameContents(w.handlers[a].tx, w.handlers[b].tx)
    requires NamesUnused(w, w.ledger.utxos)
    requires var now := Reached(c, w, steps).value;
             i in Spenders(now, op) && j in Spenders(now, op)
    ensures i == j
  {
    forall a, b | 0 <= a < b < |w.handlers| ensures w.handlers[a].tx.hash != w.handlers[b].tx.hash {
      HashesTellContents(c.sha, w, a, b);
    }
    SpentAtMostOnce(c, w, steps, op, i, j);
  }

  /** And requests meet what the supply bound asks of hashes. */
  lemma RequestsNeverGrowSupply(c: Crypto, w: World, steps: seq<Step>)
    requires Starts(w) && Reached(c, w, steps).Some? && FromRequests(c.sha, w) && Comparable(c.sha, w)
    requires NamesUnused(w, w.ledger.utxos)
    requires forall i :: 0 <= i < |w.handlers| ==>
               |w.handlers[i].tx.outputs| <= U32_LIMIT && DistinctInputs(w.handlers[i].tx.inputs)
    ensures Holdings(Reached(c, w, steps).value.ledger.utxos, None) <= Holdings(w.ledger.utxos, None)
  {
    forall i, j | 0 <= i < |w.handlers| && 0 <= j < |w.handlers| && w.handlers[i].tx.hash == w.handlers[j].tx.hash
      ensures w.handlers[i].tx.outputs == w.handlers[j].tx.outputs
    {
      HashesTellContents(c.sha, w, i, j);
    }
    HandlersKeepTransactions(c, w, steps);
    SupplyNeverGrows(c, w, steps);
  }
}
