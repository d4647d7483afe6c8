/**
 * Value moved by a UTXO transaction (src/modules/utxo.rs): input and output totals, the fee, and what
 * applying a transaction does to everybody's holdings.
 */
module UtxoAccounting {
  import opened Base
  import opened UtxoSets

  // ---------------------------------------------------------------- totals

  /** What the inputs are worth to `who`, a repeated input counted every time it is listed. */
  function InputValue(m: UtxoMap, inputs: seq<TxInput>, who: Option<Bytes>): nat
    requires AllPresent(m, inputs)
  {
    if inputs == [] then 0
    else
      var last := |inputs| - 1;
      InputValue(m, inputs[..last], who) + Share(who, m[inputs[last].outpoint])
  }

  /** The part of `InputValue` that comes from inputs already listed earlier. */
  function RepeatedValue(m: UtxoMap, inputs: seq<TxInput>, who: Option<Bytes>): nat
    requires AllPresent(m, inputs)
  {
    if inputs == [] then 0
    else
      var last := |inputs| - 1;
      RepeatedValue(m, inputs[..last], who)
      + if inputs[last].outpoint in Outpoints(inputs[..last]) then Share(who, m[inputs[last].outpoint]) else 0
  }

  function OutputShare(who: Option<Bytes>, o: TxOutput): nat {
    if who.None? || o.recipient == who.value then o.amount else 0
  }

  function OutputValue(outputs: seq<TxOutput>, who: Option<Bytes>): nat {
    if outputs == [] then 0
    else OutputValue(outputs[..|outputs| - 1], who) + OutputShare(who, outputs[|outputs| - 1])
  }

  /** Value wiped out because the first `n` outputs replaced entries of the same name. */
  function OverwrittenValue(m: UtxoMap, tx: Transaction, height: nat, who: Option<Bytes>, n: nat): nat
    requires n <= |tx.outputs|
  {
    if n == 0 then 0
    else
      var before := WithOutputs(m, tx.hash, tx.outputs, height, tx.timestamp, n - 1);
      var name := OutputName(tx.hash, n - 1);
      OverwrittenValue(m, tx, height, who, n - 1) + if name in before then Share(who, before[name]) else 0
  }

  lemma {:induction false} InputValueMonotone(m: UtxoMap, inputs: seq<TxInput>, i: nat, who: Option<Bytes>)
    requires AllPresent(m, inputs) && i <= |inputs|
    ensures InputValue(m, inputs[..i], who) <= InputValue(m, inputs, who)
    decreases |inputs|
  {
    if i < |inputs| {
      assert inputs[..|inputs| - 1][..i] == inputs[..i];
      InputValueMonotone(m, inputs[..|inputs| - 1], i, who);
    } else {
      assert inputs[..i] == inputs;
    }
  }

  /** `total_input_amount`: `None` exactly when an input is missing or the listed amounts exceed 64 bits. */
  method TotalInputAmount(m: UtxoMap, inputs: seq<TxInput>) returns (total: Option<U64>)
    ensures total.Some? <==> AllPresent(m, inputs) && InputValue(m, inputs, None) < U64_LIMIT
    ensures total.Some? ==> total.value == InputValue(m, inputs, None)
  {
    var sum: U64 := 0;
    for i := 0 to |inputs|
      invariant AllPresent(m, inputs[..i])
      invariant sum == InputValue(m, inputs[..i], None)
    {
      assert inputs[..i + 1][..i] == inputs[..i];
      if inputs[i].outpoint !in m {
        return None;
      }
      if sum + m[inputs[i].outpoint].amount >= U64_LIMIT {
        if AllPresent(m, inputs) {
          InputValueMonotone(m, inputs, i + 1, None);
        }
        return None;
      }
      sum := sum + m[inputs[i].outpoint].amount;
    }
    assert inputs[..|inputs|] == inputs;
    total := Some(sum);
  }

  /** `total_output_amount`; the sum overflows, which the source does not guard, exactly in the `None` case. */
  function TotalOutputAmount(outputs: seq<TxOutput>): Option<U64> {
    var sum := OutputValue(outputs, None);
    if sum < U64_LIMIT then Some(sum) else None
  }

  /** `fee`: what goes in beyond what comes out, if the inputs exist, fit in 64 bits and suffice. */
  function Fee(m: UtxoMap, inputs: seq<TxInput>, outputs: seq<TxOutput>): Option<nat> {
    if !AllPresent(m, inputs) || InputValue(m, inputs, None) >= U64_LIMIT then None
    else
      match TotalOutputAmount(outputs)
      case None => None
      case Some(output) =>
        var input := InputValue(m, inputs, None);
        if output <= input then Some(input - output) else None
  }

  // ---------------------------------------------------------------- spending and creating

  lemma {:induction false} HoldingsAfterSpending(m: UtxoMap, inputs: seq<TxInput>, who: Option<Bytes>)
    requires AllPresent(m, inputs)
    ensures Holdings(m - Outpoints(inputs), who) + InputValue(m, inputs, who)
         == Holdings(m, who) + RepeatedValue(m, inputs, who)
    decreases |inputs|
  {
    if inputs == [] {
      assert m - Outpoints(inputs) == m;
    } else {
      var last := |inputs| - 1;
      var front, op := inputs[..last], inputs[last].outpoint;
      HoldingsAfterSpending(m, front, who);
      OutpointsSnoc(m, inputs, last);
      assert inputs[..last + 1] == inputs;
      var rest := m - Outpoints(front);
      if op in Outpoints(front) {
        assert rest - {op} == rest;
      } else {
        HoldingsRemove(rest, op, who);
      }
    }
  }

  lemma {:induction false} HoldingsAfterOutputs(m: UtxoMap, tx: Transaction, height: nat, who: Option<Bytes>, n: nat)
    requires n <= |tx.outputs|
    ensures Holdings(WithOutputs(m, tx.hash, tx.outputs, height, tx.timestamp, n), who)
            + OverwrittenValue(m, tx, height, who, n)
         == Holdings(m, who) + OutputValue(tx.outputs[..n], who)
  {
    if n > 0 {
      HoldingsAfterOutputs(m, tx, height, who, n - 1);
      var o := tx.outputs[n - 1];
      var before := WithOutputs(m, tx.hash, tx.outputs, height, tx.timestamp, n - 1);
      HoldingsAdd(before, OutputName(tx.hash, n - 1), Utxo(o.amount, o.recipient, height, tx.timestamp), who);
      assert tx.outputs[..n][..n - 1] == tx.outputs[..n - 1];
    }
  }

  /**
   * What one application does to anybody's holdings, with no side condition: inputs leave, outputs
   * arrive, a repeated input leaves only once, and an output that replaces an entry wipes it out.
   */
  lemma HoldingsAfterApply(m: UtxoMap, tx: Transaction, height: nat, who: Option<Bytes>)
    requires AllPresent(m, tx.inputs)
    ensures Applied(m, tx, height).Some?
    ensures Holdings(Applied(m, tx, height).value, who)
            + InputValue(m, tx.inputs, who)
            + OverwrittenValue(m - Outpoints(tx.inputs), tx, height, who, |tx.outputs|)
         == Holdings(m, who) + RepeatedValue(m, tx.inputs, who) + OutputValue(tx.outputs, who)
  {
    HoldingsAfterSpending(m, tx.inputs, who);
    HoldingsAfterOutputs(m - Outpoints(tx.inputs), tx, height, who, |tx.outputs|);
    assert tx.outputs[..|tx.outputs|] == tx.outputs;
  }

  // ---------------------------------------------------------------- entry by entry

  /** A transaction names its output `j` by its hash and the low 32 bits of `j`. */
  predicate Creates(tx: Transaction, op: OutPoint) {
    op.txid == tx.hash && exists j :: 0 <= j < |tx.outputs| && op.vout == j % U32_LIMIT
  }

  predicate Lists(inputs: seq<TxInput>, op: OutPoint) {
    exists i :: 0 <= i < |inputs| && inputs[i].outpoint == op
  }

  lemma NamesDiffer(j: nat, k: nat)
    requires j < k < j + U32_LIMIT
    ensures j % U32_LIMIT != k % U32_LIMIT
  {
  }

  /** The last output under each name is in the map as it was ordered, and no other name is touched. */
  lemma {:induction false} OutputEntries(m: UtxoMap, tx: Transaction, height: nat, n: nat)
    requires n <= |tx.outputs|
    ensures var after := WithOutputs(m, tx.hash, tx.outputs, height, tx.timestamp, n);
            && (forall j :: 0 <= j < n <= j + U32_LIMIT ==>
                  var op := OutPoint(tx.hash, j % U32_LIMIT);
                  op in after && after[op] == Utxo(tx.outputs[j].amount, tx.outputs[j].recipient, height, tx.timestamp))
            && (forall op :: !Creates(tx, op) ==> (op in after <==> op in m) && (op in m ==> after[op] == m[op]))
  {
    if n > 0 {
      OutputEntries(m, tx, height, n - 1);
      forall j | 0 <= j < n - 1 && n <= j + U32_LIMIT ensures j % U32_LIMIT != (n - 1) % U32_LIMIT {
        NamesDiffer(j, n - 1);
      }
      assert Creates(tx, OutPoint(tx.hash, (n - 1) % U32_LIMIT));
    }
  }

  /**
   * What is in the set after a transaction was applied: each output under its name, with amount, recipient,
   * height and time (the last one, if 2^32 outputs share names); of everything else, what was there and is not
   * listed as an input.
   */
  ghost predicate EntriesAfter(m: UtxoMap, after: UtxoMap, tx: Transaction, height: nat) {
    && (forall j :: 0 <= j < |tx.outputs| <= j + U32_LIMIT ==>
          var op := OutPoint(tx.hash, j % U32_LIMIT);
          op in after && after[op] == Utxo(tx.outputs[j].amount, tx.outputs[j].recipient, height, tx.timestamp))
    && (forall op :: !Creates(tx, op) ==>
          (op in after <==> op in m && !Lists(tx.inputs, op)) && (op in after ==> after[op] == m[op]))
  }

  lemma AppliedEntries(m: UtxoMap, tx: Transaction, height: nat)
    ensures Applied(m, tx, height).Some? <==> forall i :: 0 <= i < |tx.inputs| ==> tx.inputs[i].outpoint in m
    ensures Applied(m, tx, height).Some? ==> EntriesAfter(m, Applied(m, tx, height).value, tx, height)
  {
    OutputEntries(m - Outpoints(tx.inputs), tx, height, |tx.outputs|);
    forall op ensures op in Outpoints(tx.inputs) <==> Lists(tx.inputs, op) {
    }
  }

  // ---------------------------------------------------------------- the balance equation

  /** No output of the transaction is named like an entry that survives its inputs. */
  ghost predicate FreshOutputs(m: UtxoMap, tx: Transaction) {
    && |tx.outputs| <= U32_LIMIT
    && forall i :: 0 <= i < |tx.outputs| ==> OutputName(tx.hash, i) !in m - Outpoints(tx.inputs)
  }

  lemma {:induction false} DistinctRepeatNothing(m: UtxoMap, inputs: seq<TxInput>, who: Option<Bytes>)
    requires AllPresent(m, inputs) && DistinctInputs(inputs)
    ensures RepeatedValue(m, inputs, who) == 0
    decreases |inputs|
  {
    if inputs != [] {
      DistinctRepeatNothing(m, inputs[..|inputs| - 1], who);
    }
  }

  lemma {:induction false} OutputNames(m: UtxoMap, tx: Transaction, height: nat, n: nat, op: OutPoint)
    requires n <= |tx.outputs|
    ensures op in WithOutputs(m, tx.hash, tx.outputs, height, tx.timestamp, n)
       <==> op in m || exists i :: 0 <= i < n && op == OutputName(tx.hash, i)
  {
    if n > 0 {
      OutputNames(m, tx, height, n - 1, op);
    }
  }

  lemma {:induction false} FreshOverwriteNothing(m: UtxoMap, tx: Transaction, height: nat, who: Option<Bytes>, n: nat)
    requires n <= |tx.outputs| <= U32_LIMIT
    requires forall i :: 0 <= i < n ==> OutputName(tx.hash, i) !in m
    ensures OverwrittenValue(m, tx, height, who, n) == 0
  {
    if n > 0 {
      FreshOverwriteNothing(m, tx, height, who, n - 1);
      OutputNames(m, tx, height, n - 1, OutputName(tx.hash, n - 1));
    }
  }

  /** Distinct inputs and fresh outputs: each balance loses its spent inputs and gains its new outputs. */
  lemma BalanceEquation(m: UtxoMap, tx: Transaction, height: nat, who: Option<Bytes>)
    requires AllPresent(m, tx.inputs) && DistinctInputs(tx.inputs) && FreshOutputs(m, tx)
    ensures Holdings(Applied(m, tx, height).value, who)
         == Holdings(m, who) - InputValue(m, tx.inputs, who) + OutputValue(tx.outputs, who)
  {
    HoldingsAfterApply(m, tx, height, who);
    DistinctRepeatNothing(m, tx.inputs, who);
    FreshOverwriteNothing(m - Outpoints(tx.inputs), tx, height, who, |tx.outputs|);
  }

  /**
   * The total drops by exactly the fee if and only if the value the input list counts again equals
   * the value the outputs wipe out; in particular for distinct inputs and fresh outputs.
   */
  lemma TotalDropsByFee(m: UtxoMap, tx: Transaction, height: nat)
    requires Fee(m, tx.inputs, tx.outputs).Some?
    ensures Holdings(Applied(m, tx, height).value, None) == Holdings(m, None) - Fee(m, tx.inputs, tx.outputs).value
       <==> (RepeatedValue(m, tx.inputs, None)
             == OverwrittenValue(m - Outpoints(tx.inputs), tx, height, None, |tx.outputs|))
    ensures DistinctInputs(tx.inputs) && FreshOutputs(m, tx) ==>
              Holdings(Applied(m, tx, height).value, None) == Holdings(m, None) - Fee(m, tx.inputs, tx.outputs).value
  {
    HoldingsAfterApply(m, tx, height, None);
    if DistinctInputs(tx.inputs) && FreshOutputs(m, tx) {
      BalanceEquation(m, tx, height, None);
    }
  }

  /** The total rises exactly when the input list counts more value again than the fee and the outputs wipe out. */
  lemma TotalRisesIff(m: UtxoMap, tx: Transaction, height: nat)
    requires Fee(m, tx.inputs, tx.outputs).Some?
    ensures Holdings(Applied(m, tx, height).value, None) > Holdings(m, None)
       <==> (RepeatedValue(m, tx.inputs, None)
             > OverwrittenValue(m - Outpoints(tx.inputs), tx, height, None, |tx.outputs|)
               + Fee(m, tx.inputs, tx.outputs).value)
  {
    HoldingsAfterApply(m, tx, height, None);
  }

  // ---------------------------------------------------------------- balances partition the total

  ghost function SumOfBalances(m: UtxoMap, recipients: set<Bytes>): nat {
    if recipients == {} then 0
    else
      var r :| r in recipients;
      Holdings(m, Some(r)) + SumOfBalances(m, recipients - {r})
  }

  ghost function OthersOf(m: UtxoMap, r: Bytes): UtxoMap {
    map op | op in m && m[op].recipient != r :: m[op]
  }

  lemma {:induction false} SplitByRecipient(m: UtxoMap, r: Bytes)
    ensures Total(m) == Holdings(m, Some(r)) + Total(OthersOf(m, r))
    decreases |m|
  {
    if m == map[] {
      assert Owned(m, Some(r)) == map[] && OthersOf(m, r) == map[];
    } else {
      var op :| op in m;
      var less := m - {op};
      RemovalShrinks(m, op);
      SplitByRecipient(less, r);
      SumPick(m, Amount, op);
      HoldingsRemove(m, op, Some(r));
      if m[op].recipient == r {
        assert OthersOf(m, r) == OthersOf(less, r);
      } else {
        SumPick(OthersOf(m, r), Amount, op);
        assert OthersOf(m, r) - {op} == OthersOf(less, r);
      }
    }
  }

  lemma {:induction false} OthersKeepBalances(m: UtxoMap, r: Bytes, recipients: set<Bytes>)
    requires r !in recipients
    ensures SumOfBalances(OthersOf(m, r), recipients) == SumOfBalances(m, recipients)
  {
    if recipients != {} {
      var s :| s in recipients && SumOfBalances(m, recipients)
                               == Holdings(m, Some(s)) + SumOfBalances(m, recipients - {s});
      OthersKeepBalances(m, r, recipients - {s});
      assert Owned(OthersOf(m, r), Some(s)) == Owned(m, Some(s));
      assert Holdings(OthersOf(m, r), Some(s)) == Holdings(m, Some(s));
      BalancePick(OthersOf(m, r), recipients, s);
    }
  }

  lemma {:induction false} BalancePick(m: UtxoMap, recipients: set<Bytes>, r: Bytes)
    requires r in recipients
    ensures SumOfBalances(m, recipients) == Holdings(m, Some(r)) + SumOfBalances(m, recipients - {r})
  {
    var first :| first in recipients && SumOfBalances(m, recipients)
                                     == Holdings(m, Some(first)) + SumOfBalances(m, recipients - {first});
    if first != r {
      BalancePick(m, recipients - {first}, r);
      BalancePick(m, recipients - {r}, first);
      assert recipients - {first} - {r} == recipients - {r} - {first};
    }
  }

  /** The balances of all recipients add up to the total value in the set. */
  lemma {:induction false} BalancesPartitionTotal(m: UtxoMap, recipients: set<Bytes>)
    requires forall op :: op in m ==> m[op].recipient in recipients
    ensures SumOfBalances(m, recipients) == Holdings(m, None)
    decreases recipients
  {
    assert Owned(m, None) == m;
    if recipients == {} {
      assert m == map[];
    } else {
      var r :| r in recipients;
      SplitByRecipient(m, r);
      BalancePick(m, recipients, r);
      OthersKeepBalances(m, r, recipients - {r});
      BalancesPartitionTotal(OthersOf(m, r), recipients - {r});
      assert Owned(OthersOf(m, r), None) == OthersOf(m, r);
    }
  }
}
