/**
 * Where the ledger does less than its documentation promises: approved requests that create value or
 * leave the chain behind the UTXO set. Each is an instance; the exact conditions are beside it or in `LedgerRuns`.
 */
module LedgerAnomalies {
  import opened Base
  import opened Encodings
  import opened MerkleRoot
  import opened AccountStore
  import opened UtxoSets
  import opened UtxoAccounting
  import opened Blockchains
  import opened Signatures
  import opened Ledgers
  import opened LedgerRuns

  // ---------------------------------------------------------------- one input, listed twice

  /** An approved spend raises the total value exactly when it counts more value again than it pays or overwrites. */
  lemma ApprovedSpendRaisesTotalIff(c: Crypto, l: Ledger, e: Event)
    requires e.request.SpendUtxos? && e.verdict && Verified(c, l, e.request).1 == Some(true)
    ensures var r := e.request;
            var tx := NewTransaction(c.sha, r.inputs, r.outputs, r.timestamp);
            && Fee(l.utxos, r.inputs, r.outputs).Some?
            && (Holdings(Handled(c, l, e).utxos, None) > Holdings(l.utxos, None)
                <==> (RepeatedValue(l.utxos, r.inputs, None)
                      > OverwrittenValue(l.utxos - Outpoints(r.inputs), tx, |l.blocks|, None, |r.outputs|)
                        + Fee(l.utxos, r.inputs, r.outputs).value))
  {
    var r := e.request;
    VerifiedMarksOnly(c, l, r);
    SpendApprovedIff(c, l, r);
    TotalRisesIff(l.utxos, NewTransaction(c.sha, r.inputs, r.outputs, r.timestamp), |l.blocks|);
  }

  /** The one entry of the set, spent twice by one transaction under two signatures. */
  function DoubledSpend(op: OutPoint, owner: Bytes, amount: U64): Request
    requires 2 * amount < U64_LIMIT
  {
    SpendUtxos([TxInput(op, "first", owner), TxInput(op, "second", owner)], [TxOutput(2 * amount, owner)], 0)
  }

  lemma DoubledSpendApproved(c: Crypto, l: Ledger, op: OutPoint, owner: Bytes, amount: U64)
    requires 2 * amount < U64_LIMIT
    requires l.utxos == map[op := Utxo(amount, owner, 0, 0)] && l.used == map[]
    requires c.ecdsa("first", HexEncode(owner), [], [], 0) && c.ecdsa("second", HexEncode(owner), [], [], 0)
    ensures Verified(c, l, DoubledSpend(op, owner, amount)).1 == Some(true)
    ensures Fee(l.utxos, DoubledSpend(op, owner, amount).inputs, DoubledSpend(op, owner, amount).outputs) == Some(0)
    ensures RepeatedValue(l.utxos, DoubledSpend(op, owner, amount).inputs, None) == amount
  {
    var r := DoubledSpend(op, owner, amount);
    assert r.inputs[..1] == [r.inputs[0]] && [r.inputs[0]][..0] == [];
    assert r.outputs[..0] == [];
    assert InputValue(l.utxos, r.inputs[..1], None) == amount;
    assert InputValue(l.utxos, r.inputs, None) == 2 * amount;
    assert OutputValue(r.outputs, None) == 2 * amount;
    assert r.inputs[0].outpoint in Outpoints(r.inputs[..1]) by {
      assert r.inputs[..1][0] == r.inputs[0];
    }
    assert RepeatedValue(l.utxos, r.inputs[..1], None) == 0 by {
      assert Outpoints([]) == {};
    }
    assert InputsInOrder(c.ecdsa, l.utxos, l.used, r.inputs);
    SpendApprovedIff(c, l, r);
  }

  /**
   * A spend that lists one input twice, each time with another valid signature, passes verification and,
   * once written, doubles the value in the set: the supply rule needs distinct inputs.
   */
  lemma RepeatedInputCreatesValue(c: Crypto, l: Ledger, op: OutPoint, owner: Bytes, amount: U64)
    requires 0 < 2 * amount < U64_LIMIT
    requires l.utxos == map[op := Utxo(amount, owner, 0, 0)] && l.used == map[]
    requires c.ecdsa("first", HexEncode(owner), [], [], 0) && c.ecdsa("second", HexEncode(owner), [], [], 0)
    ensures var r := DoubledSpend(op, owner, amount);
            && Verified(c, l, r).1 == Some(true)
            && Holdings(l.utxos, None) == amount
            && Holdings(Handled(c, l, Event(r, 0, true)).utxos, None) == 2 * amount
  {
    var r := DoubledSpend(op, owner, amount);
    var tx := NewTransaction(c.sha, r.inputs, r.outputs, r.timestamp);
    DoubledSpendApproved(c, l, op, owner, amount);
    VerifiedMarksOnly(c, l, r);
    assert r.inputs[0].outpoint in Outpoints(r.inputs);
    assert l.utxos - Outpoints(r.inputs) == map[];
    FreshOverwriteNothing(map[], tx, |l.blocks|, None, 1);
    HoldingsAfterApply(l.utxos, tx, |l.blocks|, None);
    HoldingsRemove(l.utxos, op, None);
    assert l.utxos - {op} == map[] && Owned(map[], None) == map[];
  }

  // ---------------------------------------------------------------- a transfer to oneself

  /** A transfer from an account to itself, approved and written, adds its amount to the tokens held. */
  lemma SelfTransferAddsTokens(c: Crypto, l: Ledger, e: Event)
    requires e.request.SendTokens? && e.request.sender == e.request.recipient && e.verdict
    requires Verified(c, l, e.request).1 == Some(true) && KeysMatch(l.store)
    requires l.store.balances[e.request.sender] + e.request.amount < U64_LIMIT
    ensures TokensHeld(Handled(c, l, e).store) == TokensHeld(l.store) + e.request.amount
    ensures Faucets(Handled(c, l, e).blocks) == Faucets(l.blocks)
  {
    var r := e.request;
    VerifiedMarksOnly(c, l, r);
    var marked := Verified(c, l, r).0;
    assert r.sender in l.store.balances <==> FindFirst(l.store.vec, r.sender).Some?;
    var b := WriteExplained(c, marked, r, e.time);
    var shape := WriteShape(c, marked, r, e.time);
    assert (l.blocks + [b])[|l.blocks|] == (l.blocks + [shape])[|l.blocks|];
    Appended(map[], l.blocks, b);
  }

  /** An account is created, uses the faucet, and sends its 100 tokens to itself. */
  function SelfTransferRun(key: Bytes): seq<Event> {
    [Event(CreateAccount(key, Some([])), 0, true),
     Event(UseFaucet(key), 0, true),
     Event(SendTokens(key, key, [], 100, ""), 0, true)]
  }

  /** A store that knows one account. */
  function OneAccount(key: Bytes, balance: U64): Store {
    Store([Account(key, [], balance, 0)], map[key := balance])
  }

  lemma CreationRecorded(c: Crypto, key: Bytes)
    ensures var r := CreateAccount(key, Some([]));
            var created := Handled(c, GenesisLedger(0), Event(r, 0, true));
            && Verified(c, GenesisLedger(0), r).1 == Some(true)
            && created.store == OneAccount(key, 0) && created.used == map[] && Faucets(created.blocks) == 0
  {
    var b := WriteShape(c, GenesisLedger(0), CreateAccount(key, Some([])), 0);
    Appended(map[], [], Genesis(0));
    Appended(map[], [Genesis(0)], b);
    assert [] + [Genesis(0)] == [Genesis(0)];
  }

  lemma FaucetAppended(c: Crypto, l: Ledger, key: Bytes)
    requires key in l.store.balances && l.store.balances[key] + FAUCET_AMOUNT < U64_LIMIT
    ensures Faucets(Write(c, l, UseFaucet(key), 0).ledger.blocks) == Faucets(l.blocks) + 1
  {
    var b := WriteShape(c, l, UseFaucet(key), 0);
    Appended(map[], l.blocks, b);
  }

  lemma FaucetRecorded(c: Crypto, l: Ledger, key: Bytes)
    requires l.store == OneAccount(key, 0)
    ensures var paid := Handled(c, l, Event(UseFaucet(key), 0, true));
            && Verified(c, l, UseFaucet(key)).1 == Some(true)
            && paid.store == OneAccount(key, 100) && paid.used == l.used
            && Faucets(paid.blocks) == Faucets(l.blocks) + 1
  {
    assert FindFirst(l.store.vec, key) == Some(0);
    assert ChangeBalance(l.store, key, 100) == OneAccount(key, 100);
    FaucetAppended(c, l, key);
  }

  lemma SelfTransferApproved(c: Crypto, l: Ledger, key: Bytes)
    requires l.store == OneAccount(key, 100) && l.used == map[] && c.ecdsa("", key, key, [], 0)
    ensures Verified(c, l, SendTokens(key, key, [], 100, "")).1 == Some(true)
    ensures KeysMatch(l.store) && TokensHeld(l.store) == 100
  {
    assert FindFirst(l.store.vec, key) == Some(0);
    SumPick(l.store.balances, Balance, key);
    assert l.store.balances - {key} == map[];
  }

  /** After it the tokens held are 200, though the chain has one faucet block and every request was approved. */
  lemma SelfTransferExceedsFaucets(c: Crypto, key: Bytes)
    requires c.ecdsa("", key, key, [], 0)
    ensures var events, start := SelfTransferRun(key), GenesisLedger(0);
            && (forall i :: 0 <= i < 3 ==> Verified(c, Run(c, start, events[..i]), events[i].request).1 == Some(true))
            && Faucets(Run(c, start, events).blocks) == 1
            && TokensHeld(Run(c, start, events).store) == 200
  {
    var events, start := SelfTransferRun(key), GenesisLedger(0);
    CreationRecorded(c, key);
    var created := Handled(c, start, events[0]);
    FaucetRecorded(c, created, key);
    var paid := Handled(c, created, events[1]);
    SelfTransferApproved(c, paid, key);
    SelfTransferAddsTokens(c, paid, events[2]);
    RunOfThree(c, start, events);
  }

  lemma RunOfThree(c: Crypto, l: Ledger, events: seq<Event>)
    requires |events| == 3
    ensures Run(c, l, events[..0]) == l
    ensures Run(c, l, events[..1]) == Handled(c, l, events[0])
    ensures Run(c, l, events[..2]) == Handled(c, Handled(c, l, events[0]), events[1])
    ensures Run(c, l, events) == Handled(c, Handled(c, Handled(c, l, events[0]), events[1]), events[2])
  {
    assert events[..1][..0] == [] && events[..2][..1] == events[..1];
  }

  // ---------------------------------------------------------------- a spend without inputs

  /**
   * From any ledger, a spend without inputs that creates one entry worth nothing is approved, and once it
   * is carried the chain no longer replays to the UTXO set.
   */
  lemma InputlessSpendBreaksReplay(c: Crypto, l: Ledger, owner: Bytes, time: nat)
    requires HeightsBelow(l.utxos, |l.blocks|)
    ensures var r := SpendUtxos([], [TxOutput(0, owner)], 0);
            && Verified(c, l, r).1 == Some(true)
            && UtxosReplay(l, l)
            && !UtxosReplay(l, Handled(c, l, Event(r, time, true)))
  {
    var r := SpendUtxos([], [TxOutput(0, owner)], 0);
    assert r.outputs[..0] == [];
    assert OutputValue(r.outputs, None) == 0;
    InputlessApprovedIff(c, l, r);
    assert Since(l, l) == [];
    HandledUtxoReplay(c, l, l, Event(r, time, true));
  }
}
