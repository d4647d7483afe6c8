/**
 * Approved spends over serial runs: since a hash covers what a transaction spends and creates, different spends
 * never overwrite each other's outputs, and every balance adds up.
 */
module SpendNames {
  import opened Base
  import opened UtxoSets
  import opened UtxoAccounting
  import opened TransactionHashes
  import opened Blockchains
  import opened Ledgers
  import opened LedgerRuns

  function TransactionOf(c: Crypto, r: Request): Transaction
    requires r.SpendUtxos?
  {
    NewTransaction(c.sha, r.inputs, r.outputs, r.timestamp)
  }

  /** Spends that differ in an outpoint, a key, an output or the time, and that hashing can tell apart. */
  ghost predicate Different(c: Crypto, r: Request, q: Request) {
    && r.SpendUtxos? && q.SpendUtxos?
    && Unambiguous(r.inputs, r.outputs, r.timestamp, q.inputs, q.outputs, q.timestamp)
    && CollisionFreeOn(c.sha, {TransactionPreimage(r.inputs, r.outputs, r.timestamp),
                               TransactionPreimage(q.inputs, q.outputs, q.timestamp)})
    && !(SameSpends(r.inputs, q.inputs) && r.outputs == q.outputs && r.timestamp == q.timestamp)
  }

  lemma DifferentHashes(c: Crypto, r: Request, q: Request)
    requires Different(c, r, q)
    ensures TransactionOf(c, r).hash != TransactionOf(c, q).hash
  {
    TransactionHashIff(c.sha, r.inputs, r.outputs, r.timestamp, q.inputs, q.outputs, q.timestamp);
  }

  /** An entry under the transaction hash of request `r`. */
  predicate NamedBy(c: Crypto, r: Request, op: OutPoint) {
    r.SpendUtxos? && op.txid == TransactionOf(c, r).hash
  }

  /** What one request adds to the set is named by it. */
  lemma HandledOrigin(c: Crypto, l: Ledger, e: Event, op: OutPoint)
    requires op in Handled(c, l, e).utxos
    ensures op in l.utxos || NamedBy(c, e.request, op)
  {
    VerifiedMarksOnly(c, l, e.request);
    if e.request.SpendUtxos? {
      AppliedEntries(l.utxos, TransactionOf(c, e.request), |l.blocks|);
    }
  }

  lemma {:induction false} RunOrigin(c: Crypto, start: Ledger, events: seq<Event>, op: OutPoint) returns (i: nat)
    requires op in Run(c, start, events).utxos && op !in start.utxos
    ensures i < |events| && NamedBy(c, events[i].request, op)
    decreases |events|
  {
    var last := |events| - 1;
    HandledOrigin(c, Run(c, start, events[..last]), events[last], op);
    if NamedBy(c, events[last].request, op) {
      i := last;
    } else {
      i := RunOrigin(c, start, events[..last], op);
    }
  }

  /** The spends of a run are pairwise different, and the start knows none of their names. */
  ghost predicate DifferentSpends(c: Crypto, start: Ledger, events: seq<Event>) {
    && (forall i, j :: 0 <= i < j < |events| && events[i].request.SpendUtxos? && events[j].request.SpendUtxos? ==>
          Different(c, events[i].request, events[j].request))
    && (forall i, op :: 0 <= i < |events| && op in start.utxos ==> !NamedBy(c, events[i].request, op))
  }

  /** So no spend of the run finds an entry under the names it is about to create. */
  lemma NamesAreFresh(c: Crypto, start: Ledger, events: seq<Event>, i: nat, op: OutPoint)
    requires DifferentSpends(c, start, events) && i < |events| && NamedBy(c, events[i].request, op)
    ensures op !in Run(c, start, events[..i]).utxos
  {
    if op in Run(c, start, events[..i]).utxos {
      var j := RunOrigin(c, start, events[..i], op);
      DifferentHashes(c, events[j].request, events[i].request);
    }
  }

  /**
   * In every such run, an approved and carried spend with distinct inputs overwrites nothing: everybody's balance
   * loses the inputs spent and gains the outputs created, and every output is there under its own name.
   */
  lemma SpendsNeverOverwrite(c: Crypto, start: Ledger, events: seq<Event>, i: nat, who: Option<Bytes>)
    requires DifferentSpends(c, start, events) && i < |events| && events[i].request.SpendUtxos? && events[i].verdict
    requires var r := events[i].request;
             r.inputs != [] && |r.outputs| <= U32_LIMIT && DistinctInputs(r.inputs)
    requires Verified(c, Run(c, start, events[..i]), events[i].request).1 == Some(true)
    ensures var l, after, r := Run(c, start, events[..i]), Run(c, start, events[..i + 1]), events[i].request;
            && AllPresent(l.utxos, r.inputs)
            && Holdings(after.utxos, who)
               == Holdings(l.utxos, who) - InputValue(l.utxos, r.inputs, who) + OutputValue(r.outputs, who)
            && EntriesAfter(l.utxos, after.utxos, TransactionOf(c, r), |l.blocks|)
  {
    var l, r := Run(c, start, events[..i]), events[i].request;
    assert events[..i + 1][..i] == events[..i];
    forall op | NamedBy(c, r, op) ensures op !in l.utxos {
      NamesAreFresh(c, start, events, i, op);
    }
    FreshSpend(c, l, events[i], who);
  }

  lemma ApprovedApplies(c: Crypto, l: Ledger, e: Event)
    requires e.request.SpendUtxos? && e.verdict && e.request.inputs != []
    requires Verified(c, l, e.request).1 == Some(true)
    ensures AllPresent(l.utxos, e.request.inputs)
    ensures Some(Handled(c, l, e).utxos) == Applied(l.utxos, TransactionOf(c, e.request), |l.blocks|)
  {
    VerifiedMarksOnly(c, l, e.request);
  }

  lemma FreshSpend(c: Crypto, l: Ledger, e: Event, who: Option<Bytes>)
    requires e.request.SpendUtxos? && e.verdict && e.request.inputs != [] && DistinctInputs(e.request.inputs)
    requires |e.request.outputs| <= U32_LIMIT && Verified(c, l, e.request).1 == Some(true)
    requires forall op :: NamedBy(c, e.request, op) ==> op !in l.utxos
    ensures var after, r := Handled(c, l, e), e.request;
            && AllPresent(l.utxos, r.inputs)
            && Holdings(after.utxos, who)
               == Holdings(l.utxos, who) - InputValue(l.utxos, r.inputs, who) + OutputValue(r.outputs, who)
            && EntriesAfter(l.utxos, after.utxos, TransactionOf(c, r), |l.blocks|)
  {
    var tx := TransactionOf(c, e.request);
    ApprovedApplies(c, l, e);
    assert forall j :: 0 <= j < |tx.outputs| ==> NamedBy(c, e.request, OutputName(tx.hash, j));
    BalanceEquation(l.utxos, tx, |l.blocks|, who);
    AppliedEntries(l.utxos, tx, |l.blocks|);
  }

  /** A later spend leaves the outputs of an earlier one as they are, except for those it lists as inputs. */
  lemma LaterSpendsKeepOutputs(c: Crypto, start: Ledger, events: seq<Event>, i: nat, op: OutPoint)
    requires DifferentSpends(c, start, events) && i < |events|
    requires op in Run(c, start, events[..i]).utxos
    requires events[i].request.SpendUtxos? ==> !Lists(events[i].request.inputs, op)
    ensures var l, after := Run(c, start, events[..i]), Run(c, start, events[..i + 1]);
            op in after.utxos && after.utxos[op] == l.utxos[op]
  {
    var l, r := Run(c, start, events[..i]), events[i].request;
    assert events[..i + 1][..i] == events[..i];
    VerifiedMarksOnly(c, l, r);
    if r.SpendUtxos? {
      if NamedBy(c, r, op) {
        NamesAreFresh(c, start, events, i, op);
      }
      AppliedEntries(l.utxos, TransactionOf(c, r), |l.blocks|);
    }
  }
}
