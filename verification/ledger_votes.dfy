/**
 * When a node votes yes, and what it then writes, told by what accounts hold, which signatures are valid and
 * which were used: for transfers, account creations and the faucet. Spends are in `Ledgers.SpendApprovedIff`.
 */
module LedgerVotes {
  import opened Base
  import opened MerkleRoot
  import opened AccountStore
  import opened UtxoSets
  import opened Blockchains
  import opened Signatures
  import opened Ledgers
  import opened LedgerRuns

  // ---------------------------------------------------------------- transfers

  /**
   * Both accounts exist, the signature is valid for sender, recipient, the amount as written and the nonce the
   * sender's account has now, the sender never used it before, and the sender holds the amount.
   */
  ghost predicate TransferInOrder(c: Crypto, l: Ledger, r: Request)
    requires r.SendTokens?
  {
    && r.sender in l.store.balances && r.recipient in l.store.balances
    && (exists n: nat ::
          GetNonce(l.store, r.sender) == Some(n) && c.ecdsa(r.signature, r.sender, r.recipient, r.amountText, n))
    && r.signature !in UsedBy(l.used, r.sender)
    && r.amount <= l.store.balances[r.sender]
  }

  lemma KnownHasNonce(s: Store, key: Bytes)
    requires KeysMatch(s)
    ensures key in s.balances <==> GetNonce(s, key).Some?
  {
    assert key in s.balances <==> FindFirst(s.vec, key).Some?;
  }

  /** A transfer gets a vote and goes to the vote in any case; the vote is yes exactly if it is in order. */
  lemma TransferVoteIff(c: Crypto, l: Ledger, r: Request)
    requires r.SendTokens? && KeysMatch(l.store)
    ensures Verified(c, l, r).1 == Some(TransferInOrder(c, l, r))
    ensures Asks(r, Verified(c, l, r).1)
  {
    KnownHasNonce(l.store, r.sender);
  }

  /** The block and the balances a transfer leaves, from those before it. */
  ghost predicate TransferWritten(l: Ledger, after: Ledger, r: Request, time: nat, nonce: nat)
    requires r.SendTokens?
  {
    && r.sender in l.store.balances && r.recipient in l.store.balances
    && r.amount <= l.store.balances[r.sender] && l.store.balances[r.recipient] + r.amount < U64_LIMIT
    && GetNonce(l.store, r.sender) == Some(nonce) && GetNonce(after.store, r.sender) == Some(nonce + 1)
    && |after.blocks| == |l.blocks| + 1 && after.blocks[..|l.blocks|] == l.blocks
    && var left, received := l.store.balances[r.sender] - r.amount, l.store.balances[r.recipient] + r.amount;
       var b := after.blocks[|l.blocks|];
       && after.store.balances == l.store.balances[r.sender := left][r.recipient := received]
       && b.Transfer? && b.sender == r.sender && b.recipient == r.recipient && b.amount == r.amount
       && b.senderBalance == left && b.recipientBalance == received
       && b.senderNonce == nonce && b.time == time && Requester(b) == Some(r.sender)
  }

  lemma TransferWrites(c: Crypto, l: Ledger, r: Request, time: nat)
    requires r.SendTokens? && r.sender in l.store.balances && r.recipient in l.store.balances
    requires r.amount <= l.store.balances[r.sender] && l.store.balances[r.recipient] + r.amount < U64_LIMIT
    requires GetNonce(l.store, r.sender).Some?
    ensures TransferWritten(l, Write(c, l, r, time).ledger, r, time, GetNonce(l.store, r.sender).value)
  {
    var b := TransferBlock(l.store, r, time);
    TransferredBalances(l.store, r.sender, b.senderBalance, r.recipient, b.recipientBalance);
    TransferredNonce(l.store, r.sender, b.senderBalance, r.recipient, b.recipientBalance, r.sender);
  }

  /**
   * In any serial run, as long as the tokens there ever were fit in 64 bits, a transfer is approved exactly if
   * it is in order, and carried, it moves its amount and records the very nonce its signature was checked against.
   */
  lemma TransferApprovedAndWritten(c: Crypto, start: Ledger, events: seq<Event>, r: Request, time: nat)
    requires KeysMatch(start.store) && r.SendTokens?
    requires TokensFit(start, Run(c, start, events), r)
    ensures var l := Run(c, start, events);
            && Verified(c, l, r).1 == Some(TransferInOrder(c, l, r))
            && (TransferInOrder(c, l, r) ==>
                  exists n: nat :: && c.ecdsa(r.signature, r.sender, r.recipient, r.amountText, n)
                                   && TransferWritten(l, Handled(c, l, Event(r, time, true)), r, time, n))
  {
    var l := Run(c, start, events);
    RunKeys(c, start, events);
    TransferVoteIff(c, l, r);
    if TransferInOrder(c, l, r) {
      TransferApprovedIffWritable(c, start, events, r);
      CarriedTransferWrites(c, l, r, time);
    }
  }

  lemma CarriedTransferWrites(c: Crypto, l: Ledger, r: Request, time: nat)
    requires r.SendTokens? && CanTransfer(l.store, r)
    ensures TransferWritten(l, Handled(c, l, Event(r, time, true)), r, time, GetNonce(l.store, r.sender).value)
  {
    VerifiedMarksOnly(c, l, r);
    TransferWrites(c, Verified(c, l, r).0, r, time);
  }

  // ---------------------------------------------------------------- account creation

  ghost predicate HasRecord(s: Store, key: Bytes) {
    exists i :: 0 <= i < |s.vec| && s.vec[i].publicKey == key
  }

  lemma KnownHasRecord(s: Store, key: Bytes)
    requires KeysMatch(s)
    ensures key in s.balances <==> HasRecord(s, key)
  {
    assert key in s.balances <==> FindFirst(s.vec, key).Some?;
  }

  /**
   * A creation gets a vote and goes to the vote in any case. The vote is yes exactly if no record has the key,
   * which is exactly when writing it keeps the two copies of the store in agreement.
   */
  lemma CreationVoteIff(c: Crypto, l: Ledger, r: Request, time: nat)
    requires r.CreateAccount? && Agreed(l.store)
    ensures Verified(c, l, r).1 == Some(!HasRecord(l.store, r.key))
    ensures Asks(r, Verified(c, l, r).1)
    ensures r.keyHash.Some? ==>
              (Verified(c, l, r).1 == Some(true) <==> DistinctKeys(Write(c, l, r, time).ledger.store.vec))
    ensures r.keyHash.Some? ==>
              (Verified(c, l, r).1 == Some(true) <==> Agreed(Write(c, l, r, time).ledger.store))
  {
    AgreedKeysMatch(l.store);
    KnownHasRecord(l.store, r.key);
    if r.keyHash.Some? {
      InsertKeys(l.store, Account(r.key, r.keyHash.value, 0, 0));
      InsertKeepsAgreement(l.store, Account(r.key, r.keyHash.value, 0, 0));
    }
  }

  /** A new account: one record more, with no tokens and nonce 0, and the block that says so. */
  ghost predicate AccountAdded(l: Ledger, after: Ledger, key: Bytes, keyHash: Bytes, time: nat) {
    && after.store.vec == l.store.vec + [Account(key, keyHash, 0, 0)]
    && after.store.balances == l.store.balances[key := 0]
    && after.utxos == l.utxos && after.used == l.used
    && |after.blocks| == |l.blocks| + 1 && after.blocks[..|l.blocks|] == l.blocks
    && var b := after.blocks[|l.blocks|];
       b.NewAccount? && b.address == key && b.accountBalance == 0 && b.time == time && Requester(b) == Some(key)
  }

  /**
   * In any serial run that created no account again, whatever else it did, a creation decided by the node's own
   * vote adds the account if no record has its key, and otherwise changes nothing.
   */
  lemma CreationDecided(c: Crypto, start: Ledger, events: seq<Event>, r: Request, time: nat)
    requires Agreed(start.store) && NeverRecreates(c, start, events) && r.CreateAccount? && r.keyHash.Some?
    ensures var l := Run(c, start, events);
            var after := Handled(c, l, Event(r, time, Verified(c, l, r).1 == Some(true)));
            && Agreed(after.store)
            && if HasRecord(l.store, r.key) then after == l else AccountAdded(l, after, r.key, r.keyHash.value, time)
  {
    DualStoreAgrees(c, start, events);
    CreationVoteIff(c, Run(c, start, events), r, time);
  }

  // ---------------------------------------------------------------- the faucet

  /** One account holds 100 tokens more, and a block says so. */
  ghost predicate FaucetPaid(l: Ledger, after: Ledger, key: Bytes, time: nat) {
    && key in l.store.balances && l.store.balances[key] + 100 < U64_LIMIT
    && after.store.balances == l.store.balances[key := l.store.balances[key] + 100]
    && after.utxos == l.utxos && after.used == l.used
    && |after.blocks| == |l.blocks| + 1 && after.blocks[..|l.blocks|] == l.blocks
    && var b := after.blocks[|l.blocks|];
       && b.Faucet? && b.address == key && b.accountBalance == l.store.balances[key] + 100 && b.time == time
       && Requester(b) == Some(key)
  }

  /**
   * A faucet call is approved, and goes to the vote, exactly if a record has its key; carried, it pays 100
   * tokens while they fit in 64 bits, and in every other case it changes nothing.
   */
  lemma FaucetDecided(c: Crypto, l: Ledger, r: Request, time: nat, verdict: bool)
    requires r.UseFaucet? && KeysMatch(l.store)
    ensures Verified(c, l, r).1 == Some(HasRecord(l.store, r.key))
    ensures Asks(r, Verified(c, l, r).1) <==> HasRecord(l.store, r.key)
    ensures var after := Handled(c, l, Event(r, time, verdict));
            if verdict && HasRecord(l.store, r.key) && l.store.balances[r.key] + 100 < U64_LIMIT
            then FaucetPaid(l, after, r.key, time) else after == l
  {
    KnownHasRecord(l.store, r.key);
    KnownHasNonce(l.store, r.key);
  }
}
