/**
 * The validator node object (`ValidatorNode` and its handlers in src/modules/validation.rs and
 * src/modules/consensus.rs). Every handler step updates the node's fields in place and is proved against
 * the function of the ledger, the tally or the peer list that the results of the other modules are about.
 */
module ValidatorNodes {
  import opened Base
  import opened MerkleRoot
  import opened AccountStore
  import opened UtxoSets
  import opened UtxoAccounting
  import opened Blockchains
  import opened Signatures
  import opened Ledgers
  import C = Consensus
  import H = Heartbeats
  import A = Adoption

  /** What the three critical sections add up to when nothing comes between them. */
  lemma SpendOutcome(c: Crypto, l: Ledger, r: Request, result: Option<UtxoMap>)
    requires r.SpendUtxos?
    requires result == Applied(l.utxos, NewTransaction(c.sha, r.inputs, r.outputs, r.timestamp), |l.blocks|)
    ensures result.None? ==> WrittenSpend(c, l, r) == Refused(l)
    ensures result.Some? && r.inputs == [] ==> WrittenSpend(c, l, r) == Panicked(l.(utxos := result.value))
    ensures result.Some? && r.inputs != [] ==>
              WrittenSpend(c, l, r)
              == Written(Recorded(c, l.(utxos := result.value),
                                  Spend(NewTransaction(c.sha, r.inputs, r.outputs, r.timestamp), |l.blocks|, [])))
  {
  }

  class ValidatorNode {
    const crypto: Crypto
    const merkleTree: MerkleTree
    const utxoSet: UtxoSet
    const blockchain: BlockChain
    var usedSignatures: SignatureTable
    var clientDecisions: map<Bytes, bool>
    var peerDecisions: map<Bytes, C.Tally>
    var activePeers: seq<H.Peer>
    var totalPeers: nat

    /** The node's share of the replicated ledger. */
    ghost function State(): Ledger
      reads this, merkleTree, utxoSet, blockchain
    {
      Ledger(merkleTree.Contents(), utxoSet.utxos, usedSignatures, blockchain.chain)
    }

    ghost predicate Valid()
      reads this, utxoSet
    {
      utxoSet.Valid()
    }

    function TallyOf(hash: Bytes): Option<C.Tally>
      reads this
    {
      if hash in peerDecisions then Some(peerDecisions[hash]) else None
    }

    constructor (crypto: Crypto, now: nat)
      ensures Valid() && State() == GenesisLedger(now)
      ensures clientDecisions == map[] && peerDecisions == map[] && activePeers == [] && totalPeers == 0
      ensures fresh(merkleTree) && fresh(utxoSet) && fresh(blockchain)
    {
      this.crypto := crypto;
      merkleTree := new MerkleTree();
      utxoSet := new UtxoSet();
      blockchain := new BlockChain(now);
      usedSignatures, clientDecisions, peerDecisions, activePeers, totalPeers := map[], map[], map[], [], 0;
    }

    // -------------------------------------------------------------- signatures

    method VerifyTransactionSignature(call: Call) returns (ok: bool)
      modifies this`usedSignatures
      ensures ok <==> Accepts(crypto.ecdsa, old(usedSignatures), call)
      ensures usedSignatures == TableAfter(crypto.ecdsa, old(usedSignatures), call)
    {
      if !crypto.ecdsa(call.signature, call.sender, call.recipient, call.amount, call.nonce) {
        return false;
      }
      assert [] + [call.signature] == [call.signature];
      if call.sender in usedSignatures && call.signature in usedSignatures[call.sender] {
        return false;
      }
      if call.sender in usedSignatures {
        usedSignatures := usedSignatures[call.sender := usedSignatures[call.sender] + [call.signature]];
      } else {
        usedSignatures := usedSignatures[call.sender := [call.signature]];
      }
      ok := true;
    }

    // -------------------------------------------------------------- independent verification

    method VerifyAccountCreationIndependently(r: Request, hash: Bytes)
      requires r.CreateAccount?
      modifies this`clientDecisions
      ensures State() == Verified(crypto, old(State()), r).0
      ensures clientDecisions == old(clientDecisions)[hash := Verified(crypto, old(State()), r).1.value]
    {
      var known := merkleTree.AccountExists(r.key);
      clientDecisions := clientDecisions[hash := !known];
    }

    method VerifyFaucetRequestIndependently(r: Request, hash: Bytes) returns (decision: bool)
      requires r.UseFaucet?
      modifies this`clientDecisions
      ensures State() == Verified(crypto, old(State()), r).0
      ensures Verified(crypto, old(State()), r).1 == Some(decision)
      ensures clientDecisions == old(clientDecisions)[hash := decision]
    {
      decision := merkleTree.AccountExists(r.key);
      clientDecisions := clientDecisions[hash := decision];
    }

    method VerifyTransactionIndependently(r: Request, hash: Bytes) returns (decision: bool)
      requires r.SendTokens?
      modifies this`clientDecisions, this`usedSignatures
      ensures State() == Verified(crypto, old(State()), r).0
      ensures Verified(crypto, old(State()), r).1 == Some(decision)
      ensures clientDecisions == old(clientDecisions)[hash := decision]
    {
      decision := false;
      var senderKnown := merkleTree.AccountExists(r.sender);
      var recipientKnown := merkleTree.AccountExists(r.recipient);
      if senderKnown && recipientKnown {
        var nonce := merkleTree.GetAccountNonce(r.sender);
        var call := Call(r.signature, r.sender, r.recipient, r.amountText, if nonce.Some? then nonce.value else 0);
        assert call == TransferCall(merkleTree.Contents(), r);
        var signed := VerifyTransactionSignature(call);
        if signed {
          var balance := merkleTree.GetAccountBalance(r.sender);
          decision := r.amount <= balance.value;
        }
      }
      clientDecisions := clientDecisions[hash := decision];
    }

    /** The loop over inputs of the UTXO verification: owner, then signature, stopping at the first failure. */
    method VerifyInputs(inputs: seq<TxInput>) returns (ok: bool)
      requires AllPresent(utxoSet.utxos, inputs)
      modifies this`usedSignatures
      ensures (usedSignatures, ok) == CheckInputs(crypto.ecdsa, utxoSet.utxos, old(usedSignatures), inputs)
    {
      for i := 0 to |inputs|
        invariant CheckInputs(crypto.ecdsa, utxoSet.utxos, old(usedSignatures), inputs)
               == CheckInputs(crypto.ecdsa, utxoSet.utxos, usedSignatures, inputs[i..])
      {
        assert inputs[i..][1..] == inputs[i + 1..];
        if inputs[i].publicKey != utxoSet.utxos[inputs[i].outpoint].recipient {
          return false;
        }
        var signed := VerifyTransactionSignature(SpendCall(inputs[i]));
        if !signed {
          return false;
        }
      }
      ok := true;
    }

    /** A failed verification records no decision at all. */
    method VerifyUtxoTransactionIndependently(r: Request, hash: Bytes) returns (passed: bool)
      requires r.SpendUtxos?
      modifies this`clientDecisions, this`usedSignatures
      ensures State() == Verified(crypto, old(State()), r).0
      ensures Verified(crypto, old(State()), r).1 == if passed then Some(true) else None
      ensures clientDecisions == if passed then old(clientDecisions)[hash := true] else old(clientDecisions)
    {
      var present := utxoSet.HasInputs(r.inputs);
      if !present {
        return false;
      }
      var input := TotalInputAmount(utxoSet.utxos, r.inputs);
      if input.None? {
        return false;
      }
      var output := TotalOutputAmount(r.outputs);
      if output.None? || input.value < output.value {
        return false;
      }
      passed := VerifyInputs(r.inputs);
      if passed {
        clientDecisions := clientDecisions[hash := true];
      }
    }

    // -------------------------------------------------------------- writing to the ledger

    method Record(b: Block)
      requires Requester(b).Some?
      modifies blockchain
      ensures blockchain.chain == old(blockchain.chain) + [Hashed(crypto.sha, b)]
    {
      var _ := blockchain.StoreIncomingRequest(b);
      var _ := blockchain.PushBlockToChain(crypto.sha, b);
    }

    /** The UTXO path pushes a block it never stored as a request. */
    method PushOnly(b: Block) returns (ok: bool)
      modifies blockchain
      ensures ok <==> Requester(b).Some?
      ensures blockchain.chain == if ok then old(blockchain.chain) + [Hashed(crypto.sha, b)] else old(blockchain.chain)
    {
      ok := blockchain.PushBlockToChain(crypto.sha, b);
    }

    method MoveTokens(sender: Bytes, left: U64, recipient: Bytes, received: U64)
      modifies merkleTree
      ensures merkleTree.Contents() == Transferred(old(merkleTree.Contents()), sender, left, recipient, received)
    {
      merkleTree.ChangeAccountBalance(sender, left);
      merkleTree.IncrementAccountNonce(sender);
      merkleTree.ChangeAccountBalance(recipient, received);
    }

    /** `written` is false where the source panics. */
    method AddAccountCreationToLedger(r: Request, now: nat) returns (written: bool)
      requires r.CreateAccount?
      modifies merkleTree, blockchain
      ensures State() == Write(crypto, old(State()), r, now).ledger
      ensures written <==> Write(crypto, old(State()), r, now).Written?
    {
      if r.keyHash.None? {
        return false;
      }
      merkleTree.InsertAccount(Account(r.key, r.keyHash.value, 0, 0));
      Record(NewAccount(r.key, 0, now, []));
      written := true;
    }

    method AddFaucetRequestToLedger(r: Request, now: nat) returns (written: bool)
      requires r.UseFaucet?
      modifies merkleTree, blockchain
      ensures State() == Write(crypto, old(State()), r, now).ledger
      ensures written <==> Write(crypto, old(State()), r, now).Written?
    {
      var balance := merkleTree.GetAccountBalance(r.key);
      if balance.None? || balance.value + FAUCET_AMOUNT >= U64_LIMIT {
        return false;
      }
      merkleTree.ChangeAccountBalance(r.key, balance.value + FAUCET_AMOUNT);
      Record(Faucet(r.key, balance.value + FAUCET_AMOUNT, now, []));
      written := true;
    }

    method AddTransactionToLedger(r: Request, now: nat) returns (written: bool)
      requires r.SendTokens?
      modifies merkleTree, blockchain
      ensures State() == Write(crypto, old(State()), r, now).ledger
      ensures written <==> Write(crypto, old(State()), r, now).Written?
    {
      var from := merkleTree.GetAccountBalance(r.sender);
      var to := merkleTree.GetAccountBalance(r.recipient);
      var nonce := merkleTree.GetAccountNonce(r.sender);
      if from.None? || to.None? || nonce.None? || r.amount > from.value || to.value + r.amount >= U64_LIMIT {
        return false;
      }
      var b := Transfer(r.sender, from.value - r.amount, r.recipient, to.value + r.amount,
                        r.amount, now, nonce.value, []);
      assert b == TransferBlock(merkleTree.Contents(), r, now);
      MoveTokens(r.sender, b.senderBalance, r.recipient, b.recipientBalance);
      Record(b);
      written := true;
    }

    method ApplyToSet(tx: Transaction, height: nat) returns (ok: bool)
      requires Valid()
      modifies utxoSet
      ensures Valid()
      ensures ok <==> Applied(old(utxoSet.utxos), tx, height).Some?
      ensures utxoSet.utxos == if ok then Applied(old(utxoSet.utxos), tx, height).value else old(utxoSet.utxos)
    {
      ok := utxoSet.ApplyTransaction(tx, height);
    }

    /** Reads the height, updates the set, then pushes the block: three critical sections, here back to back. */
    method AddUtxoTransactionToLedger(r: Request) returns (written: bool)
      requires Valid() && r.SpendUtxos?
      modifies utxoSet, blockchain
      ensures Valid()
      ensures State() == WrittenSpend(crypto, old(State()), r).ledger
      ensures written <==> WrittenSpend(crypto, old(State()), r).Written?
    {
      var tx := NewTransaction(crypto.sha, r.inputs, r.outputs, r.timestamp);
      var height := |blockchain.chain|;
      SpendOutcome(crypto, State(), r, Applied(utxoSet.utxos, tx, height));
      written := ApplyToSet(tx, height);
      if written {
        written := PushOnly(Spend(tx, height, []));
      }
    }

    // -------------------------------------------------------------- the voting round

    /** `None` stands for the failed lookup of a decision not yet made. */
    method HandleConsensusRequest(hash: Bytes) returns (answer: Option<bool>)
      ensures answer == if hash in clientDecisions then Some(clientDecisions[hash]) else None
    {
      answer := if hash in clientDecisions then Some(clientDecisions[hash]) else None;
    }

    method HandleConsensusResponse(hash: Bytes, vote: bool)
      modifies this`peerDecisions
      ensures peerDecisions == old(peerDecisions)[hash := C.Counted(old(TallyOf(hash)), vote)]
    {
      var yes, no := 0, 0;
      if hash in peerDecisions {
        yes, no := peerDecisions[hash].yes, peerDecisions[hash].no;
      }
      if vote { yes := yes + 1; } else { no := no + 1; }
      peerDecisions := peerDecisions[hash := C.Tally(yes, no)];
    }

    /** For a first round of the network, the answer is yes exactly when every peer has been heard. */
    method CheckAllBlockDecisionsReceived(hash: Bytes) returns (all: bool)
      ensures all <==> C.Yes(TallyOf(hash)) + C.No(TallyOf(hash)) == totalPeers
      ensures forall net: C.Net, s: C.Slot {:trigger C.TallyExact(net, s)} ::
                C.TallyExact(net, s) && C.TallyAt(net, s) == TallyOf(hash) && C.Peers(net, s) == totalPeers ==>
                  (all <==> C.Heard(net, s) == net.nodes - {s.node})
    {
      var tally := TallyOf(hash);
      all := C.Yes(tally) + C.No(tally) == totalPeers;
      forall net: C.Net, s: C.Slot | C.TallyExact(net, s) && C.TallyAt(net, s) == tally && C.Peers(net, s) == totalPeers
        ensures all <==> C.Heard(net, s) == net.nodes - {s.node}
      {
        C.AllReceivedIffAllHeard(net, s);
      }
    }

    method DetermineMajority(hash: Bytes) returns (verdict: Option<bool>)
      ensures verdict.Some? <==> hash in clientDecisions
      ensures verdict.Some? ==> verdict.value == C.Majority(clientDecisions[hash], TallyOf(hash))
    {
      if hash !in clientDecisions {
        return None;
      }
      var yes, no := 0, 0;
      if clientDecisions[hash] { yes := yes + 1; } else { no := no + 1; }
      if hash in peerDecisions {
        yes := yes + peerDecisions[hash].yes;
        no := no + peerDecisions[hash].no;
      }
      verdict := Some(yes > no);
    }

    // -------------------------------------------------------------- the request handlers

    /** A handler up to its wait: verify, and if the node goes on, count the peers it will wait for. */
    method Begin(r: Request, hash: Bytes) returns (asks: bool)
      modifies this`clientDecisions, this`usedSignatures, this`totalPeers
      ensures State() == Verified(crypto, old(State()), r).0
      ensures asks == Asks(r, Verified(crypto, old(State()), r).1)
      ensures clientDecisions == match Verified(crypto, old(State()), r).1
                                 case Some(vote) => old(clientDecisions)[hash := vote]
                                 case None => old(clientDecisions)
      ensures totalPeers == if asks then |activePeers| else old(totalPeers)
    {
      match r {
        case CreateAccount(_, _) =>
          VerifyAccountCreationIndependently(r, hash);
          asks := true;
        case SendTokens(_, _, _, _, _) =>
          var _ := VerifyTransactionIndependently(r, hash);
          asks := true;
        case UseFaucet(_) => asks := VerifyFaucetRequestIndependently(r, hash);
        case SpendUtxos(_, _, _) => asks := VerifyUtxoTransactionIndependently(r, hash);
      }
      if asks {
        UpdateActivePeerCount();
      }
    }

    /** A handler after its wait: the majority decides, and a yes is written to the ledger. */
    method Conclude(r: Request, hash: Bytes, now: nat) returns (verdict: Option<bool>)
      requires Valid()
      modifies merkleTree, utxoSet, blockchain
      ensures Valid()
      ensures verdict.Some? <==> hash in clientDecisions
      ensures verdict.Some? ==> verdict.value == C.Majority(clientDecisions[hash], TallyOf(hash))
      ensures State() == if verdict == Some(true) then Write(crypto, old(State()), r, now).ledger else old(State())
    {
      verdict := DetermineMajority(hash);
      if verdict == Some(true) {
        match r {
          case CreateAccount(_, _) => var _ := AddAccountCreationToLedger(r, now);
          case SendTokens(_, _, _, _, _) => var _ := AddTransactionToLedger(r, now);
          case UseFaucet(_) => var _ := AddFaucetRequestToLedger(r, now);
          case SpendUtxos(_, _, _) => var _ := AddUtxoTransactionToLedger(r);
        }
      }
    }

    // -------------------------------------------------------------- peers

    method UpdateActivePeerCount()
      modifies this`totalPeers
      ensures totalPeers == |activePeers|
    {
      totalPeers := |activePeers|;
    }

    /** Fails, leaving the refreshed list unpurged, only where the source's subtraction underflows. */
    method HandleHeartbeat(address: string, now: nat) returns (ok: bool)
      modifies this`activePeers
      ensures ok <==> H.Heard(old(activePeers), H.Beat(address, now)).Some?
      ensures ok ==> activePeers == H.Heard(old(activePeers), H.Beat(address, now)).value
    {
      activePeers := H.Refresh(activePeers, H.Beat(address, now));
      if exists i :: 0 <= i < |activePeers| && activePeers[i].seen > now {
        return false;
      }
      activePeers := H.Purged(activePeers, now);
      ok := true;
    }

    /** Takes over chain, accounts and signatures of an answer that may be adopted; the UTXO set stays as it is. */
    method AdoptNetworkState(hash: A.TextHash, answers: seq<A.Answer>)
      requires A.AllValid(answers)
      modifies this`usedSignatures, merkleTree, blockchain
      ensures answers == [] ==> State() == old(State())
      ensures answers != [] ==>
                exists s :: && A.MayAdopt(hash, answers, s)
                            && State() == Ledger(Store(s.accountsVec, s.accountsMap), old(utxoSet.utxos),
                                                 s.used, s.blocks)
    {
      var adopted := A.AdoptMajority(hash, answers);
      if adopted.Some? {
        blockchain.chain := adopted.value.blocks;
        merkleTree.accountsVec := adopted.value.accountsVec;
        merkleTree.accountsMap := adopted.value.accountsMap;
        usedSignatures := adopted.value.used;
      }
    }
  }
}
