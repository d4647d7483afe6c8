/**
 * What one node does with a client request (src/modules/validation.rs): the independent verification
 * that decides a vote, and the step that writes an approved request to the ledger.
 */
module Ledgers {
  import opened Base
  import opened Encodings
  import opened MerkleRoot
  import opened AccountStore
  import opened UtxoSets
  import opened UtxoAccounting
  import opened Blockchains
  import opened Signatures

  /** The cryptography a node calls. */
  datatype Crypto = Crypto(sha: Digest, ecdsa: Ecdsa)

  const FAUCET_AMOUNT: U64 := 100

  /** A client request, already parsed. `keyHash` is `None` when its text is not hexadecimal. */
  datatype Request =
    | CreateAccount(key: Bytes, keyHash: Option<Bytes>)
    | SendTokens(sender: Bytes, recipient: Bytes, amountText: Bytes, amount: U64, signature: string)
    | UseFaucet(key: Bytes)
    | SpendUtxos(inputs: seq<TxInput>, outputs: seq<TxOutput>, timestamp: U64)

  /** The state all nodes are meant to share. */
  datatype Ledger = Ledger(store: Store, utxos: UtxoMap, used: SignatureTable, blocks: seq<Block>)

  function GenesisLedger(time: nat): Ledger {
    Ledger(EMPTY_STORE, map[], map[], [Genesis(time)])
  }

  // ---------------------------------------------------------------- independent verification

  function TransferCall(s: Store, r: Request): Call
    requires r.SendTokens?
  {
    Call(r.signature, r.sender, r.recipient, r.amountText,
         match GetNonce(s, r.sender) case Some(n) => n case None => 0)
  }

  function SpendCall(input: TxInput): Call {
    Call(input.signature, HexEncode(input.publicKey), [], [], 0)
  }

  /** Checks owners and signatures input by input; signatures accepted before a failure stay used. */
  function CheckInputs(ecdsa: Ecdsa, m: UtxoMap, used: SignatureTable, inputs: seq<TxInput>): (SignatureTable, bool)
    requires AllPresent(m, inputs)
    decreases |inputs|
  {
    if inputs == [] then (used, true)
    else
      var call := SpendCall(inputs[0]);
      if inputs[0].publicKey != m[inputs[0].outpoint].recipient || !Accepts(ecdsa, used, call) then (used, false)
      else
        assert AllPresent(m, inputs[1..]);
        CheckInputs(ecdsa, m, TableAfter(ecdsa, used, call), inputs[1..])
  }

  /** Enough value goes in, and neither total leaves 64 bits. */
  predicate Funded(m: UtxoMap, inputs: seq<TxInput>, outputs: seq<TxOutput>) {
    && AllPresent(m, inputs)
    && OutputValue(outputs, None) <= InputValue(m, inputs, None) < U64_LIMIT
  }

  /** The ledger with its signatures marked, and the vote recorded; `None` when no vote is recorded. */
  function Verified(c: Crypto, l: Ledger, r: Request): (Ledger, Option<bool>) {
    match r
    case CreateAccount(key, _) => (l, Some(key !in l.store.balances))
    case UseFaucet(key) => (l, Some(key in l.store.balances))
    case SendTokens(sender, recipient, _, amount, _) =>
      if sender !in l.store.balances || recipient !in l.store.balances then (l, Some(false))
      else
        var call := TransferCall(l.store, r);
        (l.(used := TableAfter(c.ecdsa, l.used, call)),
         Some(Accepts(c.ecdsa, l.used, call) && amount <= l.store.balances[sender]))
    case SpendUtxos(inputs, outputs, _) =>
      if !Funded(l.utxos, inputs, outputs) then (l, None)
      else
        var (used, ok) := CheckInputs(c.ecdsa, l.utxos, l.used, inputs);
        (l.(used := used), if ok then Some(true) else None)
  }

  /** Whether the handler goes on to ask its peers after its own verification. */
  predicate Asks(r: Request, vote: Option<bool>) {
    match r
    case CreateAccount(_, _) => true
    case SendTokens(_, _, _, _, _) => true
    case UseFaucet(_) => vote == Some(true)
    case SpendUtxos(_, _, _) => vote == Some(true)
  }

  // ---------------------------------------------------------------- when a vote is yes

  /** An input is presented by its owner, under a valid signature the owner has not used before. */
  ghost predicate InputInOrder(ecdsa: Ecdsa, m: UtxoMap, used: SignatureTable, input: TxInput)
    requires input.outpoint in m
  {
    && input.publicKey == m[input.outpoint].recipient
    && ecdsa(input.signature, HexEncode(input.publicKey), [], [], 0)
    && input.signature !in UsedBy(used, HexEncode(input.publicKey))
  }

  /** So is every input, and no signature of an owner serves two of them. */
  ghost predicate InputsInOrder(ecdsa: Ecdsa, m: UtxoMap, used: SignatureTable, inputs: seq<TxInput>)
    requires AllPresent(m, inputs)
  {
    && (forall i :: 0 <= i < |inputs| ==> InputInOrder(ecdsa, m, used, inputs[i]))
    && (forall i, j :: 0 <= i < j < |inputs| ==>
          inputs[i].publicKey != inputs[j].publicKey || inputs[i].signature != inputs[j].signature)
  }

  lemma AcceptsAfter(ecdsa: Ecdsa, used: SignatureTable, first: Call, next: Call)
    requires Accepts(ecdsa, used, first)
    ensures Accepts(ecdsa, TableAfter(ecdsa, used, first), next)
       <==> Accepts(ecdsa, used, next) && (first.sender != next.sender || first.signature != next.signature)
  {
  }

  /** The input loop passes exactly when all inputs are in order, read off the table as it was before the loop. */
  lemma {:induction false} InputsCheckedIff(ecdsa: Ecdsa, m: UtxoMap, used: SignatureTable, inputs: seq<TxInput>)
    requires AllPresent(m, inputs)
    ensures CheckInputs(ecdsa, m, used, inputs).1 <==> InputsInOrder(ecdsa, m, used, inputs)
    decreases |inputs|
  {
    if inputs != [] && InputInOrder(ecdsa, m, used, inputs[0]) {
      assert AllPresent(m, inputs[1..]);
      InputsCheckedIff(ecdsa, m, TableAfter(ecdsa, used, SpendCall(inputs[0])), inputs[1..]);
      InOrderAfterFirst(ecdsa, m, used, inputs);
    }
  }

  /** Once its first input has passed, a list is in order exactly if the rest is, with that signature used. */
  lemma InOrderAfterFirst(ecdsa: Ecdsa, m: UtxoMap, used: SignatureTable, inputs: seq<TxInput>)
    requires inputs != [] && AllPresent(m, inputs) && AllPresent(m, inputs[1..])
    requires InputInOrder(ecdsa, m, used, inputs[0])
    ensures InputsInOrder(ecdsa, m, used, inputs)
       <==> InputsInOrder(ecdsa, m, TableAfter(ecdsa, used, SpendCall(inputs[0])), inputs[1..])
  {
    var first, rest := SpendCall(inputs[0]), inputs[1..];
    forall i | 0 <= i < |rest|
      ensures InputInOrder(ecdsa, m, TableAfter(ecdsa, used, first), rest[i])
         <==> && InputInOrder(ecdsa, m, used, rest[i])
              && (inputs[0].publicKey != rest[i].publicKey || inputs[0].signature != rest[i].signature)
    {
      AcceptsAfter(ecdsa, used, first, SpendCall(rest[i]));
      HexInjective(inputs[0].publicKey, rest[i].publicKey);
    }
    InOrderUncons(ecdsa, m, used, inputs);
  }

  lemma InOrderUncons(ecdsa: Ecdsa, m: UtxoMap, used: SignatureTable, inputs: seq<TxInput>)
    requires inputs != [] && AllPresent(m, inputs) && AllPresent(m, inputs[1..])
    requires InputInOrder(ecdsa, m, used, inputs[0])
    ensures InputsInOrder(ecdsa, m, used, inputs)
       <==> && InputsInOrder(ecdsa, m, used, inputs[1..])
            && forall j :: 0 <= j < |inputs[1..]| ==>
                 inputs[0].publicKey != inputs[1..][j].publicKey || inputs[0].signature != inputs[1..][j].signature
  {
    var rest := inputs[1..];
    assert forall j :: 1 <= j < |inputs| ==> inputs[j] == rest[j - 1];
  }

  /** A spend is approved exactly when it has a fee and its inputs are in order; otherwise no vote is recorded. */
  lemma SpendApprovedIff(c: Crypto, l: Ledger, r: Request)
    requires r.SpendUtxos?
    ensures Verified(c, l, r).1 == Some(true)
       <==> && Fee(l.utxos, r.inputs, r.outputs).Some?
            && InputsInOrder(c.ecdsa, l.utxos, l.used, r.inputs)
    ensures Verified(c, l, r).1 != Some(true) ==> Verified(c, l, r).1 == None
  {
    if Funded(l.utxos, r.inputs, r.outputs) {
      InputsCheckedIff(c.ecdsa, l.utxos, l.used, r.inputs);
    }
  }

  // ---------------------------------------------------------------- writing to the ledger

  /** `Panicked` and `Refused` carry the ledger the failed step leaves behind. */
  datatype Outcome =
    | Written(ledger: Ledger)
    | Panicked(ledger: Ledger)
    | Refused(ledger: Ledger)

  function Recorded(c: Crypto, l: Ledger, b: Block): Ledger {
    l.(blocks := l.blocks + [Hashed(c.sha, b)])
  }

  /** Both lookups find an account, and neither balance leaves its 64 bits. */
  predicate CanTransfer(s: Store, r: Request)
    requires r.SendTokens?
  {
    && r.sender in s.balances && r.recipient in s.balances && GetNonce(s, r.sender).Some?
    && r.amount <= s.balances[r.sender] && s.balances[r.recipient] + r.amount < U64_LIMIT
  }

  /** Both new balances are computed from the balances read before either is written. */
  function TransferBlock(s: Store, r: Request, time: nat): Block
    requires r.SendTokens? && CanTransfer(s, r)
  {
    Transfer(r.sender, s.balances[r.sender] - r.amount, r.recipient, s.balances[r.recipient] + r.amount,
             r.amount, time, GetNonce(s, r.sender).value, [])
  }

  function WrittenTransfer(c: Crypto, l: Ledger, r: Request, time: nat): Outcome
    requires r.SendTokens?
  {
    if !CanTransfer(l.store, r) then Panicked(l)
    else
      var b := TransferBlock(l.store, r, time);
      var store := Transferred(l.store, r.sender, b.senderBalance, r.recipient, b.recipientBalance);
      Written(Recorded(c, l.(store := store), b))
  }

  function WrittenFaucet(c: Crypto, l: Ledger, key: Bytes, time: nat): Outcome {
    var balance := GetBalance(l.store, key);
    if balance.None? || balance.value + FAUCET_AMOUNT >= U64_LIMIT then Panicked(l)
    else
      var raised := balance.value + FAUCET_AMOUNT;
      Written(Recorded(c, l.(store := ChangeBalance(l.store, key, raised)), Faucet(key, raised, time, [])))
  }

  /** The set is updated before the chain refuses a transaction without inputs. */
  function WrittenSpend(c: Crypto, l: Ledger, r: Request): Outcome
    requires r.SpendUtxos?
  {
    var tx, height := NewTransaction(c.sha, r.inputs, r.outputs, r.timestamp), |l.blocks|;
    match Applied(l.utxos, tx, height)
    case None => Refused(l)
    case Some(m) =>
      if r.inputs == [] then Panicked(l.(utxos := m))
      else Written(Recorded(c, l.(utxos := m), Spend(tx, height, [])))
  }

  function Write(c: Crypto, l: Ledger, r: Request, time: nat): Outcome {
    match r
    case CreateAccount(key, keyHash) =>
      if keyHash.None? then Panicked(l)
      else Written(Recorded(c, l.(store := Insert(l.store, Account(key, keyHash.value, 0, 0))),
                            NewAccount(key, 0, time, [])))
    case SendTokens(_, _, _, _, _) => WrittenTransfer(c, l, r, time)
    case UseFaucet(key) => WrittenFaucet(c, l, key, time)
    case SpendUtxos(_, _, _) => WrittenSpend(c, l, r)
  }

  // ---------------------------------------------------------------- one request handled start to end

  /** A request, the clock when it is written, and the verdict of the vote, if it comes to one. */
  datatype Event = Event(request: Request, time: nat, verdict: bool)

  /**
   * One round of one node: verify, and if the node goes on to ask its peers, write what the vote approves,
   * whatever the node's own vote was.
   */
  function Handled(c: Crypto, l: Ledger, e: Event): Ledger {
    var (marked, vote) := Verified(c, l, e.request);
    if Asks(e.request, vote) && e.verdict then Write(c, marked, e.request, e.time).ledger else marked
  }

  /** A serial run: requests handled one after the other. */
  function Run(c: Crypto, l: Ledger, events: seq<Event>): Ledger {
    if events == [] then l
    else Handled(c, Run(c, l, events[..|events| - 1]), events[|events| - 1])
  }

  /** What verification leaves alone: all but the table of used signatures. */
  lemma VerifiedMarksOnly(c: Crypto, l: Ledger, r: Request)
    ensures Verified(c, l, r).0 == l.(used := Verified(c, l, r).0.used)
  {
  }
}
