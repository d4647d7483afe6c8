/**
 * What handled requests do to the table of used signatures: every signature whose check passed is kept, in
 * order, even if the request then fails, and so none serves two approvals in any run.
 */
module LedgerSignatures {
  import opened Base
  import opened Encodings
  import opened AccountStore
  import opened UtxoSets
  import opened UtxoAccounting
  import opened Signatures
  import opened Ledgers

  // ---------------------------------------------------------------- spends

  /** The signatures an owner gives in a list of inputs, in order. */
  function SignaturesOf(inputs: seq<TxInput>, owner: Bytes): seq<string> {
    if inputs == [] then []
    else
      (if HexEncode(inputs[0].publicKey) == owner then [inputs[0].signature] else []) + SignaturesOf(inputs[1..], owner)
  }

  /** The first `k` inputs are in order, and one more would not be. */
  ghost predicate LongestInOrder(ecdsa: Ecdsa, m: UtxoMap, used: SignatureTable, inputs: seq<TxInput>, k: nat) {
    && AllPresent(m, inputs) && k <= |inputs|
    && InputsInOrder(ecdsa, m, used, inputs[..k])
    && (k < |inputs| ==> !InputsInOrder(ecdsa, m, used, inputs[..k + 1]))
  }

  /** Each owner's list has grown by the signatures it gives in `inputs`, in order. */
  ghost predicate Marks(before: SignatureTable, after: SignatureTable, inputs: seq<TxInput>) {
    forall owner :: UsedBy(after, owner) == UsedBy(before, owner) + SignaturesOf(inputs, owner)
  }

  lemma MarksBoth(a: SignatureTable, b: SignatureTable, c: SignatureTable, front: seq<TxInput>, back: seq<TxInput>)
    requires Marks(a, b, front) && Marks(b, c, back)
    ensures Marks(a, c, front + back)
  {
    forall owner ensures UsedBy(c, owner) == UsedBy(a, owner) + SignaturesOf(front + back, owner) {
      assert UsedBy(b, owner) == UsedBy(a, owner) + SignaturesOf(front, owner);
      SignaturesConcat(front, back, owner);
      Associative(UsedBy(a, owner), SignaturesOf(front, owner), SignaturesOf(back, owner));
    }
  }

  lemma Associative<T>(x: seq<T>, y: seq<T>, z: seq<T>)
    ensures x + y + z == x + (y + z)
  {
  }

  /** The loop's first step: a first input in order is marked and the loop goes on, any other ends it. */
  lemma FirstMark(ecdsa: Ecdsa, m: UtxoMap, used: SignatureTable, inputs: seq<TxInput>)
    requires inputs != [] && AllPresent(m, inputs) && AllPresent(m, inputs[1..])
    ensures !InputInOrder(ecdsa, m, used, inputs[0]) ==> CheckInputs(ecdsa, m, used, inputs).0 == used
    ensures InputInOrder(ecdsa, m, used, inputs[0]) ==>
              var after := TableAfter(ecdsa, used, SpendCall(inputs[0]));
              && CheckInputs(ecdsa, m, used, inputs) == CheckInputs(ecdsa, m, after, inputs[1..])
              && Marks(used, after, inputs[..1])
  {
    assert inputs[..1] == [inputs[0]] && inputs[..1][1..] == [];
  }

  lemma {:induction false} SignaturesConcat(front: seq<TxInput>, back: seq<TxInput>, owner: Bytes)
    ensures SignaturesOf(front + back, owner) == SignaturesOf(front, owner) + SignaturesOf(back, owner)
    decreases |front|
  {
    if front == [] {
      assert front + back == back;
    } else {
      SignaturesConcat(front[1..], back, owner);
      assert (front + back)[1..] == front[1..] + back;
    }
  }

  lemma NothingInOrder(ecdsa: Ecdsa, m: UtxoMap, used: SignatureTable, inputs: seq<TxInput>)
    requires AllPresent(m, inputs) && (inputs != [] ==> !InputInOrder(ecdsa, m, used, inputs[0]))
    ensures LongestInOrder(ecdsa, m, used, inputs, 0) && Marks(used, used, inputs[..0])
  {
    if inputs != [] {
      assert inputs[..1][0] == inputs[0];
    }
  }

  /** The input loop marks the signatures of exactly the longest list of inputs in order. */
  lemma {:induction false} LoopMarks(ecdsa: Ecdsa, m: UtxoMap, used: SignatureTable, inputs: seq<TxInput>)
    returns (k: nat)
    requires AllPresent(m, inputs)
    ensures LongestInOrder(ecdsa, m, used, inputs, k)
    ensures Marks(used, CheckInputs(ecdsa, m, used, inputs).0, inputs[..k])
    decreases |inputs|
  {
    if inputs != [] {
      assert AllPresent(m, inputs[1..]);
      FirstMark(ecdsa, m, used, inputs);
    }
    if inputs == [] || !InputInOrder(ecdsa, m, used, inputs[0]) {
      k := 0;
      NothingInOrder(ecdsa, m, used, inputs);
    } else {
      var after := TableAfter(ecdsa, used, SpendCall(inputs[0]));
      var rest := LoopMarks(ecdsa, m, after, inputs[1..]);
      LongestUncons(ecdsa, m, used, inputs, rest);
      MarksBoth(used, after, CheckInputs(ecdsa, m, used, inputs).0, inputs[..1], inputs[1..][..rest]);
      k := rest + 1;
      assert inputs[..k] == inputs[..1] + inputs[1..][..rest];
    }
  }

  lemma LongestUncons(ecdsa: Ecdsa, m: UtxoMap, used: SignatureTable, inputs: seq<TxInput>, k: nat)
    requires inputs != [] && AllPresent(m, inputs) && AllPresent(m, inputs[1..])
    requires InputInOrder(ecdsa, m, used, inputs[0])
    requires LongestInOrder(ecdsa, m, TableAfter(ecdsa, used, SpendCall(inputs[0])), inputs[1..], k)
    ensures LongestInOrder(ecdsa, m, used, inputs, k + 1)
  {
    PrefixAfterFirst(ecdsa, m, used, inputs, k);
    if k < |inputs[1..]| {
      PrefixAfterFirst(ecdsa, m, used, inputs, k + 1);
    }
  }

  lemma PrefixAfterFirst(ecdsa: Ecdsa, m: UtxoMap, used: SignatureTable, inputs: seq<TxInput>, k: nat)
    requires inputs != [] && AllPresent(m, inputs) && AllPresent(m, inputs[1..]) && k < |inputs|
    requires InputInOrder(ecdsa, m, used, inputs[0])
    ensures InputsInOrder(ecdsa, m, used, inputs[..k + 1])
       <==> InputsInOrder(ecdsa, m, TableAfter(ecdsa, used, SpendCall(inputs[0])), inputs[1..][..k])
  {
    assert inputs[..k + 1][1..] == inputs[1..][..k];
    InOrderAfterFirst(ecdsa, m, used, inputs[..k + 1]);
  }

  /**
   * A spend with a fee marks the signatures of its inputs up to the first that is not in order, whether or not it
   * is approved and whatever the vote; a spend without one marks nothing.
   */
  lemma SpendMarks(c: Crypto, l: Ledger, e: Event) returns (k: nat)
    requires e.request.SpendUtxos?
    ensures k <= |e.request.inputs|
    ensures Fee(l.utxos, e.request.inputs, e.request.outputs).Some? ==>
              LongestInOrder(c.ecdsa, l.utxos, l.used, e.request.inputs, k)
    ensures Fee(l.utxos, e.request.inputs, e.request.outputs).None? ==> k == 0
    ensures forall owner :: UsedBy(Handled(c, l, e).used, owner)
                         == UsedBy(l.used, owner) + SignaturesOf(e.request.inputs[..k], owner)
  {
    k := 0;
    HandledUsed(c, l, e);
    if Funded(l.utxos, e.request.inputs, e.request.outputs) {
      k := LoopMarks(c.ecdsa, l.utxos, l.used, e.request.inputs);
    } else {
      assert e.request.inputs[..0] == [];
    }
  }

  lemma HandledUsed(c: Crypto, l: Ledger, e: Event)
    ensures Handled(c, l, e).used == Verified(c, l, e.request).0.used
  {
  }

  // ---------------------------------------------------------------- transfers

  /** Both accounts exist, and the signature is valid for the sender's current nonce and new to the sender. */
  ghost predicate SignaturePasses(c: Crypto, l: Ledger, r: Request)
    requires r.SendTokens?
  {
    && r.sender in l.store.balances && r.recipient in l.store.balances
    && c.ecdsa(r.signature, r.sender, r.recipient, r.amountText,
               if GetNonce(l.store, r.sender).Some? then GetNonce(l.store, r.sender).value else 0)
    && r.signature !in UsedBy(l.used, r.sender)
  }

  /** A transfer marks its signature exactly if that passes, even if the balance then is too small. */
  lemma TransferMarks(c: Crypto, l: Ledger, e: Event, owner: Bytes)
    requires e.request.SendTokens?
    ensures UsedBy(Handled(c, l, e).used, owner)
         == UsedBy(l.used, owner)
            + if owner == e.request.sender && SignaturePasses(c, l, e.request) then [e.request.signature] else []
  {
    HandledUsed(c, l, e);
  }

  lemma OthersMarkNothing(c: Crypto, l: Ledger, e: Event)
    requires e.request.CreateAccount? || e.request.UseFaucet?
    ensures Handled(c, l, e).used == l.used
  {
    HandledUsed(c, l, e);
  }

  // ---------------------------------------------------------------- single use over runs

  /** Who signs what in a request. */
  function Signed(r: Request): set<(Bytes, string)> {
    match r
    case SendTokens(sender, _, _, _, signature) => {(sender, signature)}
    case SpendUtxos(inputs, _, _) => set x | x in inputs :: (HexEncode(x.publicKey), x.signature)
    case _ => {}
  }

  lemma {:induction false} SignaturesOfAll(inputs: seq<TxInput>, x: TxInput)
    requires x in inputs
    ensures x.signature in SignaturesOf(inputs, HexEncode(x.publicKey))
    decreases |inputs|
  {
    if x != inputs[0] {
      SignaturesOfAll(inputs[1..], x);
    }
  }

  /** What an approved request signs was unused before and is used after. */
  lemma ApprovedUses(c: Crypto, l: Ledger, e: Event, owner: Bytes, signature: string)
    requires Verified(c, l, e.request).1 == Some(true) && (owner, signature) in Signed(e.request)
    ensures signature !in UsedBy(l.used, owner) && signature in UsedBy(Handled(c, l, e).used, owner)
  {
    if e.request.SendTokens? {
      TransferMarks(c, l, e, owner);
    } else {
      var inputs := e.request.inputs;
      SpendApprovedIff(c, l, e.request);
      var k := SpendMarks(c, l, e);
      assert inputs[..|inputs|] == inputs;
      AllInOrder(c.ecdsa, l.utxos, l.used, inputs, k);
      var x :| x in inputs && (owner, signature) == (HexEncode(x.publicKey), x.signature);
      SignaturesOfAll(inputs, x);
    }
  }

  lemma AllInOrder(ecdsa: Ecdsa, m: UtxoMap, used: SignatureTable, inputs: seq<TxInput>, k: nat)
    requires LongestInOrder(ecdsa, m, used, inputs, k) && InputsInOrder(ecdsa, m, used, inputs)
    ensures k == |inputs|
  {
  }

  /** Used signatures stay used. */
  lemma UsedStays(c: Crypto, l: Ledger, e: Event, owner: Bytes, signature: string)
    requires signature in UsedBy(l.used, owner)
    ensures signature in UsedBy(Handled(c, l, e).used, owner)
  {
    match e.request
    case SendTokens(_, _, _, _, _) => TransferMarks(c, l, e, owner);
    case SpendUtxos(_, _, _) => var k := SpendMarks(c, l, e);
    case _ => OthersMarkNothing(c, l, e);
  }

  lemma {:induction false} UsedStaysInRun(c: Crypto, start: Ledger, events: seq<Event>, i: nat,
                                          owner: Bytes, signature: string)
    requires i <= |events| && signature in UsedBy(Run(c, start, events[..i]).used, owner)
    ensures signature in UsedBy(Run(c, start, events).used, owner)
    decreases |events|
  {
    if i == |events| {
      assert events[..i] == events;
    } else {
      var front := events[..|events| - 1];
      assert front[..i] == events[..i];
      UsedStaysInRun(c, start, front, i, owner, signature);
      UsedStays(c, Run(c, start, front), events[|events| - 1], owner, signature);
    }
  }

  /** The node's own verification of event `i` of a run says yes. */
  predicate ApprovedAt(c: Crypto, start: Ledger, events: seq<Event>, i: nat)
    requires i < |events|
  {
    Verified(c, Run(c, start, events[..i]), events[i].request).1 == Some(true)
  }

  /**
   * From any start and whatever the votes, no signature of one signer serves two approvals in a run, of
   * transfers and of spends alike.
   */
  lemma SignatureServesOnce(c: Crypto, start: Ledger, events: seq<Event>, i: nat, j: nat)
    requires i < j < |events| && ApprovedAt(c, start, events, i) && ApprovedAt(c, start, events, j)
    ensures Signed(events[i].request) !! Signed(events[j].request)
  {
    forall x | x in Signed(events[i].request) ensures x !in Signed(events[j].request) {
      var front := events[..i + 1];
      assert front[..i] == events[..i] && events[..j][..i + 1] == front;
      ApprovedUses(c, Run(c, start, events[..i]), events[i], x.0, x.1);
      UsedStaysInRun(c, start, events[..j], i + 1, x.0, x.1);
      if x in Signed(events[j].request) {
        ApprovedUses(c, Run(c, start, events[..j]), events[j], x.0, x.1);
      }
    }
  }

  /** Nor does it serve two inputs of one approved spend. */
  lemma SignatureServesOneInput(c: Crypto, l: Ledger, r: Request, i: nat, j: nat)
    requires r.SpendUtxos? && Verified(c, l, r).1 == Some(true) && i < j < |r.inputs|
    ensures r.inputs[i].publicKey != r.inputs[j].publicKey || r.inputs[i].signature != r.inputs[j].signature
  {
    SpendApprovedIff(c, l, r);
  }
}
