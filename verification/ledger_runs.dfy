/**
 * Facts about whole serial runs of one node, from any ledger it starts with and whatever the votes decide:
 * the chain replays to the ledger, tokens are accounted for, the two copies of the account store agree
 * exactly while no account is created again, nonces count, and an approved write does not fail.
 */
module LedgerRuns {
  import opened Base
  import opened MerkleRoot
  import opened AccountStore
  import opened UtxoSets
  import opened UtxoAccounting
  import opened Blockchains
  import opened Signatures
  import opened Ledgers

  // ---------------------------------------------------------------- reading the chain back

  /** Recorded post-balances replace what was there. */
  function BalancesAfter(m: map<Bytes, U64>, b: Block): map<Bytes, U64> {
    match b
    case NewAccount(address, balance, _, _) => m[address := balance]
    case Faucet(address, balance, _, _) => m[address := balance]
    case Transfer(s, sb, r, rb, _, _, _, _) => m[s := sb][r := rb]
    case _ => m
  }

  /** Fold the recorded post-balances onto `m`. */
  function ReplayBalances(m: map<Bytes, U64>, blocks: seq<Block>): map<Bytes, U64> {
    if blocks == [] then m
    else BalancesAfter(ReplayBalances(m, blocks[..|blocks| - 1]), blocks[|blocks| - 1])
  }

  /** Fold the recorded UTXO transactions onto `m`; `None` when one of them does not apply. */
  function ReplayUtxos(m: UtxoMap, blocks: seq<Block>): Option<UtxoMap> {
    if blocks == [] then Some(m)
    else
      match ReplayUtxos(m, blocks[..|blocks| - 1])
      case None => None
      case Some(before) =>
        match blocks[|blocks| - 1]
        case Spend(tx, height, _) => Applied(before, tx, height)
        case _ => Some(before)
  }

  /** Every UTXO block from `start` on records its own position. */
  ghost predicate HeightsArePositions(blocks: seq<Block>, start: nat) {
    forall i :: start <= i < |blocks| && blocks[i].Spend? ==> blocks[i].blockHeight == i
  }

  /** The number of faucet blocks. */
  function Faucets(blocks: seq<Block>): nat {
    if blocks == [] then 0
    else Faucets(blocks[..|blocks| - 1]) + if blocks[|blocks| - 1].Faucet? then 1 else 0
  }

  function SelfSentBy(b: Block): nat {
    if b.Transfer? && b.sender == b.recipient then b.amount else 0
  }

  /** What was sent from accounts to themselves. */
  function SelfSent(blocks: seq<Block>): nat {
    if blocks == [] then 0 else SelfSent(blocks[..|blocks| - 1]) + SelfSentBy(blocks[|blocks| - 1])
  }

  function WipedBy(m: map<Bytes, U64>, b: Block): nat {
    if b.NewAccount? && b.address in m then m[b.address] else 0
  }

  /** The balances lost because an account was created again, starting from the balances `m`. */
  function Wiped(m: map<Bytes, U64>, blocks: seq<Block>): nat {
    if blocks == [] then 0
    else
      var front := blocks[..|blocks| - 1];
      Wiped(m, front) + WipedBy(ReplayBalances(m, front), blocks[|blocks| - 1])
  }

  /** The nonces of one sender's transfers, in chain order. */
  function NoncesOf(blocks: seq<Block>, sender: Bytes): seq<nat> {
    if blocks == [] then []
    else
      var b := blocks[|blocks| - 1];
      NoncesOf(blocks[..|blocks| - 1], sender) + if b.Transfer? && b.sender == sender then [b.senderNonce] else []
  }

  function Balance(b: U64): nat {
    b
  }

  ghost function SumOf(balances: map<Bytes, U64>): nat {
    SumBy(balances, Balance)
  }

  ghost function TokensHeld(s: Store): nat {
    SumOf(s.balances)
  }

  /** first, first + 1, ..., next - 1. */
  function Range(first: nat, next: nat): (s: seq<nat>)
    ensures |s| == if first <= next then next - first else 0
    ensures forall i :: 0 <= i < |s| ==> s[i] == first + i
  {
    if next <= first then [] else Range(first, next - 1) + [next - 1]
  }

  /** The blocks recorded since the ledger `from`. */
  function Since(from: Ledger, l: Ledger): seq<Block> {
    if from.blocks <= l.blocks then l.blocks[|from.blocks|..] else []
  }

  /** What one more block adds to each reading of the chain. */
  lemma Appended(m: map<Bytes, U64>, blocks: seq<Block>, b: Block)
    ensures Faucets(blocks + [b]) == Faucets(blocks) + if b.Faucet? then 1 else 0
    ensures SelfSent(blocks + [b]) == SelfSent(blocks) + SelfSentBy(b)
    ensures ReplayBalances(m, blocks + [b]) == BalancesAfter(ReplayBalances(m, blocks), b)
    ensures Wiped(m, blocks + [b]) == Wiped(m, blocks) + WipedBy(ReplayBalances(m, blocks), b)
  {
    assert (blocks + [b])[..|blocks|] == blocks;
  }

  lemma AppendedNonces(blocks: seq<Block>, b: Block, k: Bytes)
    ensures NoncesOf(blocks + [b], k)
         == NoncesOf(blocks, k) + if b.Transfer? && b.sender == k then [b.senderNonce] else []
  {
    assert (blocks + [b])[..|blocks|] == blocks;
  }

  lemma SinceAppended(from: Ledger, l: Ledger, after: Ledger, b: Block)
    requires from.blocks <= l.blocks && after.blocks == l.blocks + [b]
    ensures from.blocks <= after.blocks && Since(from, after) == Since(from, l) + [b]
  {
  }

  // ---------------------------------------------------------------- what one write does

  lemma UnwrittenKeeps(c: Crypto, l: Ledger, r: Request, time: nat)
    requires !Write(c, l, r, time).Written?
    ensures Write(c, l, r, time).ledger == l.(utxos := Write(c, l, r, time).ledger.utxos)
    ensures Write(c, l, r, time).ledger == l || (r.SpendUtxos? && r.inputs == [])
  {
  }

  /** A written request leaves one block, and the store updated by it. */
  lemma WriteShape(c: Crypto, l: Ledger, r: Request, time: nat) returns (b: Block)
    requires Write(c, l, r, time).Written?
    ensures Write(c, l, r, time).ledger.blocks == l.blocks + [b]
    ensures Write(c, l, r, time).ledger.store
         == match b
            case NewAccount(address, balance, _, _) =>
              if r.CreateAccount? && r.keyHash.Some?
              then Insert(l.store, Account(address, r.keyHash.value, 0, 0)) else l.store
            case Faucet(address, balance, _, _) => ChangeBalance(l.store, address, balance)
            case Transfer(s, sb, t, tb, _, _, _, _) => Transferred(l.store, s, sb, t, tb)
            case _ => l.store
    ensures match r
            case CreateAccount(key, keyHash) =>
              keyHash.Some? && b.NewAccount? && b.address == key && b.accountBalance == 0
            case UseFaucet(key) =>
              && b.Faucet? && b.address == key && key in l.store.balances
              && b.accountBalance == l.store.balances[key] + FAUCET_AMOUNT
            case SendTokens(sender, recipient, _, amount, _) =>
              && TransferFits(l.store, b) && CanTransfer(l.store, r)
              && b.sender == sender && b.recipient == recipient && b.amount == amount
            case SpendUtxos(_, _, _) => b.Spend?
  {
    b := Write(c, l, r, time).ledger.blocks[|l.blocks|];
  }

  /** A transfer block moves `amount` between two accounts of the store. */
  predicate TransferFits(s: Store, b: Block) {
    && b.Transfer? && b.sender in s.balances && b.recipient in s.balances
    && b.senderBalance + b.amount == s.balances[b.sender]
    && b.recipientBalance == s.balances[b.recipient] + b.amount
    && GetNonce(s, b.sender) == Some(b.senderNonce)
  }

  /** A property of ledgers that only looks at store and blocks survives a request not written. */
  lemma HandledCases(c: Crypto, l: Ledger, e: Event) returns (marked: Ledger, written: bool)
    ensures marked == l.(used := Verified(c, l, e.request).0.used)
    ensures written ==> Write(c, marked, e.request, e.time).Written? && e.verdict
                        && Handled(c, l, e) == Write(c, marked, e.request, e.time).ledger
    ensures !written ==> Handled(c, l, e).store == l.store && Handled(c, l, e).blocks == l.blocks
    ensures e.request.CreateAccount? ==> (written <==> e.verdict && e.request.keyHash.Some?)
  {
    VerifiedMarksOnly(c, l, e.request);
    marked := Verified(c, l, e.request).0;
    var carried := Asks(e.request, Verified(c, l, e.request).1) && e.verdict;
    written := carried && Write(c, marked, e.request, e.time).Written?;
    if carried && !written {
      UnwrittenKeeps(c, marked, e.request, e.time);
    }
  }

  // ---------------------------------------------------------------- balances replay, tokens are accounted for

  /** The chain since `from` explains every balance and every token. */
  ghost predicate AccountsReplay(from: Ledger, l: Ledger) {
    && from.blocks <= l.blocks
    && ReplayBalances(from.store.balances, Since(from, l)) == l.store.balances
    && TokensHeld(l.store) + Wiped(from.store.balances, Since(from, l))
       == TokensHeld(from.store) + 100 * Faucets(Since(from, l)) + SelfSent(Since(from, l))
  }

  /** Paying `amount` from one balance to another moves the sum only when both are the same account. */
  lemma TransferSum(m: map<Bytes, U64>, a: Bytes, b: Bytes, left: U64, received: U64, amount: nat)
    requires a in m && b in m && left + amount == m[a] && received == m[b] + amount
    ensures SumOf(m[a := left][b := received]) == SumOf(m) + if a == b then amount else 0
  {
    SumUpdate(m, Balance, a, left);
    SumUpdate(m[a := left], Balance, b, received);
  }

  /** One block's effect on the balances and on their sum. */
  ghost predicate BlockExplains(m: map<Bytes, U64>, b: Block, n: map<Bytes, U64>) {
    && n == BalancesAfter(m, b)
    && SumOf(n) + WipedBy(m, b) == SumOf(m) + (if b.Faucet? then 100 else 0) + SelfSentBy(b)
  }

  lemma WriteExplained(c: Crypto, l: Ledger, r: Request, time: nat) returns (b: Block)
    requires Write(c, l, r, time).Written?
    ensures Write(c, l, r, time).ledger.blocks == l.blocks + [b]
    ensures BlockExplains(l.store.balances, b, Write(c, l, r, time).ledger.store.balances)
  {
    b := WriteShape(c, l, r, time);
    match r
    case CreateAccount(key, _) => SumUpdate(l.store.balances, Balance, key, 0);
    case UseFaucet(key) => SumUpdate(l.store.balances, Balance, key, b.accountBalance);
    case SendTokens(_, _, _, _, _) =>
      TransferredBalances(l.store, b.sender, b.senderBalance, b.recipient, b.recipientBalance);
      TransferSum(l.store.balances, b.sender, b.recipient, b.senderBalance, b.recipientBalance, b.amount);
    case SpendUtxos(_, _, _) =>
  }

  lemma BlockKeepsReplay(from: Ledger, l: Ledger, after: Ledger, b: Block)
    requires AccountsReplay(from, l) && after.blocks == l.blocks + [b]
    requires BlockExplains(l.store.balances, b, after.store.balances)
    ensures AccountsReplay(from, after)
  {
    SinceAppended(from, l, after, b);
    Appended(from.store.balances, Since(from, l), b);
  }

  /** One handled request keeps the chain's account of balances and tokens, even where the node was outvoted. */
  lemma HandledAccounts(c: Crypto, from: Ledger, l: Ledger, e: Event)
    requires AccountsReplay(from, l)
    ensures AccountsReplay(from, Handled(c, l, e))
  {
    var marked, written := HandledCases(c, l, e);
    if written {
      var b := WriteExplained(c, marked, e.request, e.time);
      BlockKeepsReplay(from, marked, Handled(c, l, e), b);
    }
  }

  lemma {:induction false} RunAccounts(c: Crypto, start: Ledger, events: seq<Event>)
    ensures AccountsReplay(start, Run(c, start, events))
    decreases |events|
  {
    if events != [] {
      RunAccounts(c, start, events[..|events| - 1]);
      HandledAccounts(c, start, Run(c, start, events[..|events| - 1]), events[|events| - 1]);
    }
  }

  /** Folding the post-balances recorded since the start onto the balances held then gives exactly `accounts_map`. */
  lemma ChainReplaysBalances(c: Crypto, start: Ledger, events: seq<Event>)
    ensures var l := Run(c, start, events);
            start.blocks <= l.blocks && ReplayBalances(start.store.balances, Since(start, l)) == l.store.balances
  {
    RunAccounts(c, start, events);
  }

  /** Read off the chain: tokens come from faucet blocks and transfers to oneself, and go by repeated creations. */
  lemma TokensAccounted(c: Crypto, start: Ledger, events: seq<Event>)
    ensures var l := Run(c, start, events);
            var since, m := Since(start, l), start.store.balances;
            && TokensHeld(l.store) + Wiped(m, since)
               == TokensHeld(start.store) + 100 * Faucets(since) + SelfSent(since)
            && (TokensHeld(l.store) == TokensHeld(start.store) + 100 * Faucets(since)
                <==> SelfSent(since) == Wiped(m, since))
  {
    RunAccounts(c, start, events);
  }

  // ---------------------------------------------------------------- the two copies of the store

  /** The vote has an account created that already exists. */
  predicate Recreates(l: Ledger, e: Event) {
    e.request.CreateAccount? && e.request.keyHash.Some? && e.verdict && e.request.key in l.store.balances
  }

  lemma FaucetSameKeys(s: Store, key: Bytes, balance: U64)
    ensures SameKeys(s, ChangeBalance(s, key, balance))
  {
  }

  /** A write keeps the keys matching, and keeps them distinct unless it creates an account that exists. */
  lemma WriteKeys(c: Crypto, l: Ledger, r: Request, time: nat)
    requires KeysMatch(l.store)
    ensures var after := Write(c, l, r, time).ledger;
            && KeysMatch(after.store)
            && (DistinctKeys(after.store.vec)
                <==> DistinctKeys(l.store.vec) && !(r.CreateAccount? && r.keyHash.Some? && r.key in l.store.balances))
  {
    var s, t := l.store, Write(c, l, r, time).ledger.store;
    if Write(c, l, r, time).Written? {
      var b := WriteShape(c, l, r, time);
      match r
      case CreateAccount(key, keyHash) => InsertKeys(s, Account(key, keyHash.value, 0, 0));
      case UseFaucet(key) =>
        FaucetSameKeys(s, key, b.accountBalance);
        SameKeysMatch(s, t);
      case SendTokens(_, _, _, _, _) =>
        TransferredSameKeys(s, b.sender, b.senderBalance, b.recipient, b.recipientBalance);
        SameKeysMatch(s, t);
      case SpendUtxos(_, _, _) =>
    } else {
      UnwrittenKeeps(c, l, r, time);
    }
  }

  lemma HandledKeys(c: Crypto, l: Ledger, e: Event)
    requires KeysMatch(l.store)
    ensures KeysMatch(Handled(c, l, e).store)
    ensures DistinctKeys(Handled(c, l, e).store.vec) <==> DistinctKeys(l.store.vec) && !Recreates(l, e)
  {
    var marked, written := HandledCases(c, l, e);
    if written {
      WriteKeys(c, marked, e.request, e.time);
    }
  }

  lemma HandledAgrees(c: Crypto, l: Ledger, e: Event)
    requires Agreed(l.store) && !Recreates(l, e)
    ensures Agreed(Handled(c, l, e).store)
  {
    var marked, written := HandledCases(c, l, e);
    if written {
      var b := WriteShape(c, marked, e.request, e.time);
      match e.request
      case CreateAccount(key, keyHash) => InsertKeepsAgreement(l.store, Account(key, keyHash.value, 0, 0));
      case UseFaucet(key) => ChangeBalanceKeepsAgreement(l.store, key, b.accountBalance);
      case SendTokens(_, _, _, _, _) =>
        TransferredKeepsAgreement(l.store, b.sender, b.senderBalance, b.recipient, b.recipientBalance);
      case SpendUtxos(_, _, _) =>
    }
  }

  /** No event of the run creates an account that exists when it is written. */
  predicate NeverRecreates(c: Crypto, start: Ledger, events: seq<Event>) {
    events == []
    || (&& NeverRecreates(c, start, events[..|events| - 1])
        && !Recreates(Run(c, start, events[..|events| - 1]), events[|events| - 1]))
  }

  lemma {:induction false} RunKeys(c: Crypto, start: Ledger, events: seq<Event>)
    requires KeysMatch(start.store)
    ensures KeysMatch(Run(c, start, events).store)
    decreases |events|
  {
    if events != [] {
      RunKeys(c, start, events[..|events| - 1]);
      HandledKeys(c, Run(c, start, events[..|events| - 1]), events[|events| - 1]);
    }
  }

  /**
   * `accounts_vec` and `accounts_map` hold the same keys, once each, with the same balances, for as long as
   * no account is created that already exists, and never again after.
   */
  lemma {:induction false} DualStoreAgrees(c: Crypto, start: Ledger, events: seq<Event>)
    requires Agreed(start.store)
    ensures Agreed(Run(c, start, events).store) <==> NeverRecreates(c, start, events)
    ensures Agreed(Run(c, start, events).store) <==> DistinctKeys(Run(c, start, events).store.vec)
    decreases |events|
  {
    if events != [] {
      var last := |events| - 1;
      var before := Run(c, start, events[..last]);
      DualStoreAgrees(c, start, events[..last]);
      AgreedKeysMatch(start.store);
      RunKeys(c, start, events[..last]);
      HandledKeys(c, before, events[last]);
      if Agreed(before.store) && !Recreates(before, events[last]) {
        HandledAgrees(c, before, events[last]);
      }
    }
  }

  // ---------------------------------------------------------------- when tokens are conserved

  /** A transfer of something to oneself that the vote carries and the balance covers. */
  predicate PaysItself(l: Ledger, e: Event) {
    && e.request.SendTokens? && e.verdict
    && e.request.sender == e.request.recipient && e.request.amount > 0 && CanTransfer(l.store, e.request)
  }

  predicate WipesTokens(l: Ledger, e: Event) {
    Recreates(l, e) && l.store.balances[e.request.key] > 0
  }

  lemma WriteConserves(c: Crypto, l: Ledger, r: Request, time: nat)
    requires Write(c, l, r, time).Written?
    ensures var after := Write(c, l, r, time).ledger;
            TokensHeld(after.store) - TokensHeld(l.store) == 100 * (Faucets(after.blocks) - Faucets(l.blocks))
            <==> && !(r.SendTokens? && r.sender == r.recipient && r.amount > 0)
                 && !(r.CreateAccount? && r.key in l.store.balances && l.store.balances[r.key] > 0)
  {
    var b := WriteExplained(c, l, r, time);
    var shape := WriteShape(c, l, r, time);
    assert (l.blocks + [b])[|l.blocks|] == (l.blocks + [shape])[|l.blocks|];
    Appended(map[], l.blocks, b);
  }

  /**
   * One handled request changes the tokens held by 100 for each faucet block it adds, if and only if it is no
   * carried transfer of something to oneself and no carried creation of an account that holds tokens: the
   * first reads both balances before it writes either, the second resets one.
   */
  lemma HandledConserves(c: Crypto, l: Ledger, e: Event)
    ensures var after := Handled(c, l, e);
            TokensHeld(after.store) - TokensHeld(l.store) == 100 * (Faucets(after.blocks) - Faucets(l.blocks))
            <==> !PaysItself(l, e) && !WipesTokens(l, e)
  {
    var marked, written := HandledCases(c, l, e);
    if written {
      WriteConserves(c, marked, e.request, e.time);
      if e.request.SendTokens? {
        var b := WriteShape(c, marked, e.request, e.time);
      }
    }
  }

  /** No event of the run adds or removes tokens but by the faucet. */
  predicate NeverLeaks(c: Crypto, start: Ledger, events: seq<Event>) {
    events == []
    || (&& NeverLeaks(c, start, events[..|events| - 1])
        && !PaysItself(Run(c, start, events[..|events| - 1]), events[|events| - 1])
        && !WipesTokens(Run(c, start, events[..|events| - 1]), events[|events| - 1]))
  }

  ghost predicate Conserved(from: Ledger, l: Ledger) {
    TokensHeld(l.store) == TokensHeld(from.store) + 100 * Faucets(Since(from, l))
  }

  /** Tokens are conserved at every point of the run. */
  ghost predicate ConservedThroughout(c: Crypto, start: Ledger, events: seq<Event>) {
    && (events != [] ==> ConservedThroughout(c, start, events[..|events| - 1]))
    && Conserved(start, Run(c, start, events))
  }

  lemma {:induction false} FaucetsConcat(front: seq<Block>, back: seq<Block>)
    ensures Faucets(front + back) == Faucets(front) + Faucets(back)
    decreases |back|
  {
    if back == [] {
      assert front + back == front;
    } else {
      var last := |back| - 1;
      FaucetsConcat(front, back[..last]);
      assert (front + back)[..|front + back| - 1] == front + back[..last];
    }
  }

  lemma FaucetsSince(from: Ledger, l: Ledger)
    requires from.blocks <= l.blocks
    ensures Faucets(l.blocks) == Faucets(from.blocks) + Faucets(Since(from, l))
  {
    FaucetsConcat(from.blocks, Since(from, l));
    assert from.blocks + Since(from, l) == l.blocks;
  }

  lemma ConservedStep(c: Crypto, from: Ledger, l: Ledger, e: Event)
    requires from.blocks <= l.blocks && from.blocks <= Handled(c, l, e).blocks && Conserved(from, l)
    ensures Conserved(from, Handled(c, l, e)) <==> !PaysItself(l, e) && !WipesTokens(l, e)
  {
    HandledConserves(c, l, e);
    FaucetsSince(from, l);
    FaucetsSince(from, Handled(c, l, e));
  }

  /**
   * Throughout a run the balances sum to their start plus 100 for every faucet block, whatever the votes, if
   * and only if no event is a carried transfer to oneself or a carried creation of an account with tokens.
   */
  lemma {:induction false} TokensConserved(c: Crypto, start: Ledger, events: seq<Event>)
    ensures ConservedThroughout(c, start, events) <==> NeverLeaks(c, start, events)
    decreases |events|
  {
    if events == [] {
      assert Since(start, start) == [];
    } else {
      var front, last := events[..|events| - 1], events[|events| - 1];
      TokensConserved(c, start, front);
      RunAccounts(c, start, front);
      RunAccounts(c, start, events);
      if ConservedThroughout(c, start, front) {
        ConservedStep(c, start, Run(c, start, front), last);
      }
    }
  }

  /** So it is in every run whose transfers are between distinct accounts and that creates no account again. */
  lemma DistinctTransfersConserve(c: Crypto, start: Ledger, events: seq<Event>)
    requires NeverRecreates(c, start, events)
    requires forall i :: 0 <= i < |events| && events[i].request.SendTokens? ==>
               events[i].request.sender != events[i].request.recipient
    ensures Conserved(start, Run(c, start, events))
  {
    DistinctTransfersNeverLeak(c, start, events);
    TokensConserved(c, start, events);
  }

  lemma {:induction false} DistinctTransfersNeverLeak(c: Crypto, start: Ledger, events: seq<Event>)
    requires NeverRecreates(c, start, events)
    requires forall i :: 0 <= i < |events| && events[i].request.SendTokens? ==>
               events[i].request.sender != events[i].request.recipient
    ensures NeverLeaks(c, start, events)
    decreases |events|
  {
    if events != [] {
      DistinctTransfersNeverLeak(c, start, events[..|events| - 1]);
    }
  }

  // ---------------------------------------------------------------- creating an account again

  /**
   * Writing an account creation keeps the two copies of the store in agreement exactly when the key is new.
   * A repeated request that outvotes the rejection resets the balance and leaves two records.
   */
  lemma CreationNeedsNewKey(c: Crypto, l: Ledger, key: Bytes, keyHash: Bytes, time: nat)
    requires KeysMatch(l.store) && DistinctKeys(l.store.vec)
    ensures var after := Write(c, l, CreateAccount(key, Some(keyHash)), time).ledger;
            && (DistinctKeys(after.store.vec) <==> key !in l.store.balances)
            && GetBalance(after.store, key) == Some(0)
            && TokensHeld(after.store)
               == TokensHeld(l.store) - if key in l.store.balances then l.store.balances[key] else 0
  {
    InsertKeys(l.store, Account(key, keyHash, 0, 0));
    SumUpdate(l.store.balances, Balance, key, 0);
  }

  // ---------------------------------------------------------------- nonces

  function FirstNonce(from: Ledger, k: Bytes): nat {
    match GetNonce(from.store, k) case Some(n) => n case None => 0
  }

  /** The transfers of `k` since `from` carried its nonces one after the other, up to the current one. */
  ghost predicate NonceCounts(from: Ledger, l: Ledger, k: Bytes) {
    && from.blocks <= l.blocks
    && match GetNonce(l.store, k)
       case Some(n) => FirstNonce(from, k) <= n && NoncesOf(Since(from, l), k) == Range(FirstNonce(from, k), n)
       case None => FirstNonce(from, k) == 0 && NoncesOf(Since(from, l), k) == []
  }

  /** A block goes with `k`'s nonce: up by one for a transfer of `k`, else unmoved or just begun. */
  ghost predicate NonceMoves(s: Store, b: Block, t: Store, k: Bytes) {
    if b.Transfer? && b.sender == k
    then GetNonce(s, k) == Some(b.senderNonce) && GetNonce(t, k) == Some(b.senderNonce + 1)
    else GetNonce(t, k) == GetNonce(s, k) || (GetNonce(s, k) == None && GetNonce(t, k) == Some(0))
  }

  lemma NonceStep(from: Ledger, l: Ledger, after: Ledger, b: Block, k: Bytes)
    requires NonceCounts(from, l, k) && after.blocks == l.blocks + [b]
    requires NonceMoves(l.store, b, after.store, k)
    ensures NonceCounts(from, after, k)
  {
    SinceAppended(from, l, after, b);
    AppendedNonces(Since(from, l), b, k);
    var first, nonces := FirstNonce(from, k), NoncesOf(Since(from, l), k);
    if b.Transfer? && b.sender == k {
      RangeNext(first, b.senderNonce);
      assert NoncesOf(Since(from, after), k) == nonces + [b.senderNonce];
    } else {
      assert nonces + [] == nonces;
      assert NoncesOf(Since(from, after), k) == nonces;
      if GetNonce(l.store, k).None? {
        assert Range(0, 0) == [];
      }
    }
  }

  lemma RangeNext(first: nat, n: nat)
    requires first <= n
    ensures Range(first, n + 1) == Range(first, n) + [n]
  {
  }

  lemma WriteMovesNonce(c: Crypto, l: Ledger, r: Request, time: nat, k: Bytes) returns (b: Block)
    requires Write(c, l, r, time).Written?
    ensures Write(c, l, r, time).ledger.blocks == l.blocks + [b]
    ensures NonceMoves(l.store, b, Write(c, l, r, time).ledger.store, k)
  {
    b := WriteShape(c, l, r, time);
    match r
    case CreateAccount(key, keyHash) => InsertReads(l.store, Account(key, keyHash.value, 0, 0), k);
    case UseFaucet(key) => ChangeBalanceReads(l.store, key, b.accountBalance, k);
    case SendTokens(_, _, _, _, _) =>
      TransferredNonce(l.store, b.sender, b.senderBalance, b.recipient, b.recipientBalance, k);
    case SpendUtxos(_, _, _) =>
  }

  lemma WrittenNonces(c: Crypto, from: Ledger, l: Ledger, r: Request, time: nat, k: Bytes)
    requires NonceCounts(from, l, k) && Write(c, l, r, time).Written?
    ensures NonceCounts(from, Write(c, l, r, time).ledger, k)
  {
    var b := WriteMovesNonce(c, l, r, time, k);
    NonceStep(from, l, Write(c, l, r, time).ledger, b, k);
  }

  /** One handled request keeps that, even where the node was outvoted or an account is created again. */
  lemma HandledNonces(c: Crypto, from: Ledger, l: Ledger, e: Event, k: Bytes)
    requires NonceCounts(from, l, k)
    ensures NonceCounts(from, Handled(c, l, e), k)
  {
    var marked, written := HandledCases(c, l, e);
    if written {
      WrittenNonces(c, from, marked, e.request, e.time, k);
    }
  }

  lemma {:induction false} RunNonces(c: Crypto, start: Ledger, events: seq<Event>, k: Bytes)
    ensures NonceCounts(start, Run(c, start, events), k)
    decreases |events|
  {
    if events != [] {
      RunNonces(c, start, events[..|events| - 1], k);
      HandledNonces(c, start, Run(c, start, events[..|events| - 1]), events[|events| - 1], k);
    }
  }

  lemma {:induction false} FewerNoncesThanBlocks(blocks: seq<Block>, sender: Bytes)
    ensures |NoncesOf(blocks, sender)| <= |blocks|
    decreases |blocks|
  {
    if blocks != [] {
      FewerNoncesThanBlocks(blocks[..|blocks| - 1], sender);
    }
  }

  /**
   * A sender's transfers carry successive nonces in chain order, from its nonce at the start (0, 1, 2, ... for
   * an account created in the run), and its current nonce comes next; so the nonce grows no faster than the chain.
   */
  lemma NonceSequence(c: Crypto, start: Ledger, events: seq<Event>, sender: Bytes)
    ensures var l := Run(c, start, events);
            var nonces, first := NoncesOf(Since(start, l), sender), FirstNonce(start, sender);
            && start.blocks <= l.blocks
            && (GetNonce(l.store, sender).Some? ==> GetNonce(l.store, sender).value == first + |nonces|)
            && (GetNonce(l.store, sender).None? ==> nonces == [])
            && (forall i :: 0 <= i < |nonces| ==> nonces[i] == first + i)
            && |nonces| <= |l.blocks| - |start.blocks|
  {
    RunNonces(c, start, events, sender);
    FewerNoncesThanBlocks(Since(start, Run(c, start, events)), sender);
  }

  // ---------------------------------------------------------------- UTXO replay

  /** The UTXO blocks since `from` replay to the UTXO set, and each records its own position. */
  ghost predicate UtxosReplay(from: Ledger, l: Ledger) {
    && from.blocks <= l.blocks
    && ReplayUtxos(from.utxos, Since(from, l)) == Some(l.utxos)
    && HeightsArePositions(l.blocks, |from.blocks|)
  }

  /** Every entry was recorded at a height the chain has passed. */
  ghost predicate HeightsBelow(m: UtxoMap, height: nat) {
    forall op :: op in m ==> m[op].blockHeight < height
  }

  lemma AppendedUtxos(m: UtxoMap, blocks: seq<Block>, b: Block)
    requires ReplayUtxos(m, blocks).Some?
    ensures ReplayUtxos(m, blocks + [b])
         == if b.Spend? then Applied(ReplayUtxos(m, blocks).value, b.transaction, b.blockHeight)
            else ReplayUtxos(m, blocks)
  {
    assert (blocks + [b])[..|blocks|] == blocks;
  }

  /** One block's effect on the UTXO set. */
  ghost predicate BlockMoves(m: UtxoMap, height: nat, b: Block, n: UtxoMap) {
    if b.Spend? then b.blockHeight == height && Applied(m, b.transaction, height) == Some(n) else n == m
  }

  lemma WrittenSpendMoves(c: Crypto, l: Ledger, r: Request) returns (b: Block)
    requires r.SpendUtxos? && WrittenSpend(c, l, r).Written?
    ensures b.Spend? && WrittenSpend(c, l, r).ledger.blocks == l.blocks + [b]
    ensures BlockMoves(l.utxos, |l.blocks|, b, WrittenSpend(c, l, r).ledger.utxos)
  {
    b := Hashed(c.sha, Spend(NewTransaction(c.sha, r.inputs, r.outputs, r.timestamp), |l.blocks|, []));
  }

  lemma WriteMoves(c: Crypto, l: Ledger, r: Request, time: nat) returns (b: Block)
    requires Write(c, l, r, time).Written?
    ensures Write(c, l, r, time).ledger.blocks == l.blocks + [b]
    ensures BlockMoves(l.utxos, |l.blocks|, b, Write(c, l, r, time).ledger.utxos)
    ensures b.Spend? <==> r.SpendUtxos?
  {
    if r.SpendUtxos? {
      b := WrittenSpendMoves(c, l, r);
    } else {
      b := WriteShape(c, l, r, time);
    }
  }

  lemma BlockKeepsUtxoReplay(from: Ledger, l: Ledger, after: Ledger, b: Block)
    requires UtxosReplay(from, l) && after.blocks == l.blocks + [b]
    requires BlockMoves(l.utxos, |l.blocks|, b, after.utxos)
    ensures UtxosReplay(from, after)
  {
    SinceAppended(from, l, after, b);
    AppendedUtxos(from.utxos, Since(from, l), b);
  }

  lemma WrittenUtxoReplay(c: Crypto, from: Ledger, l: Ledger, r: Request, time: nat)
    requires UtxosReplay(from, l) && Write(c, l, r, time).Written?
    ensures UtxosReplay(from, Write(c, l, r, time).ledger)
  {
    var b := WriteMoves(c, l, r, time);
    BlockKeepsUtxoReplay(from, l, Write(c, l, r, time).ledger, b);
  }

  lemma {:induction false} OutputsBelow(m: UtxoMap, tx: Transaction, height: nat, n: nat)
    requires n <= |tx.outputs| && HeightsBelow(m, height + 1)
    ensures HeightsBelow(WithOutputs(m, tx.hash, tx.outputs, height, tx.timestamp, n), height + 1)
    ensures n > 0 ==> var op := OutputName(tx.hash, n - 1);
                      var after := WithOutputs(m, tx.hash, tx.outputs, height, tx.timestamp, n);
                      op in after && after[op].blockHeight == height
  {
    if n > 0 {
      OutputsBelow(m, tx, height, n - 1);
    }
  }

  lemma {:induction false} ReplayedBelow(m: UtxoMap, blocks: seq<Block>, start: nat)
    requires HeightsBelow(m, start) && ReplayUtxos(m, blocks).Some?
    requires forall i :: 0 <= i < |blocks| && blocks[i].Spend? ==> blocks[i].blockHeight == start + i
    ensures HeightsBelow(ReplayUtxos(m, blocks).value, start + |blocks|)
    decreases |blocks|
  {
    if blocks != [] {
      var last := |blocks| - 1;
      ReplayedBelow(m, blocks[..last], start);
      if blocks[last].Spend? {
        var tx := blocks[last].transaction;
        OutputsBelow(ReplayUtxos(m, blocks[..last]).value - Outpoints(tx.inputs), tx, start + last, |tx.outputs|);
      }
    }
  }

  /** The chain refuses a spend without inputs, but only after the set was changed by its outputs. */
  predicate SkipsTheChain(e: Event) {
    && e.request.SpendUtxos? && e.verdict
    && e.request.inputs == [] && e.request.outputs != [] && OutputValue(e.request.outputs, None) == 0
  }

  /** A spend without inputs is approved exactly when its outputs are worth nothing. */
  lemma InputlessApprovedIff(c: Crypto, l: Ledger, r: Request)
    requires r.SpendUtxos? && r.inputs == []
    ensures Verified(c, l, r).1 == Some(true) <==> OutputValue(r.outputs, None) == 0
  {
  }

  /** Its outputs carry a height no entry of a replayed set has yet. */
  lemma InputlessChangesSet(c: Crypto, from: Ledger, l: Ledger, r: Request)
    requires UtxosReplay(from, l) && HeightsBelow(from.utxos, |from.blocks|)
    requires r.SpendUtxos? && r.inputs == []
    ensures WrittenSpend(c, l, r).ledger.blocks == l.blocks
    ensures WrittenSpend(c, l, r).ledger.utxos == l.utxos <==> r.outputs == []
  {
    var tx := NewTransaction(c.sha, r.inputs, r.outputs, r.timestamp);
    assert l.utxos - Outpoints(tx.inputs) == l.utxos;
    ReplayedBelow(from.utxos, Since(from, l), |from.blocks|);
    OutputsBelow(l.utxos, tx, |l.blocks|, |tx.outputs|);
  }

  /**
   * One handled request keeps the chain replayable to the UTXO set except in one case, and exactly then:
   * an approved spend without inputs but with outputs, necessarily worth nothing.
   */
  lemma HandledUtxoReplay(c: Crypto, from: Ledger, l: Ledger, e: Event)
    requires UtxosReplay(from, l) && HeightsBelow(from.utxos, |from.blocks|)
    ensures UtxosReplay(from, Handled(c, l, e)) <==> !SkipsTheChain(e)
  {
    VerifiedMarksOnly(c, l, e.request);
    var marked, vote := Verified(c, l, e.request).0, Verified(c, l, e.request).1;
    if Asks(e.request, vote) && e.verdict {
      if Write(c, marked, e.request, e.time).Written? {
        WrittenUtxoReplay(c, from, marked, e.request, e.time);
        assert !SkipsTheChain(e);
      } else {
        UnwrittenKeeps(c, marked, e.request, e.time);
        if e.request.SpendUtxos? && e.request.inputs == [] {
          InputlessChangesSet(c, from, marked, e.request);
          InputlessApprovedIff(c, l, e.request);
        }
      }
    } else if e.request.SpendUtxos? && e.request.inputs == [] {
      InputlessApprovedIff(c, l, e.request);
    }
  }

  /** The chain replays to the UTXO set at every point of the run. */
  ghost predicate ReplaysThroughout(c: Crypto, start: Ledger, events: seq<Event>) {
    forall n {:trigger events[..n]} :: 0 <= n <= |events| ==> UtxosReplay(start, Run(c, start, events[..n]))
  }

  lemma ReplaysThroughoutSnoc(c: Crypto, start: Ledger, events: seq<Event>)
    requires events != []
    ensures ReplaysThroughout(c, start, events)
       <==> && ReplaysThroughout(c, start, events[..|events| - 1])
            && UtxosReplay(start, Run(c, start, events))
  {
    var front := events[..|events| - 1];
    assert events[..|events|] == events;
    assert forall n :: 0 <= n < |events| ==> front[..n] == events[..n];
  }

  /**
   * Throughout a run the recorded transactions replay to exactly the UTXO set, each at its own position, if
   * and only if no event is an approved spend without inputs but with outputs.
   */
  lemma {:induction false} ChainReplaysUtxos(c: Crypto, start: Ledger, events: seq<Event>)
    requires HeightsBelow(start.utxos, |start.blocks|)
    ensures ReplaysThroughout(c, start, events) <==> forall e :: e in events ==> !SkipsTheChain(e)
    decreases |events|
  {
    if events == [] {
      assert Since(start, start) == [];
    } else {
      var front, last := events[..|events| - 1], events[|events| - 1];
      var before := Run(c, start, front);
      assert events == front + [last];
      ChainReplaysUtxos(c, start, front);
      ReplaysThroughoutSnoc(c, start, events);
      if ReplaysThroughout(c, start, front) {
        assert UtxosReplay(start, before) by {
          assert front[..|front|] == front;
        }
        HandledUtxoReplay(c, start, before, last);
      }
    }
  }

  /** An approved spend with inputs is always recorded, at its own position, with what it does to the set. */
  lemma ApprovedSpendRecorded(c: Crypto, l: Ledger, e: Event)
    requires e.request.SpendUtxos? && e.request.inputs != [] && e.verdict && Verified(c, l, e.request).1 == Some(true)
    ensures var after := Handled(c, l, e);
            && |after.blocks| == |l.blocks| + 1 && after.blocks[|l.blocks|].Spend?
            && UtxosReplay(l, after)
  {
    var marked := Verified(c, l, e.request).0;
    VerifiedMarksOnly(c, l, e.request);
    assert WrittenSpend(c, marked, e.request).Written?;
    var b := WrittenSpendMoves(c, marked, e.request);
    BlockKeepsUtxoReplay(l, l, Handled(c, l, e), b);
  }

  // ---------------------------------------------------------------- approved writes do not fail

  /** What a request would add to the tokens in circulation. */
  function Adds(r: Request): nat {
    match r
    case UseFaucet(_) => 100
    case SendTokens(s, t, _, amount, _) => if s == t then amount else 0
    case _ => 0
  }

  /** All tokens there ever were, and those `r` would add, fit in 64 bits. */
  ghost predicate TokensFit(start: Ledger, l: Ledger, r: Request) {
    TokensHeld(start.store) + 100 * Faucets(Since(start, l)) + SelfSent(Since(start, l)) + Adds(r) < U64_LIMIT
  }

  /** Where the source fails a write the node approved: a key hash that is not hexadecimal, a spend without inputs. */
  predicate Malformed(r: Request) {
    (r.CreateAccount? && r.keyHash.None?) || (r.SpendUtxos? && r.inputs == [])
  }

  lemma ApprovedWriteFits(c: Crypto, l: Ledger, r: Request, now: nat)
    requires KeysMatch(l.store) && Verified(c, l, r).1 == Some(true) && TokensHeld(l.store) + Adds(r) < U64_LIMIT
    ensures Write(c, Verified(c, l, r).0, r, now).Written? <==> !Malformed(r)
  {
    VerifiedMarksOnly(c, l, r);
    match r
    case CreateAccount(_, _) =>
    case UseFaucet(key) => SumPick(l.store.balances, Balance, key);
    case SendTokens(s, t, _, _, _) =>
      assert s in l.store.balances <==> FindFirst(l.store.vec, s).Some?;
      SumPick(l.store.balances, Balance, s);
      if s != t {
        SumOfTwo(l.store.balances, Balance, s, t);
      }
    case SpendUtxos(_, _, _) =>
  }

  /**
   * As long as the tokens there ever were, and those this request would add, fit in 64 bits, writing what
   * the node itself approved fails only for a key hash that is not hexadecimal or a spend without inputs:
   * no lookup comes back empty, no balance underflows or overflows.
   */
  lemma ApprovedWriteSucceeds(c: Crypto, start: Ledger, events: seq<Event>, r: Request, now: nat)
    requires KeysMatch(start.store)
    requires TokensFit(start, Run(c, start, events), r)
    requires Verified(c, Run(c, start, events), r).1 == Some(true)
    ensures Write(c, Verified(c, Run(c, start, events), r).0, r, now).Written? <==> !Malformed(r)
  {
    RunAccounts(c, start, events);
    RunKeys(c, start, events);
    ApprovedWriteFits(c, Run(c, start, events), r, now);
  }

  /**
   * In any serial run a transfer is approved exactly when its signature is valid for sender, recipient, the
   * amount as written and the sender's current nonce, was not used before by the sender, and the transfer can
   * be written, as long as the tokens handed out fit in 64 bits.
   */
  lemma TransferApprovedIffWritable(c: Crypto, start: Ledger, events: seq<Event>, r: Request)
    requires KeysMatch(start.store) && r.SendTokens?
    requires TokensFit(start, Run(c, start, events), r)
    ensures var l := Run(c, start, events);
            Verified(c, l, r).1 == Some(true)
            <==> && CanTransfer(l.store, r)
                 && c.ecdsa(r.signature, r.sender, r.recipient, r.amountText, GetNonce(l.store, r.sender).value)
                 && r.signature !in UsedBy(l.used, r.sender)
  {
    if Verified(c, Run(c, start, events), r).1 == Some(true) {
      ApprovedWriteSucceeds(c, start, events, r, 0);
    }
  }
}
