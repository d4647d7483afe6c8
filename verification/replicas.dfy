/**
 * The replicated ledger: every node runs the voting round of `Consensus` over the handlers of `Ledgers`,
 * one client request at a time but with all message steps of a round in any order. All replicas stay
 * equal to the ledger a single node would have built alone, up to the clock readings in their blocks.
 */
module Replicas {
  import opened Base
  import opened MerkleRoot
  import opened AccountStore
  import opened UtxoSets
  import opened Blockchains
  import opened Signatures
  import opened Ledgers
  import opened LedgerRuns
  import C = Consensus

  // ---------------------------------------------------------------- ledgers equal up to time and hash

  function Bare(b: Block): Block {
    match b
    case Genesis(_) => Genesis(0)
    case Transfer(s, sb, r, rb, a, _, n, _) => Transfer(s, sb, r, rb, a, 0, n, [])
    case NewAccount(address, balance, _, _) => NewAccount(address, balance, 0, [])
    case Faucet(address, balance, _, _) => Faucet(address, balance, 0, [])
    case Spend(tx, height, _) => Spend(tx, height, [])
    case Mint(tx, _) => Mint(tx, [])
  }

  function BareBlocks(blocks: seq<Block>): seq<Block> {
    seq(|blocks|, i requires 0 <= i < |blocks| => Bare(blocks[i]))
  }

  /** What replicas have in common: everything but block times and the hashes that cover them. */
  predicate Same(a: Ledger, b: Ledger) {
    a.store == b.store && a.utxos == b.utxos && a.used == b.used && BareBlocks(a.blocks) == BareBlocks(b.blocks)
  }

  /** Chains equal up to time and hash: as long, with blocks of the same kind and the same content in every place. */
  lemma SameChains(a: Ledger, b: Ledger, i: nat)
    requires Same(a, b) && i < |a.blocks|
    ensures |a.blocks| == |b.blocks|
    ensures match (a.blocks[i], b.blocks[i])
            case (Genesis(_), Genesis(_)) => true
            case (Transfer(s, sb, r, rb, x, _, n, _), Transfer(t, tb, q, qb, y, _, m, _)) =>
              s == t && sb == tb && r == q && rb == qb && x == y && n == m
            case (NewAccount(k, x, _, _), NewAccount(l, y, _, _)) => k == l && x == y
            case (Faucet(k, x, _, _), Faucet(l, y, _, _)) => k == l && x == y
            case (Spend(t, h, _), Spend(u, g, _)) => t == u && h == g
            case (Mint(t, _), Mint(u, _)) => t == u
            case _ => false
  {
    assert |BareBlocks(a.blocks)| == |BareBlocks(b.blocks)|;
    assert BareBlocks(a.blocks)[i] == BareBlocks(b.blocks)[i];
  }

  lemma BareAppend(blocks: seq<Block>, b: Block)
    ensures BareBlocks(blocks + [b]) == BareBlocks(blocks) + [Bare(b)]
  {
  }

  lemma VerifiedSame(c: Crypto, a: Ledger, b: Ledger, r: Request)
    requires Same(a, b)
    ensures Verified(c, a, r).1 == Verified(c, b, r).1
    ensures Same(Verified(c, a, r).0, Verified(c, b, r).0)
  {
    VerifiedMarksOnly(c, a, r);
    VerifiedMarksOnly(c, b, r);
  }

  lemma RecordedSame(c: Crypto, a: Ledger, b: Ledger, x: Block, y: Block)
    requires Same(a, b) && Bare(x) == Bare(y)
    ensures Same(Recorded(c, a, x), Recorded(c, b, y))
  {
    BareAppend(a.blocks, Hashed(c.sha, x));
    BareAppend(b.blocks, Hashed(c.sha, y));
  }

  /** Writing the same request to equal ledgers ends alike, whatever the two clocks say. */
  lemma WriteSame(c: Crypto, a: Ledger, b: Ledger, r: Request, s: nat, t: nat)
    requires Same(a, b)
    ensures Write(c, a, r, s).Written? <==> Write(c, b, r, t).Written?
    ensures Same(Write(c, a, r, s).ledger, Write(c, b, r, t).ledger)
  {
    match r
    case CreateAccount(key, keyHash) =>
      if keyHash.Some? {
        var store := Insert(a.store, Account(key, keyHash.value, 0, 0));
        RecordedSame(c, a.(store := store), b.(store := store), NewAccount(key, 0, s, []), NewAccount(key, 0, t, []));
      }
    case SendTokens(_, _, _, _, _) => TransferSame(c, a, b, r, s, t);
    case UseFaucet(key) => FaucetSame(c, a, b, key, s, t);
    case SpendUtxos(_, _, _) => SpendSame(c, a, b, r);
  }

  lemma TransferSame(c: Crypto, a: Ledger, b: Ledger, r: Request, s: nat, t: nat)
    requires Same(a, b) && r.SendTokens?
    ensures WrittenTransfer(c, a, r, s).Written? <==> WrittenTransfer(c, b, r, t).Written?
    ensures Same(WrittenTransfer(c, a, r, s).ledger, WrittenTransfer(c, b, r, t).ledger)
  {
    if CanTransfer(a.store, r) {
      var x, y := TransferBlock(a.store, r, s), TransferBlock(b.store, r, t);
      var store := Transferred(a.store, r.sender, x.senderBalance, r.recipient, x.recipientBalance);
      RecordedSame(c, a.(store := store), b.(store := store), x, y);
    }
  }

  lemma FaucetSame(c: Crypto, a: Ledger, b: Ledger, key: Bytes, s: nat, t: nat)
    requires Same(a, b)
    ensures WrittenFaucet(c, a, key, s).Written? <==> WrittenFaucet(c, b, key, t).Written?
    ensures Same(WrittenFaucet(c, a, key, s).ledger, WrittenFaucet(c, b, key, t).ledger)
  {
    if WrittenFaucet(c, a, key, s).Written? {
      var raised := a.store.balances[key] + FAUCET_AMOUNT;
      var store := ChangeBalance(a.store, key, raised);
      RecordedSame(c, a.(store := store), b.(store := store), Faucet(key, raised, s, []), Faucet(key, raised, t, []));
    }
  }

  lemma SpendSame(c: Crypto, a: Ledger, b: Ledger, r: Request)
    requires Same(a, b) && r.SpendUtxos?
    ensures WrittenSpend(c, a, r).Written? <==> WrittenSpend(c, b, r).Written?
    ensures Same(WrittenSpend(c, a, r).ledger, WrittenSpend(c, b, r).ledger)
  {
    assert |a.blocks| == |BareBlocks(a.blocks)| == |BareBlocks(b.blocks)| == |b.blocks|;
    if WrittenSpend(c, a, r).Written? {
      var tx := NewTransaction(c.sha, r.inputs, r.outputs, r.timestamp);
      var m := Applied(a.utxos, tx, |a.blocks|).value;
      RecordedSame(c, a.(utxos := m), b.(utxos := m), Spend(tx, |a.blocks|, []), Spend(tx, |a.blocks|, []));
    }
  }

  // ---------------------------------------------------------------- the cluster

  /** The requests clients send, in order, and the hash that names each one's round. */
  datatype Workload = Workload(crypto: Crypto, requests: seq<Request>, hashOf: Request -> Bytes) {
    function Hash(k: nat): Bytes
      requires k < |requests|
    {
      hashOf(requests[k])
    }

    function Place(n: C.NodeId, k: nat): C.Slot
      requires k < |requests|
    {
      C.Slot(n, Hash(k))
    }

    /** Each request hash is used for one round. */
    ghost predicate HashesDiffer() {
      forall j, k :: 0 <= j < k < |requests| ==> Hash(j) != Hash(k)
    }
  }

  datatype Cluster = Cluster(net: C.Net, ledgers: map<C.NodeId, Ledger>)

  datatype Act =
    | Decide(node: C.NodeId, k: nat)
    | Reply(query: C.Query)
    | Count(answer: C.Answer)
    | Pass(node: C.NodeId, k: nat, round: nat)
    | Finish(node: C.NodeId, k: nat, round: nat, time: nat)

  /** Done with the first round of a request; later rounds of it come from clients repeating it. */
  predicate Done(net: C.Net, s: C.Slot) {
    C.Begun(net, s) && !InProgress(net, s)
  }

  predicate InProgress(net: C.Net, s: C.Slot) {
    C.Waits(net, s) || C.HasPassed(net, s)
  }

  /** No request has been taken up twice by one node so far. */
  ghost predicate FirstRounds(w: Workload, net: C.Net) {
    forall k :: 0 <= k < |w.requests| ==> C.Once(net, w.Hash(k))
  }

  ghost predicate NetExact(w: Workload, net: C.Net) {
    forall k :: 0 <= k < |w.requests| ==> C.Exact(net, w.Hash(k))
  }

  /** Every node is done with the first `k` requests. */
  ghost predicate RoundsClosed(w: Workload, net: C.Net, k: nat)
    requires k <= |w.requests|
  {
    forall p, j :: p in net.nodes && 0 <= j < k ==> Done(net, w.Place(p, j))
  }

  function NetStep(w: Workload, cl: Cluster, act: Act): C.Step
    requires act.Decide? ==> act.k < |w.requests| && act.node in cl.ledgers
    requires act.Pass? || act.Finish? ==> act.k < |w.requests|
  {
    match act
    case Decide(n, k) =>
      var vote := Verified(w.crypto, cl.ledgers[n], w.requests[k]).1;
      C.Decide(n, w.Hash(k), vote, Asks(w.requests[k], vote))
    case Reply(q) => C.Reply(q)
    case Count(a) => C.Count(a)
    case Pass(n, k, i) => C.Pass(w.Place(n, k), i)
    case Finish(n, k, i, _) => C.Finish(w.Place(n, k), i)
  }

  /**
   * Steps of a round come in any order; a request is taken up when all nodes are done with those before it,
   * for the first time or again when a client repeats it.
   */
  ghost predicate Enabled(w: Workload, cl: Cluster, act: Act) {
    && (act.Decide? ==>
          && act.k < |w.requests| && act.node in cl.ledgers
          && RoundsClosed(w, cl.net, act.k))
    && (act.Pass? || act.Finish? ==> act.k < |w.requests| && act.node in cl.ledgers)
    && C.Enabled(cl.net, NetStep(w, cl, act))
  }

  /** A round closed at one node, which writes the request if it was approved. */
  function Ended(w: Workload, cl: Cluster, n: C.NodeId, k: nat, i: nat, time: nat, verdict: bool): Cluster
    requires k < |w.requests| && n in cl.ledgers && i < |C.RoundsAt(cl.net, w.Place(n, k))|
  {
    Cluster(
      C.Moved(cl.net, w.Place(n, k), i, C.Finished(verdict)),
      if verdict then cl.ledgers[n := Write(w.crypto, cl.ledgers[n], w.requests[k], time).ledger] else cl.ledgers)
  }

  ghost function Next(w: Workload, cl: Cluster, act: Act): Cluster
    requires Enabled(w, cl, act)
  {
    match act
    case Decide(n, k) =>
      Cluster(C.Next(cl.net, NetStep(w, cl, act)),
              cl.ledgers[n := Verified(w.crypto, cl.ledgers[n], w.requests[k]).0])
    case Finish(n, k, i, time) =>
      var s := w.Place(n, k);
      C.FinishEffect(cl.net, s, i);
      Ended(w, cl, n, k, i, time, C.Majority(cl.net.votes[s], C.TallyAt(cl.net, s)))
    case _ => cl.(net := C.Next(cl.net, NetStep(w, cl, act)))
  }

  ghost predicate IsRun(w: Workload, cl: Cluster, acts: seq<Act>) {
    Reached(w, cl, acts).Some?
  }

  ghost function Reached(w: Workload, cl: Cluster, acts: seq<Act>): Option<Cluster> {
    if acts == [] then Some(cl)
    else
      match Reached(w, cl, acts[..|acts| - 1])
      case None => None
      case Some(before) =>
        if Enabled(w, before, acts[|acts| - 1]) then Some(Next(w, before, acts[|acts| - 1])) else None
  }

  // ---------------------------------------------------------------- the ledger of a single node

  /** The event of request `k` handled by one node alone, its own vote deciding. */
  function SoloEvent(w: Workload, start: Ledger, k: nat): Event
    requires k < |w.requests|
    decreases k, 2
  {
    Event(w.requests[k], 0, SoloVote(w, start, k) == Some(true))
  }

  /** What one node alone would hold after the first `k` requests. */
  function Solo(w: Workload, start: Ledger, k: nat): Ledger
    requires k <= |w.requests|
    decreases k, 0
  {
    if k == 0 then start else Handled(w.crypto, Solo(w, start, k - 1), SoloEvent(w, start, k - 1))
  }

  function SoloVote(w: Workload, start: Ledger, k: nat): Option<bool>
    requires k < |w.requests|
    decreases k, 1
  {
    Verified(w.crypto, Solo(w, start, k), w.requests[k]).1
  }

  function SoloMarked(w: Workload, start: Ledger, k: nat): Ledger
    requires k < |w.requests|
  {
    Verified(w.crypto, Solo(w, start, k), w.requests[k]).0
  }

  function SoloEvents(w: Workload, start: Ledger, k: nat): seq<Event>
    requires k <= |w.requests|
  {
    if k == 0 then [] else SoloEvents(w, start, k - 1) + [SoloEvent(w, start, k - 1)]
  }

  /** The solo ledger is that of a serial run, so all results about serial runs hold of it. */
  lemma {:induction false} SoloIsRun(w: Workload, start: Ledger, k: nat)
    requires k <= |w.requests|
    ensures Solo(w, start, k) == Run(w.crypto, start, SoloEvents(w, start, k))
  {
    if k > 0 {
      SoloIsRun(w, start, k - 1);
      var events := SoloEvents(w, start, k);
      assert events[..|events| - 1] == SoloEvents(w, start, k - 1);
    }
  }

  // ---------------------------------------------------------------- the invariant

  /** A recorded vote, or the lack of one, is the solo node's; so is a verdict. */
  ghost predicate RoundOk(w: Workload, start: Ledger, net: C.Net, n: C.NodeId, k: nat)
    requires k < |w.requests|
  {
    var s := w.Place(n, k);
    C.Begun(net, s) ==>
      && (s in net.votes <==> SoloVote(w, start, k).Some?)
      && (s in net.votes ==> net.votes[s] == SoloVote(w, start, k).value)
      && (C.GaveUp(net, s) <==> !Asks(w.requests[k], SoloVote(w, start, k)))
      && (forall v :: C.Reported(net, s, v) ==> v == (SoloVote(w, start, k) == Some(true)))
      && RoundsClosed(w, net, k)
  }

  /** Node `n` is done with exactly the first `k` requests and has taken up no other. */
  ghost predicate Between(w: Workload, net: C.Net, n: C.NodeId, k: nat)
    requires k <= |w.requests|
  {
    && (forall j :: 0 <= j < k ==> Done(net, w.Place(n, j)))
    && (forall j :: k <= j < |w.requests| ==> !C.Begun(net, w.Place(n, j)))
  }

  ghost predicate LedgerOk(w: Workload, start: Ledger, cl: Cluster, n: C.NodeId) {
    && n in cl.ledgers
    && (forall k {:trigger Between(w, cl.net, n, k)} :: 0 <= k <= |w.requests| && Between(w, cl.net, n, k) ==>
          Same(cl.ledgers[n], Solo(w, start, k)))
    && (forall k {:trigger w.Place(n, k)} :: 0 <= k < |w.requests| && InProgress(cl.net, w.Place(n, k)) ==>
          Same(cl.ledgers[n], SoloMarked(w, start, k)))
  }

  ghost predicate Inv(w: Workload, start: Ledger, cl: Cluster) {
    && w.HashesDiffer()
    && NetExact(w, cl.net)
    && cl.ledgers.Keys == cl.net.nodes
    && (forall n, k {:trigger RoundOk(w, start, cl.net, n, k)} :: n in cl.net.nodes && 0 <= k < |w.requests| ==>
          RoundOk(w, start, cl.net, n, k))
    && (forall n {:trigger LedgerOk(w, start, cl, n)} :: n in cl.net.nodes ==> LedgerOk(w, start, cl, n))
  }

  // ---------------------------------------------------------------- every step keeps the invariant

  /** Nothing that was done is undone. */
  ghost predicate DoneKept(before: C.Net, after: C.Net) {
    && after.nodes == before.nodes
    && forall s {:trigger Done(before, s)} :: Done(before, s) ==> Done(after, s)
  }

  /** A round is where it was, but for its wait having ended. */
  ghost predicate SameSlot(before: C.Net, after: C.Net, s: C.Slot) {
    && (C.Begun(before, s) <==> C.Begun(after, s))
    && (InProgress(before, s) <==> InProgress(after, s))
    && (C.GaveUp(before, s) <==> C.GaveUp(after, s))
    && (forall v :: C.Reported(before, s, v) <==> C.Reported(after, s, v))
    && (s in before.votes <==> s in after.votes)
    && (s in before.votes ==> before.votes[s] == after.votes[s])
  }

  lemma ClosedStaysClosed(w: Workload, before: C.Net, after: C.Net, k: nat)
    requires k <= |w.requests| && RoundsClosed(w, before, k) && DoneKept(before, after)
    ensures RoundsClosed(w, after, k)
  {
    forall p, j | p in after.nodes && 0 <= j < k ensures Done(after, w.Place(p, j)) {
      assert Done(before, w.Place(p, j));
    }
  }

  lemma RoundFrame(w: Workload, start: Ledger, before: C.Net, after: C.Net, p: C.NodeId, j: nat)
    requires j < |w.requests| && RoundOk(w, start, before, p, j)
    requires SameSlot(before, after, w.Place(p, j)) && DoneKept(before, after)
    ensures RoundOk(w, start, after, p, j)
  {
    var s := w.Place(p, j);
    assert forall v :: C.Reported(after, s, v) ==> C.Reported(before, s, v);
    if C.Begun(before, s) {
      ClosedStaysClosed(w, before, after, j);
    }
  }

  lemma BetweenFrame(w: Workload, before: C.Net, after: C.Net, p: C.NodeId, k: nat)
    requires k <= |w.requests| && Between(w, after, p, k)
    requires forall j :: 0 <= j < |w.requests| ==> SameSlot(before, after, w.Place(p, j))
    ensures Between(w, before, p, k)
  {
    forall j | 0 <= j < k ensures Done(before, w.Place(p, j)) {
      assert Done(after, w.Place(p, j));
    }
  }

  lemma LedgerFrame(w: Workload, start: Ledger, before: Cluster, after: Cluster, p: C.NodeId)
    requires LedgerOk(w, start, before, p)
    requires p in after.ledgers && after.ledgers[p] == before.ledgers[p]
    requires forall j :: 0 <= j < |w.requests| ==> SameSlot(before.net, after.net, w.Place(p, j))
    ensures LedgerOk(w, start, after, p)
  {
    forall k | 0 <= k <= |w.requests| && Between(w, after.net, p, k)
      ensures Same(after.ledgers[p], Solo(w, start, k))
    {
      BetweenFrame(w, before.net, after.net, p, k);
    }
  }

  /** A node taking up request `k` stands between requests. */
  lemma StandsBetween(w: Workload, start: Ledger, cl: Cluster, n: C.NodeId, k: nat)
    requires Inv(w, start, cl) && n in cl.net.nodes && k < |w.requests|
    requires RoundsClosed(w, cl.net, k) && !C.Begun(cl.net, w.Place(n, k))
    ensures Between(w, cl.net, n, k)
  {
    forall j | k <= j < |w.requests| ensures !C.Begun(cl.net, w.Place(n, j)) {
      assert RoundOk(w, start, cl.net, n, j);
      assert !Done(cl.net, w.Place(n, k));
    }
  }

  /** While a node waits on request `k`, it is done with those before and has taken up none after. */
  lemma WaitsInOrder(w: Workload, start: Ledger, cl: Cluster, n: C.NodeId, k: nat, j: nat)
    requires Inv(w, start, cl) && n in cl.net.nodes && j < |w.requests| && k < |w.requests|
    requires InProgress(cl.net, w.Place(n, k))
    ensures j < k ==> Done(cl.net, w.Place(n, j))
    ensures j > k ==> !C.Begun(cl.net, w.Place(n, j))
  {
    assert RoundOk(w, start, cl.net, n, k);
    assert RoundOk(w, start, cl.net, n, j);
    assert !Done(cl.net, w.Place(n, k));
  }

  lemma PlacesDiffer(w: Workload, n: C.NodeId, k: nat, p: C.NodeId, j: nat)
    requires w.HashesDiffer() && k < |w.requests| && j < |w.requests| && (n != p || k != j)
    ensures w.Place(n, k) != w.Place(p, j)
  {
    if k < j {
      assert w.Hash(k) != w.Hash(j);
    } else if j < k {
      assert w.Hash(j) != w.Hash(k);
    }
  }

  /** The node that closes request `k` stands right after it, and nowhere else. */
  lemma StandsAfter(w: Workload, net: C.Net, n: C.NodeId, k: nat, j: nat)
    requires k < |w.requests| && j <= |w.requests|
    requires C.Begun(net, w.Place(n, k)) && Between(w, net, n, j)
    requires forall i :: k < i < |w.requests| ==> !C.Begun(net, w.Place(n, i))
    ensures j == k + 1 && Done(net, w.Place(n, k))
  {
    assert C.Begun(net, w.Place(n, k));
    if k + 1 < |w.requests| {
      assert !C.Begun(net, w.Place(n, k + 1));
    }
  }

  lemma NextNet(w: Workload, cl: Cluster, act: Act)
    requires Enabled(w, cl, act)
    ensures Next(w, cl, act).net == C.Next(cl.net, NetStep(w, cl, act))
  {
    if act.Finish? {
      C.FinishEffect(cl.net, w.Place(act.node, act.k), act.round);
    }
  }

  lemma NetStaysExact(w: Workload, cl: Cluster, act: Act)
    requires NetExact(w, cl.net) && Enabled(w, cl, act) && FirstRounds(w, Next(w, cl, act).net)
    ensures NetExact(w, Next(w, cl, act).net)
  {
    NextNet(w, cl, act);
    forall k | 0 <= k < |w.requests| ensures C.Exact(Next(w, cl, act).net, w.Hash(k)) {
      assert C.Once(Next(w, cl, act).net, w.Hash(k));
      C.StepKeepsExact(cl.net, NetStep(w, cl, act), w.Hash(k));
    }
  }

  // Decide

  /** The deciding node's vote and ledger are those of the solo node. */
  lemma DecidesLikeSolo(w: Workload, start: Ledger, cl: Cluster, n: C.NodeId, k: nat)
    requires Inv(w, start, cl) && n in cl.net.nodes && k < |w.requests|
    requires RoundsClosed(w, cl.net, k) && !C.Begun(cl.net, w.Place(n, k))
    ensures Verified(w.crypto, cl.ledgers[n], w.requests[k]).1 == SoloVote(w, start, k)
    ensures Same(Verified(w.crypto, cl.ledgers[n], w.requests[k]).0, SoloMarked(w, start, k))
  {
    StandsBetween(w, start, cl, n, k);
    assert LedgerOk(w, start, cl, n);
    VerifiedSame(w.crypto, cl.ledgers[n], Solo(w, start, k), w.requests[k]);
  }

  /** A request the node itself does not approve leaves only its signatures marked. */
  lemma SoloUnapproved(w: Workload, start: Ledger, k: nat)
    requires k < |w.requests| && SoloVote(w, start, k) != Some(true)
    ensures Solo(w, start, k + 1) == SoloMarked(w, start, k)
  {
  }

  /** A request no node takes up twice is taken up here for the first time. */
  lemma TakesUpFirst(w: Workload, cl: Cluster, act: Act)
    requires NetExact(w, cl.net) && Enabled(w, cl, act) && act.Decide? && FirstRounds(w, Next(w, cl, act).net)
    ensures !C.Begun(cl.net, w.Place(act.node, act.k)) && w.Place(act.node, act.k) !in cl.net.votes
    ensures act.k < |w.requests| && act.node in cl.ledgers && RoundsClosed(w, cl.net, act.k)
  {
    C.DecideIsFirst(cl.net, NetStep(w, cl, act));
  }

  lemma DecideEffect(w: Workload, cl: Cluster, act: Act, p: C.NodeId, j: nat)
    requires w.HashesDiffer() && Enabled(w, cl, act) && act.Decide?
    requires j < |w.requests| && (p != act.node || j != act.k)
    ensures SameSlot(cl.net, Next(w, cl, act).net, w.Place(p, j))
  {
    PlacesDiffer(w, act.node, act.k, p, j);
    C.DecideRounds(cl.net, NetStep(w, cl, act), w.Place(p, j));
  }

  lemma DecideDoneKept(w: Workload, cl: Cluster, act: Act)
    requires Enabled(w, cl, act) && act.Decide?
    ensures DoneKept(cl.net, Next(w, cl, act).net)
  {
    forall s | Done(cl.net, s) ensures Done(Next(w, cl, act).net, s) {
      C.DecideRounds(cl.net, NetStep(w, cl, act), s);
    }
  }

  lemma DecideLedger(w: Workload, start: Ledger, cl: Cluster, act: Act)
    requires Inv(w, start, cl) && Enabled(w, cl, act) && act.Decide? && FirstRounds(w, Next(w, cl, act).net)
    ensures LedgerOk(w, start, Next(w, cl, act), act.node)
  {
    var after, n, k := Next(w, cl, act), act.node, act.k;
    TakesUpFirst(w, cl, act);
    DecidesLikeSolo(w, start, cl, n, k);
    StandsBetween(w, start, cl, n, k);
    forall i | k < i < |w.requests| ensures !C.Begun(after.net, w.Place(n, i)) {
      DecideEffect(w, cl, act, n, i);
    }
    forall j | 0 <= j <= |w.requests| && Between(w, after.net, n, j)
      ensures Same(after.ledgers[n], Solo(w, start, j))
    {
      StandsAfter(w, after.net, n, k, j);
      SoloUnapproved(w, start, k);
    }
    forall j | 0 <= j < |w.requests|
      ensures InProgress(after.net, w.Place(n, j)) ==> Same(after.ledgers[n], SoloMarked(w, start, j))
    {
      if j != k {
        DecideEffect(w, cl, act, n, j);
        if j < k {
          assert Done(cl.net, w.Place(n, j));
        }
      }
    }
  }

  lemma DecideRound(w: Workload, start: Ledger, cl: Cluster, act: Act)
    requires Inv(w, start, cl) && Enabled(w, cl, act) && act.Decide? && FirstRounds(w, Next(w, cl, act).net)
    ensures RoundOk(w, start, Next(w, cl, act).net, act.node, act.k)
  {
    TakesUpFirst(w, cl, act);
    DecidesLikeSolo(w, start, cl, act.node, act.k);
    DecideDoneKept(w, cl, act);
    ClosedStaysClosed(w, cl.net, Next(w, cl, act).net, act.k);
    C.DecideRounds(cl.net, NetStep(w, cl, act), w.Place(act.node, act.k));
  }

  lemma DecideKeepsInv(w: Workload, start: Ledger, cl: Cluster, act: Act)
    requires Inv(w, start, cl) && Enabled(w, cl, act) && act.Decide? && FirstRounds(w, Next(w, cl, act).net)
    ensures Inv(w, start, Next(w, cl, act))
  {
    var after := Next(w, cl, act);
    NetStaysExact(w, cl, act);
    DecideDoneKept(w, cl, act);
    forall p, j | p in after.net.nodes && 0 <= j < |w.requests| ensures RoundOk(w, start, after.net, p, j) {
      if p == act.node && j == act.k {
        DecideRound(w, start, cl, act);
      } else {
        assert RoundOk(w, start, cl.net, p, j);
        DecideEffect(w, cl, act, p, j);
        RoundFrame(w, start, cl.net, after.net, p, j);
      }
    }
    forall p | p in after.net.nodes ensures LedgerOk(w, start, after, p) {
      if p == act.node {
        DecideLedger(w, start, cl, act);
      } else {
        assert LedgerOk(w, start, cl, p);
        forall j | 0 <= j < |w.requests| ensures SameSlot(cl.net, after.net, w.Place(p, j)) {
          DecideEffect(w, cl, act, p, j);
        }
        LedgerFrame(w, start, cl, after, p);
      }
    }
  }

  // Reply and Count

  /** Messages, and the end of a wait, leave every round where it was. */
  lemma QuietAct(w: Workload, cl: Cluster, act: Act, s: C.Slot)
    requires Enabled(w, cl, act) && (act.Reply? || act.Count? || act.Pass?)
    ensures Next(w, cl, act).ledgers == cl.ledgers && Next(w, cl, act).net.votes == cl.net.votes
    ensures Next(w, cl, act).net.nodes == cl.net.nodes
    ensures SameSlot(cl.net, Next(w, cl, act).net, s)
  {
    if act.Pass? {
      var t := w.Place(act.node, act.k);
      C.PassEffect(cl.net, t, act.round);
      C.MovedRounds(cl.net, t, act.round, C.Passed, s);
    } else {
      C.MessageRounds(cl.net, NetStep(w, cl, act), s);
    }
  }

  lemma QuietActKeepsInv(w: Workload, start: Ledger, cl: Cluster, act: Act)
    requires Inv(w, start, cl) && Enabled(w, cl, act) && (act.Reply? || act.Count? || act.Pass?)
    requires FirstRounds(w, Next(w, cl, act).net)
    ensures Inv(w, start, Next(w, cl, act))
  {
    var after := Next(w, cl, act);
    NetStaysExact(w, cl, act);
    forall s ensures SameSlot(cl.net, after.net, s) && after.ledgers == cl.ledgers && after.net.nodes == cl.net.nodes {
      QuietAct(w, cl, act, s);
    }
    assert DoneKept(cl.net, after.net) by {
      forall s | Done(cl.net, s) ensures Done(after.net, s) {
        assert SameSlot(cl.net, after.net, s);
      }
    }
    forall p, j | p in after.net.nodes && 0 <= j < |w.requests| ensures RoundOk(w, start, after.net, p, j) {
      assert RoundOk(w, start, cl.net, p, j);
      RoundFrame(w, start, cl.net, after.net, p, j);
    }
    forall p | p in after.net.nodes ensures LedgerOk(w, start, after, p) {
      assert LedgerOk(w, start, cl, p);
      LedgerFrame(w, start, cl, after, p);
    }
  }

  // Finish

  lemma UnanimousVerdict(net: C.Net, h: Bytes, verdict: bool, vote: bool)
    requires C.VerdictExact(net, h, verdict) && net.nodes != {}
    requires forall p :: p in net.nodes ==> C.Voted(net, p, h, vote)
    ensures verdict == vote
  {
    assert C.Voters(net, h, vote, net.nodes) == net.nodes;
    assert C.Voters(net, h, !vote, net.nodes) == {};
  }

  ghost predicate AllRoundsOk(w: Workload, start: Ledger, net: C.Net, k: nat)
    requires k < |w.requests|
  {
    forall p {:trigger RoundOk(w, start, net, p, k)} :: p in net.nodes ==> RoundOk(w, start, net, p, k)
  }

  /** Once every node has voted on request `k`, they all voted like the solo node. */
  lemma AllVoteLikeSolo(w: Workload, start: Ledger, net: C.Net, k: nat, p: C.NodeId)
    requires k < |w.requests| && AllRoundsOk(w, start, net, k) && C.Exact(net, w.Hash(k))
    requires p in net.nodes && w.Place(p, k) in net.votes
    ensures SoloVote(w, start, k).Some? && C.Voted(net, p, w.Hash(k), SoloVote(w, start, k).value)
  {
    assert RoundOk(w, start, net, p, k);
  }

  lemma VerdictLikeSolo(w: Workload, start: Ledger, net: C.Net, k: nat, verdict: bool)
    requires k < |w.requests| && AllRoundsOk(w, start, net, k) && C.Exact(net, w.Hash(k))
    requires C.VerdictExact(net, w.Hash(k), verdict) && net.nodes != {}
    ensures SoloVote(w, start, k) == Some(verdict)
  {
    forall p | p in net.nodes
      ensures SoloVote(w, start, k).Some? && C.Voted(net, p, w.Hash(k), SoloVote(w, start, k).value)
    {
      assert w.Place(p, k) in net.votes;
      AllVoteLikeSolo(w, start, net, k, p);
    }
    UnanimousVerdict(net, w.Hash(k), verdict, SoloVote(w, start, k).value);
  }

  lemma FinishUnfolds(w: Workload, cl: Cluster, act: Act)
    requires Enabled(w, cl, act) && act.Finish?
    ensures act.k < |w.requests| && act.node in cl.ledgers
    ensures C.Enabled(cl.net, C.Finish(w.Place(act.node, act.k), act.round))
    ensures var s := w.Place(act.node, act.k);
            && act.round < |C.RoundsAt(cl.net, s)| && s in cl.net.votes
            && Next(w, cl, act)
               == Ended(w, cl, act.node, act.k, act.round, act.time, C.Majority(cl.net.votes[s], C.TallyAt(cl.net, s)))
  {
    C.FinishEffect(cl.net, w.Place(act.node, act.k), act.round);
  }

  lemma FinishVerdict(w: Workload, cl: Cluster, act: Act) returns (verdict: bool)
    requires Enabled(w, cl, act) && act.Finish? && C.Exact(cl.net, w.Hash(act.k))
    ensures act.node in cl.ledgers && C.VerdictExact(cl.net, w.Hash(act.k), verdict)
    ensures act.round == 0 && InProgress(cl.net, w.Place(act.node, act.k))
    ensures Next(w, cl, act) == Ended(w, cl, act.node, act.k, 0, act.time, verdict)
  {
    var s := w.Place(act.node, act.k);
    FinishUnfolds(w, cl, act);
    C.FinishOfOnce(cl.net, s, act.round);
    verdict := C.Majority(cl.net.votes[s], C.TallyAt(cl.net, s));
  }

  /** At the end of a round every node has voted like the solo node, so the verdict is that vote. */
  lemma FinishNext(w: Workload, start: Ledger, cl: Cluster, act: Act)
    requires Inv(w, start, cl) && Enabled(w, cl, act) && act.Finish?
    ensures SoloVote(w, start, act.k).Some?
    ensures InProgress(cl.net, w.Place(act.node, act.k)) && act.node in cl.ledgers && act.round == 0
    ensures Next(w, cl, act) == Ended(w, cl, act.node, act.k, 0, act.time, SoloVote(w, start, act.k).value)
  {
    assert C.Exact(cl.net, w.Hash(act.k));
    var verdict := FinishVerdict(w, cl, act);
    VerdictLikeSolo(w, start, cl.net, act.k, verdict);
  }

  lemma SoloApproved(w: Workload, start: Ledger, l: Ledger, k: nat, time: nat)
    requires k < |w.requests| && SoloVote(w, start, k) == Some(true)
    requires Same(l, SoloMarked(w, start, k))
    ensures Same(Write(w.crypto, l, w.requests[k], time).ledger, Solo(w, start, k + 1))
    ensures Write(w.crypto, l, w.requests[k], time).Written?
       <==> Write(w.crypto, SoloMarked(w, start, k), w.requests[k], 0).Written?
  {
    WriteSame(w.crypto, l, SoloMarked(w, start, k), w.requests[k], time, 0);
  }

  lemma EndedSame(w: Workload, start: Ledger, cl: Cluster, n: C.NodeId, k: nat, time: nat, verdict: bool)
    requires k < |w.requests| && n in cl.ledgers && SoloVote(w, start, k) == Some(verdict)
    requires C.Begun(cl.net, w.Place(n, k))
    requires Same(cl.ledgers[n], SoloMarked(w, start, k))
    ensures Same(Ended(w, cl, n, k, 0, time, verdict).ledgers[n], Solo(w, start, k + 1))
  {
    if verdict {
      SoloApproved(w, start, cl.ledgers[n], k, time);
    } else {
      SoloUnapproved(w, start, k);
    }
  }

  lemma EndedLedger(w: Workload, start: Ledger, cl: Cluster, n: C.NodeId, k: nat, time: nat, verdict: bool)
    requires Inv(w, start, cl) && n in cl.net.nodes && k < |w.requests|
    requires InProgress(cl.net, w.Place(n, k)) && SoloVote(w, start, k) == Some(verdict)
    ensures LedgerOk(w, start, Ended(w, cl, n, k, 0, time, verdict), n)
  {
    var after := Ended(w, cl, n, k, 0, time, verdict);
    assert LedgerOk(w, start, cl, n);
    EndedSame(w, start, cl, n, k, time, verdict);
    forall j | 0 <= j < |w.requests|
      ensures !InProgress(after.net, w.Place(n, j)) && (j > k ==> !C.Begun(after.net, w.Place(n, j)))
    {
      if j != k {
        WaitsInOrder(w, start, cl, n, k, j);
        PlacesDiffer(w, n, k, n, j);
      }
    }
    forall j | 0 <= j <= |w.requests| && Between(w, after.net, n, j)
      ensures Same(after.ledgers[n], Solo(w, start, j))
    {
      StandsAfter(w, after.net, n, k, j);
    }
  }

  lemma EndedEffect(w: Workload, cl: Cluster, n: C.NodeId, k: nat, time: nat, verdict: bool, p: C.NodeId, j: nat)
    requires w.HashesDiffer() && k < |w.requests| && j < |w.requests| && n in cl.ledgers && (p != n || j != k)
    requires C.Begun(cl.net, w.Place(n, k))
    ensures SameSlot(cl.net, Ended(w, cl, n, k, 0, time, verdict).net, w.Place(p, j))
  {
    PlacesDiffer(w, n, k, p, j);
    C.MovedRounds(cl.net, w.Place(n, k), 0, C.Finished(verdict), w.Place(p, j));
  }

  lemma EndedDoneKept(w: Workload, cl: Cluster, n: C.NodeId, k: nat, time: nat, verdict: bool)
    requires k < |w.requests| && n in cl.ledgers && C.Begun(cl.net, w.Place(n, k))
    ensures DoneKept(cl.net, Ended(w, cl, n, k, 0, time, verdict).net)
    ensures Done(Ended(w, cl, n, k, 0, time, verdict).net, w.Place(n, k))
  {
    forall s | Done(cl.net, s) ensures Done(Ended(w, cl, n, k, 0, time, verdict).net, s) {
      C.MovedRounds(cl.net, w.Place(n, k), 0, C.Finished(verdict), s);
    }
  }

  lemma EndedRounds(w: Workload, start: Ledger, cl: Cluster, n: C.NodeId, k: nat, time: nat, verdict: bool,
                    p: C.NodeId, j: nat)
    requires Inv(w, start, cl) && n in cl.net.nodes && p in cl.net.nodes && k < |w.requests| && j < |w.requests|
    requires InProgress(cl.net, w.Place(n, k)) && SoloVote(w, start, k) == Some(verdict)
    ensures RoundOk(w, start, Ended(w, cl, n, k, 0, time, verdict).net, p, j)
  {
    var after := Ended(w, cl, n, k, 0, time, verdict);
    EndedDoneKept(w, cl, n, k, time, verdict);
    assert RoundOk(w, start, cl.net, p, j);
    if p == n && j == k {
      ClosedStaysClosed(w, cl.net, after.net, k);
    } else {
      EndedEffect(w, cl, n, k, time, verdict, p, j);
      RoundFrame(w, start, cl.net, after.net, p, j);
    }
  }

  lemma EndedOthers(w: Workload, start: Ledger, cl: Cluster, n: C.NodeId, k: nat, time: nat, verdict: bool, p: C.NodeId)
    requires Inv(w, start, cl) && n in cl.net.nodes && p in cl.net.nodes && p != n && k < |w.requests|
    requires C.Begun(cl.net, w.Place(n, k))
    ensures LedgerOk(w, start, Ended(w, cl, n, k, 0, time, verdict), p)
  {
    var after := Ended(w, cl, n, k, 0, time, verdict);
    assert LedgerOk(w, start, cl, p);
    forall j | 0 <= j < |w.requests| ensures SameSlot(cl.net, after.net, w.Place(p, j)) {
      EndedEffect(w, cl, n, k, time, verdict, p, j);
    }
    LedgerFrame(w, start, cl, after, p);
  }

  lemma EndedKeepsInv(w: Workload, start: Ledger, cl: Cluster, n: C.NodeId, k: nat, time: nat, verdict: bool)
    requires Inv(w, start, cl) && n in cl.net.nodes && k < |w.requests|
    requires InProgress(cl.net, w.Place(n, k)) && SoloVote(w, start, k) == Some(verdict)
    requires NetExact(w, Ended(w, cl, n, k, 0, time, verdict).net)
    ensures Inv(w, start, Ended(w, cl, n, k, 0, time, verdict))
  {
    var after := Ended(w, cl, n, k, 0, time, verdict);
    forall p, j | p in after.net.nodes && 0 <= j < |w.requests| ensures RoundOk(w, start, after.net, p, j) {
      EndedRounds(w, start, cl, n, k, time, verdict, p, j);
    }
    forall p | p in after.net.nodes ensures LedgerOk(w, start, after, p) {
      if p == n {
        EndedLedger(w, start, cl, n, k, time, verdict);
      } else {
        EndedOthers(w, start, cl, n, k, time, verdict, p);
      }
    }
  }

  lemma FinishKeepsInv(w: Workload, start: Ledger, cl: Cluster, act: Act)
    requires Inv(w, start, cl) && Enabled(w, cl, act) && act.Finish? && FirstRounds(w, Next(w, cl, act).net)
    ensures Inv(w, start, Next(w, cl, act))
  {
    NetStaysExact(w, cl, act);
    FinishNext(w, start, cl, act);
    EndedKeepsInv(w, start, cl, act.node, act.k, act.time, SoloVote(w, start, act.k).value);
  }

  /** Every act, as long as no request is taken up twice, keeps each ledger at its solo position. */
  lemma StepKeepsInv(w: Workload, start: Ledger, cl: Cluster, act: Act)
    requires Inv(w, start, cl) && Enabled(w, cl, act) && FirstRounds(w, Next(w, cl, act).net)
    ensures Inv(w, start, Next(w, cl, act))
  {
    match act
    case Decide(_, _) => DecideKeepsInv(w, start, cl, act);
    case Reply(_) => QuietActKeepsInv(w, start, cl, act);
    case Count(_) => QuietActKeepsInv(w, start, cl, act);
    case Pass(_, _, _) => QuietActKeepsInv(w, start, cl, act);
    case Finish(_, _, _, _) => FinishKeepsInv(w, start, cl, act);
  }

  // ---------------------------------------------------------------- runs

  /** Nodes start with equal ledgers and no round begun. */
  ghost predicate Starts(w: Workload, start: Ledger, cl: Cluster) {
    && w.HashesDiffer()
    && cl.net == C.InitialNet(cl.ledgers.Keys)
    && forall n :: n in cl.ledgers ==> Same(cl.ledgers[n], start)
  }

  lemma StartsSound(w: Workload, start: Ledger, cl: Cluster)
    requires Starts(w, start, cl)
    ensures Inv(w, start, cl)
  {
    forall n | n in cl.net.nodes ensures LedgerOk(w, start, cl, n) {
      forall k | 0 <= k <= |w.requests| ensures Between(w, cl.net, n, k) ==> k == 0 {
        if k > 0 {
          assert !Done(cl.net, w.Place(n, 0));
        }
      }
    }
  }

  lemma {:induction false} RunKeepsInv(w: Workload, start: Ledger, cl: Cluster, acts: seq<Act>)
    requires Starts(w, start, cl) && IsRun(w, cl, acts) && FirstRounds(w, Reached(w, cl, acts).value.net)
    ensures Inv(w, start, Reached(w, cl, acts).value)
    decreases |acts|
  {
    if acts == [] {
      StartsSound(w, start, cl);
    } else {
      var before, last := Reached(w, cl, acts[..|acts| - 1]).value, acts[|acts| - 1];
      FirstRoundsBefore(w, before, last);
      RunKeepsInv(w, start, cl, acts[..|acts| - 1]);
      StepKeepsInv(w, start, before, last);
    }
  }

  lemma FirstRoundsBefore(w: Workload, cl: Cluster, act: Act)
    requires Enabled(w, cl, act) && FirstRounds(w, Next(w, cl, act).net)
    ensures FirstRounds(w, cl.net)
  {
    NextNet(w, cl, act);
    forall k | 0 <= k < |w.requests| ensures C.Once(cl.net, w.Hash(k)) {
      assert C.Once(Next(w, cl, act).net, w.Hash(k));
      C.OnceBefore(cl.net, NetStep(w, cl, act), w.Hash(k));
    }
  }

  // ---------------------------------------------------------------- main results

  /**
   * Replica equality: as long as no request was taken up twice, whenever two nodes are both done with exactly
   * the first `k` requests, they hold the same accounts, UTXO set, used signatures and chain up to time and
   * hash: those a single node would. `RepeatedRequests` shows replicas apart after one repeated request.
   */
  lemma ReplicasEqual(w: Workload, start: Ledger, cl: Cluster, acts: seq<Act>, p: C.NodeId, q: C.NodeId, k: nat)
    requires Starts(w, start, cl) && IsRun(w, cl, acts) && k <= |w.requests|
    requires var now := Reached(w, cl, acts).value;
             && FirstRounds(w, now.net)
             && p in now.net.nodes && q in now.net.nodes && Between(w, now.net, p, k) && Between(w, now.net, q, k)
    ensures var now := Reached(w, cl, acts).value;
            && p in now.ledgers && q in now.ledgers
            && Same(now.ledgers[p], now.ledgers[q])
            && Same(now.ledgers[p], Run(w.crypto, start, SoloEvents(w, start, k)))
  {
    var now := Reached(w, cl, acts).value;
    RunKeepsInv(w, start, cl, acts);
    assert LedgerOk(w, start, now, p) && LedgerOk(w, start, now, q);
    SoloIsRun(w, start, k);
  }

  /** Nobody is outvoted then, so every replica also keeps the two copies of its account store in agreement. */
  lemma ReplicaStoresAgree(w: Workload, start: Ledger, cl: Cluster, acts: seq<Act>, p: C.NodeId, k: nat)
    requires Starts(w, start, cl) && IsRun(w, cl, acts) && k <= |w.requests| && Agreed(start.store)
    requires var now := Reached(w, cl, acts).value;
             FirstRounds(w, now.net) && p in now.net.nodes && Between(w, now.net, p, k)
    ensures var now := Reached(w, cl, acts).value;
            p in now.ledgers && Agreed(now.ledgers[p].store)
  {
    RunKeepsInv(w, start, cl, acts);
    assert LedgerOk(w, start, Reached(w, cl, acts).value, p);
    SoloAgrees(w, start, k);
  }

  lemma {:induction false} SoloAgrees(w: Workload, start: Ledger, k: nat)
    requires k <= |w.requests| && Agreed(start.store)
    ensures Agreed(Solo(w, start, k).store)
  {
    if k > 0 {
      SoloAgrees(w, start, k - 1);
      var r := w.requests[k - 1];
      assert r.CreateAccount? ==> SoloVote(w, start, k - 1) == Some(r.key !in Solo(w, start, k - 1).store.balances);
      HandledAgrees(w.crypto, Solo(w, start, k - 1), SoloEvent(w, start, k - 1));
    }
  }

  /** All recorded votes on a request are equal, and a verdict is the deciding node's own vote. */
  lemma VotesUnanimous(w: Workload, start: Ledger, cl: Cluster, acts: seq<Act>, p: C.NodeId, q: C.NodeId, k: nat)
    requires Starts(w, start, cl) && IsRun(w, cl, acts) && k < |w.requests|
    requires var net := Reached(w, cl, acts).value.net;
             FirstRounds(w, net) && w.Place(p, k) in net.votes && w.Place(q, k) in net.votes
    ensures var net := Reached(w, cl, acts).value.net;
            && net.votes[w.Place(p, k)] == net.votes[w.Place(q, k)]
            && C.Begun(net, w.Place(p, k))
            && forall v :: C.Reported(net, w.Place(p, k), v) ==> v == net.votes[w.Place(p, k)]
  {
    var net := Reached(w, cl, acts).value.net;
    RunKeepsInv(w, start, cl, acts);
    assert C.Exact(net, w.Hash(k));
    assert C.SlotOk(net, w.Place(p, k)) && C.SlotOk(net, w.Place(q, k));
    assert RoundOk(w, start, net, p, k) && RoundOk(w, start, net, q, k);
  }

  /**
   * No write of an approved request fails on any replica while the tokens there ever were fit in 64 bits,
   * except for a key hash that is not hexadecimal and a spend without inputs.
   */
  lemma NoWriteFails(w: Workload, start: Ledger, cl: Cluster, acts: seq<Act>, act: Act)
    requires Starts(w, start, cl) && IsRun(w, cl, acts) && KeysMatch(start.store)
    requires var now := Reached(w, cl, acts).value;
             && FirstRounds(w, now.net) && act.Finish? && Enabled(w, now, act)
             && TokensFit(start, Solo(w, start, act.k), w.requests[act.k])
    requires var now := Reached(w, cl, acts).value;
             C.Reported(Next(w, now, act).net, w.Place(act.node, act.k), true)
    ensures var now, r := Reached(w, cl, acts).value, w.requests[act.k];
            && act.node in now.ledgers
            && (Write(w.crypto, now.ledgers[act.node], r, act.time).Written? <==> !Malformed(r))
  {
    var now := Reached(w, cl, acts).value;
    RunKeepsInv(w, start, cl, acts);
    FinishNext(w, start, now, act);
    assert LedgerOk(w, start, now, act.node);
    SoloApproved(w, start, now.ledgers[act.node], act.k, act.time);
    SoloIsRun(w, start, act.k);
    ApprovedWriteSucceeds(w.crypto, start, SoloEvents(w, start, act.k), w.requests[act.k], 0);
  }
}
