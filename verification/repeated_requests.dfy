/**
 * What a repeated request does to the replicated ledger: replicas that were equal come apart, and an account
 * that is created again loses its balance.
 */
module RepeatedRequests {
  import opened Base
  import opened AccountStore
  import opened Blockchains
  import opened Signatures
  import opened Ledgers
  import opened LedgerRuns
  import opened Replicas
  import C = Consensus
  import R = RepeatedRounds

  // ---------------------------------------------------------------- runs

  lemma {:induction false} ReachedConcat(w: Workload, cl: Cluster, acts: seq<Act>, more: seq<Act>)
    requires IsRun(w, cl, acts)
    ensures Reached(w, cl, acts + more) == Reached(w, Reached(w, cl, acts).value, more)
    decreases |more|
  {
    if more == [] {
      assert acts + more == acts;
    } else {
      var front := more[..|more| - 1];
      ReachedConcat(w, cl, acts, front);
      assert (acts + more)[..|acts + more| - 1] == acts + front;
    }
  }

  lemma OneAct(w: Workload, cl: Cluster, act: Act)
    requires Enabled(w, cl, act)
    ensures Reached(w, cl, [act]) == Some(Next(w, cl, act))
  {
    assert [act][..0] == [];
  }

  /** Messages move alike in the cluster and in its network, and leave the ledgers alone. */
  lemma {:induction false} MessagesRun(w: Workload, cl: Cluster, steps: seq<C.Step>) returns (acts: seq<Act>)
    requires R.OnlyMessages(steps) && C.IsRun(cl.net, steps)
    ensures Reached(w, cl, acts) == Some(Cluster(C.After(cl.net, steps), cl.ledgers))
    decreases |steps|
  {
    if steps == [] {
      acts := [];
    } else {
      var front, last := steps[..|steps| - 1], steps[|steps| - 1];
      C.RunSnoc(cl.net, steps);
      var before := MessagesRun(w, cl, front);
      var act := if last.Reply? then Reply(last.query) else Count(last.answer);
      OneAct(w, Cluster(C.After(cl.net, front), cl.ledgers), act);
      ReachedConcat(w, cl, before, [act]);
      acts := before + [act];
    }
  }

  ghost predicate AllKeysMatch(cl: Cluster) {
    forall n :: n in cl.ledgers ==> KeysMatch(cl.ledgers[n].store)
  }

  lemma StepKeepsKeys(w: Workload, cl: Cluster, act: Act)
    requires AllKeysMatch(cl) && Enabled(w, cl, act)
    ensures AllKeysMatch(Next(w, cl, act))
  {
    match act
    case Decide(n, k) => VerifiedMarksOnly(w.crypto, cl.ledgers[n], w.requests[k]);
    case Finish(n, k, i, time) => WriteKeys(w.crypto, cl.ledgers[n], w.requests[k], time);
    case _ =>
  }

  lemma {:induction false} RunKeepsKeys(w: Workload, start: Ledger, cl: Cluster, acts: seq<Act>)
    requires Starts(w, start, cl) && IsRun(w, cl, acts) && KeysMatch(start.store)
    ensures AllKeysMatch(Reached(w, cl, acts).value)
    decreases |acts|
  {
    if acts != [] {
      RunKeepsKeys(w, start, cl, acts[..|acts| - 1]);
      StepKeepsKeys(w, Reached(w, cl, acts[..|acts| - 1]).value, acts[|acts| - 1]);
    }
  }

  // ---------------------------------------------------------------- after an approved first round

  /** Everybody approved a request some node wrote. */
  lemma ApprovedByAll(w: Workload, start: Ledger, cl: Cluster, k: nat, p: C.NodeId)
    requires Inv(w, start, cl) && k < |w.requests| && C.Reported(cl.net, w.Place(p, k), true)
    ensures p in cl.net.nodes && R.ApprovedOnce(cl.net, w.Place(p, k))
    ensures C.Peers(cl.net, w.Place(p, k)) == |cl.net.nodes| - 1
    ensures RoundsClosed(w, cl.net, k)
  {
    var s := w.Place(p, k);
    assert C.Exact(cl.net, w.Hash(k));
    assert C.SlotOk(cl.net, s);
    assert RoundOk(w, start, cl.net, p, k);
    VerdictLikeSolo(w, start, cl.net, k, true);
    forall n | n in cl.net.nodes ensures C.Voted(cl.net, n, w.Hash(k), true) {
      AllVoteLikeSolo(w, start, cl.net, k, n);
    }
    R.ApprovedTally(cl.net, s, true);
  }

  // ---------------------------------------------------------------- a request outvoting its rejection

  /** The wait of a round ends, and its tally is read at once. */
  lemma ConcludesRun(w: Workload, cl: Cluster, p: C.NodeId, k: nat, i: nat, time: nat)
    requires k < |w.requests| && p in cl.ledgers
    requires C.Enabled(cl.net, C.Pass(w.Place(p, k), i)) && w.Place(p, k) in cl.net.votes
    ensures i < |C.RoundsAt(cl.net, w.Place(p, k))|
    ensures var s := w.Place(p, k);
            Reached(w, cl, [Pass(p, k, i), Finish(p, k, i, time)])
            == Some(Ended(w, cl, p, k, i, time, C.Majority(cl.net.votes[s], C.TallyAt(cl.net, s))))
  {
    var s := w.Place(p, k);
    R.PassThenFinish(cl.net, s, i);
    C.PassEffect(cl.net, s, i);
    OneAct(w, cl, Pass(p, k, i));
    var mid := Next(w, cl, Pass(p, k, i));
    OneAct(w, mid, Finish(p, k, i, time));
    ReachedConcat(w, cl, [Pass(p, k, i)], [Finish(p, k, i, time)]);
    assert [Pass(p, k, i)] + [Finish(p, k, i, time)] == [Pass(p, k, i), Finish(p, k, i, time)];
    R.MovedTwice(cl.net, s, i, C.Passed, C.Finished(C.Majority(cl.net.votes[s], C.TallyAt(cl.net, s))));
  }

  /** A node decides again on request `k`, and finishes before any new answer is counted. */
  function RepeatedAt(p: C.NodeId, k: nat, time: nat): seq<Act> {
    [Decide(p, k), Pass(p, k, 1), Finish(p, k, 1, time)]
  }

  /**
   * A request everybody approved before is repeated and now rejected by the node itself: among three or more
   * nodes, and exactly then, the node writes it all the same.
   */
  lemma RejectionOutvoted(w: Workload, start: Ledger, cl: Cluster, acts: seq<Act>, p: C.NodeId, k: nat, time: nat)
    requires Starts(w, start, cl) && IsRun(w, cl, acts) && k < |w.requests|
    requires var now, r := Reached(w, cl, acts).value, w.requests[k];
             && FirstRounds(w, now.net) && C.Reported(now.net, w.Place(p, k), true) && p in now.ledgers
             && Verified(w.crypto, now.ledgers[p], r) == (now.ledgers[p], Some(false)) && Asks(r, Some(false))
    ensures IsRun(w, cl, acts + RepeatedAt(p, k, time))
    ensures var now, after := Reached(w, cl, acts).value, Reached(w, cl, acts + RepeatedAt(p, k, time)).value;
            && after.net.votes == now.net.votes[w.Place(p, k) := false]
            && after.ledgers == if |now.net.nodes| >= 3
                                then now.ledgers[p := Write(w.crypto, now.ledgers[p], w.requests[k], time).ledger]
                                else now.ledgers
  {
    var now, s := Reached(w, cl, acts).value, w.Place(p, k);
    RunKeepsInv(w, start, cl, acts);
    ApprovedByAll(w, start, now, k, p);
    R.AgainEffect(now.net, s, false);
    var again := Next(w, now, Decide(p, k));
    assert NetStep(w, now, Decide(p, k)) == R.Again(s, false);
    assert again.ledgers == now.ledgers && again.net == C.Next(now.net, R.Again(s, false));
    OneAct(w, now, Decide(p, k));
    R.SecondAccepts(again.net, s, true);
    ConcludesRun(w, again, p, k, 1, time);
    ReachedConcat(w, now, [Decide(p, k)], [Pass(p, k, 1), Finish(p, k, 1, time)]);
    assert [Decide(p, k)] + [Pass(p, k, 1), Finish(p, k, 1, time)] == RepeatedAt(p, k, time);
    ReachedConcat(w, cl, acts, RepeatedAt(p, k, time));
  }

  // ---------------------------------------------------------------- an account created again

  /**
   * Among three or more nodes, and exactly then, a repeated creation wipes the account: the node rejects it,
   * but the tally of the first round outvotes it at once, the balance is reset to 0 and a second record added.
   */
  lemma RepeatedCreationWipes(w: Workload, start: Ledger, cl: Cluster, acts: seq<Act>, p: C.NodeId, k: nat, time: nat)
    requires Starts(w, start, cl) && IsRun(w, cl, acts) && KeysMatch(start.store)
    requires k < |w.requests| && w.requests[k].CreateAccount? && w.requests[k].keyHash.Some?
    requires var now := Reached(w, cl, acts).value;
             && FirstRounds(w, now.net) && C.Reported(now.net, w.Place(p, k), true)
             && p in now.ledgers && w.requests[k].key in now.ledgers[p].store.balances
    ensures IsRun(w, cl, acts + RepeatedAt(p, k, time))
    ensures var now, after := Reached(w, cl, acts).value, Reached(w, cl, acts + RepeatedAt(p, k, time)).value;
            && p in after.ledgers && after.net.votes == now.net.votes[w.Place(p, k) := false]
            && if |now.net.nodes| >= 3
               then GetBalance(after.ledgers[p].store, w.requests[k].key) == Some(0)
                    && !DistinctKeys(after.ledgers[p].store.vec)
               else after.ledgers[p] == now.ledgers[p]
  {
    var now := Reached(w, cl, acts).value;
    RejectionOutvoted(w, start, cl, acts, p, k, time);
    RunKeepsKeys(w, start, cl, acts);
    WriteKeys(w.crypto, now.ledgers[p], w.requests[k], time);
  }

  // ---------------------------------------------------------------- a transfer submitted again

  /** What a written transfer does to one ledger. */
  ghost predicate PaidOnce(before: Ledger, after: Ledger, r: Request)
    requires r.SendTokens?
  {
    && r.sender in before.store.balances && r.recipient in before.store.balances
    && r.amount <= before.store.balances[r.sender] && before.store.balances[r.recipient] + r.amount < U64_LIMIT
    && after.store.balances
       == before.store.balances[r.sender := before.store.balances[r.sender] - r.amount]
                               [r.recipient := before.store.balances[r.recipient] + r.amount]
    && |after.blocks| == |before.blocks| + 1
  }

  lemma TransferPays(c: Crypto, l: Ledger, r: Request, time: nat)
    requires r.SendTokens? && CanTransfer(l.store, r)
    ensures PaidOnce(l, Write(c, l, r, time).ledger, r)
  {
    var b := TransferBlock(l.store, r, time);
    TransferredBalances(l.store, r.sender, b.senderBalance, r.recipient, b.recipientBalance);
  }

  /**
   * A signature is accepted once, and yet a transfer submitted again pays again: the node rejects it for its
   * used signature, and among three or more nodes, exactly then, writes it all the same.
   */
  lemma RepeatedTransferPaysAgain(w: Workload, start: Ledger, cl: Cluster, acts: seq<Act>,
                                  p: C.NodeId, k: nat, time: nat)
    requires Starts(w, start, cl) && IsRun(w, cl, acts)
    requires k < |w.requests| && w.requests[k].SendTokens?
    requires var now, r := Reached(w, cl, acts).value, w.requests[k];
             && FirstRounds(w, now.net) && C.Reported(now.net, w.Place(p, k), true) && p in now.ledgers
             && r.signature in UsedBy(now.ledgers[p].used, r.sender) && CanTransfer(now.ledgers[p].store, r)
    ensures IsRun(w, cl, acts + RepeatedAt(p, k, time))
    ensures var now, after := Reached(w, cl, acts).value, Reached(w, cl, acts + RepeatedAt(p, k, time)).value;
            && p in after.ledgers && after.net.votes == now.net.votes[w.Place(p, k) := false]
            && if |now.net.nodes| >= 3 then PaidOnce(now.ledgers[p], after.ledgers[p], w.requests[k])
               else after.ledgers[p] == now.ledgers[p]
  {
    var now := Reached(w, cl, acts).value;
    RejectionOutvoted(w, start, cl, acts, p, k, time);
    TransferPays(w.crypto, now.ledgers[p], w.requests[k], time);
  }

  // ---------------------------------------------------------------- a faucet used twice

  lemma FaucetDecided(w: Workload, cl: Cluster, p: C.NodeId, k: nat) returns (acts: seq<Act>)
    requires k < |w.requests| && w.requests[k].UseFaucet? && p in cl.ledgers && p in cl.net.nodes
    requires RoundsClosed(w, cl.net, k) && w.requests[k].key in cl.ledgers[p].store.balances
    ensures Reached(w, cl, acts) == Some(Cluster(C.Next(cl.net, R.Again(w.Place(p, k), true)), cl.ledgers))
  {
    assert NetStep(w, cl, Decide(p, k)) == R.Again(w.Place(p, k), true);
    OneAct(w, cl, Decide(p, k));
    acts := [Decide(p, k)];
    assert cl.ledgers[p := cl.ledgers[p]] == cl.ledgers;
  }

  /** A written faucet call pays 100 tokens, and nobody else's ledger changes. */
  ghost predicate PaidAt(before: map<C.NodeId, Ledger>, after: map<C.NodeId, Ledger>, p: C.NodeId, key: Bytes) {
    && p in before && after.Keys == before.Keys && (forall n :: n in before && n != p ==> after[n] == before[n])
    && key in before[p].store.balances && key in after[p].store.balances
    && Balance(after[p].store.balances[key]) == Balance(before[p].store.balances[key]) + 100
    && Faucets(after[p].blocks) == Faucets(before[p].blocks) + 1
  }

  lemma FaucetPays(c: Crypto, l: Ledger, key: Bytes, time: nat)
    requires key in l.store.balances && l.store.balances[key] + 100 < U64_LIMIT
    ensures var after := Write(c, l, UseFaucet(key), time).ledger;
            && key in after.store.balances && after.store.balances[key] == l.store.balances[key] + 100
            && Faucets(after.blocks) == Faucets(l.blocks) + 1
  {
    var b := WriteShape(c, l, UseFaucet(key), time);
    Appended(map[], l.blocks, b);
  }

  lemma FaucetFinished(w: Workload, cl: Cluster, p: C.NodeId, k: nat, i: nat, time: nat)
    returns (acts: seq<Act>, after: Cluster)
    requires k < |w.requests| && w.requests[k].UseFaucet? && p in cl.ledgers && R.CanAccept(cl.net, w.Place(p, k), i)
    requires var key := w.requests[k].key;
             key in cl.ledgers[p].store.balances && cl.ledgers[p].store.balances[key] + 100 < U64_LIMIT
    ensures Reached(w, cl, acts) == Some(after)
    ensures after.net == C.Moved(cl.net, w.Place(p, k), i, C.Finished(true))
    ensures PaidAt(cl.ledgers, after.ledgers, p, w.requests[k].key)
  {
    FaucetPays(w.crypto, cl.ledgers[p], w.requests[k].key, time);
    ConcludesRun(w, cl, p, k, i, time);
    acts := [Pass(p, k, i), Finish(p, k, i, time)];
    after := Ended(w, cl, p, k, i, time, true);
  }

  /** The second call decided by two nodes, written by one, and its answer to the other counted. */
  lemma SecondFaucetRuns(w: Workload, cl: Cluster, p: C.NodeId, q: C.NodeId, k: nat, time: nat)
    returns (acts: seq<Act>, after: Cluster)
    requires w.HashesDiffer() && k < |w.requests| && w.requests[k].UseFaucet? && p != q
    requires cl.ledgers.Keys == cl.net.nodes && RoundsClosed(w, cl.net, k)
    requires R.ApprovedOnce(cl.net, w.Place(p, k)) && R.ApprovedOnce(cl.net, w.Place(q, k))
    requires var key := w.requests[k].key;
             && key in cl.ledgers[p].store.balances && cl.ledgers[p].store.balances[key] + 100 < U64_LIMIT
             && key in cl.ledgers[q].store.balances
    ensures Reached(w, cl, acts) == Some(after) && PaidAt(cl.ledgers, after.ledgers, p, w.requests[k].key)
    ensures Overfull(w, after, q, k)
  {
    var s, t := w.Place(p, k), w.Place(q, k);
    var n1, n2 := R.TwoAgain(cl.net, s, t);
    StillClosed(w, cl.net, R.Again(s, true), k);
    var first := FaucetDecided(w, cl, p, k);
    var second := FaucetDecided(w, Cluster(n1, cl.ledgers), q, k);
    ReachedConcat(w, cl, first, second);
    var decided := Cluster(n2, cl.ledgers);
    var finish, paid := FaucetFinished(w, decided, p, k, 1, time);
    ReachedConcat(w, cl, first + second, finish);
    var steps, net := R.LateAnswer(n2, s, t);
    var late := MessagesRun(w, paid, steps);
    ReachedConcat(w, cl, first + second + finish, late);
    acts, after := first + second + finish + late, Cluster(net, paid.ledgers);
  }

  lemma StillClosed(w: Workload, net: C.Net, step: C.Step, k: nat)
    requires k <= |w.requests| && RoundsClosed(w, net, k) && C.Enabled(net, step) && step.Decide?
    ensures RoundsClosed(w, C.Next(net, step), k)
  {
    forall p, j | p in net.nodes && 0 <= j < k ensures Done(C.Next(net, step), w.Place(p, j)) {
      assert Done(net, w.Place(p, j));
      C.DecideRounds(net, step, w.Place(p, j));
    }
  }

  /** A node waits in its second round, on a tally that holds more answers than there are peers. */
  ghost predicate Overfull(w: Workload, cl: Cluster, q: C.NodeId, k: nat)
    requires k < |w.requests|
  {
    var s := w.Place(q, k);
    && C.Answers(cl.net, s) > C.Peers(cl.net, s)
    && |C.RoundsAt(cl.net, s)| > 1 && C.RoundsAt(cl.net, s)[1].Waiting?
  }

  lemma {:induction false} OverfullForGood(w: Workload, cl: Cluster, more: seq<Act>, q: C.NodeId, k: nat)
    requires k < |w.requests| && IsRun(w, cl, more) && Overfull(w, cl, q, k)
    ensures Overfull(w, Reached(w, cl, more).value, q, k)
    decreases |more|
  {
    if more != [] {
      var before, last := Reached(w, cl, more[..|more| - 1]).value, more[|more| - 1];
      OverfullForGood(w, cl, more[..|more| - 1], q, k);
      NextNet(w, before, last);
      R.AnswersGrow(before.net, NetStep(w, before, last), w.Place(q, k));
      R.OverfullStep(before.net, NetStep(w, before, last), w.Place(q, k), 1);
    }
  }

  /**
   * An account uses the faucet a second time, with the hash of the first. Of any two nodes the one may write
   * at once and the other wait forever: it holds one answer too many, whatever happens next. So ledgers
   * that were equal differ for good by the 100 tokens of this request.
   */
  lemma SecondFaucetSplitsReplicas(w: Workload, start: Ledger, cl: Cluster, acts: seq<Act>,
                                   p: C.NodeId, q: C.NodeId, k: nat, time: nat) returns (again: seq<Act>)
    requires Starts(w, start, cl) && IsRun(w, cl, acts) && k < |w.requests| && w.requests[k].UseFaucet? && p != q
    requires var now, key := Reached(w, cl, acts).value, w.requests[k].key;
             && FirstRounds(w, now.net)
             && C.Reported(now.net, w.Place(p, k), true) && C.Reported(now.net, w.Place(q, k), true)
             && p in now.ledgers && key in now.ledgers[p].store.balances
             && now.ledgers[p].store.balances[key] + 100 < U64_LIMIT
             && q in now.ledgers && key in now.ledgers[q].store.balances
    ensures IsRun(w, cl, acts + again)
    ensures var now, after := Reached(w, cl, acts).value, Reached(w, cl, acts + again).value;
            && PaidAt(now.ledgers, after.ledgers, p, w.requests[k].key)
            && Stuck(w, after, q, k)
  {
    var now, after := Reached(w, cl, acts).value, cl;
    RunKeepsInv(w, start, cl, acts);
    ApprovedByAll(w, start, now, k, p);
    ApprovedByAll(w, start, now, k, q);
    again, after := SecondFaucetRuns(w, now, p, q, k, time);
    ReachedConcat(w, cl, acts, again);
    OverfullStuck(w, after, q, k);
  }

  /** In every continuation this node is still waiting in its second round of this request. */
  ghost predicate Stuck(w: Workload, cl: Cluster, q: C.NodeId, k: nat)
    requires k < |w.requests|
  {
    forall more :: IsRun(w, cl, more) ==>
      var rounds := C.RoundsAt(Reached(w, cl, more).value.net, w.Place(q, k));
      |rounds| > 1 && rounds[1].Waiting?
  }

  lemma OverfullStuck(w: Workload, cl: Cluster, q: C.NodeId, k: nat)
    requires k < |w.requests| && Overfull(w, cl, q, k)
    ensures Stuck(w, cl, q, k)
  {
    forall more | IsRun(w, cl, more) ensures Overfull(w, Reached(w, cl, more).value, q, k) {
      OverfullForGood(w, cl, more, q, k);
    }
  }

  // ---------------------------------------------------------------- two nodes from the start

  /** Two nodes that hold the ledger `start` and have taken up nothing. */
  function TwoNodes(start: Ledger): Cluster {
    Cluster(C.InitialNet({0, 1}), map[0 := start, 1 := start])
  }

  /** The only request is one account's call of the faucet, and the account has room for two. */
  ghost predicate FaucetCall(w: Workload, start: Ledger) {
    && |w.requests| == 1 && w.requests[0].UseFaucet?
    && w.requests[0].key in start.store.balances && start.store.balances[w.requests[0].key] + 200 < U64_LIMIT
  }

  /** The first round: both nodes decide, and each answers the other. */
  lemma FirstFaucetAsked(w: Workload, start: Ledger) returns (acts: seq<Act>)
    requires FaucetCall(w, start)
    ensures var h := w.Hash(0);
            Reached(w, TwoNodes(start), acts)
            == Some(Cluster(R.TwoWaiting(h, map[C.Slot(0, h) := C.Tally(1, 0), C.Slot(1, h) := C.Tally(1, 0)], {}),
                            TwoNodes(start).ledgers))
  {
    var cl, h := TwoNodes(start), w.Hash(0);
    R.TwoAsk(h);
    R.TwoAskBack(h);
    var n1 := C.Next(cl.net, R.Again(w.Place(0, 0), true));
    var first := FaucetDecided(w, cl, 0, 0);
    var second := FaucetDecided(w, Cluster(n1, cl.ledgers), 1, 0);
    ReachedConcat(w, cl, first, second);
    var n2 := C.Next(n1, R.Again(w.Place(1, 0), true));
    var steps := R.TwoExchange(h);
    var exchange := MessagesRun(w, Cluster(n2, cl.ledgers), steps);
    ReachedConcat(w, cl, first + second, exchange);
    acts := first + second + exchange;
  }

  /** Both finish it, and both pay. */
  lemma FirstFaucetPaid(w: Workload, start: Ledger, time: nat) returns (acts: seq<Act>, paid: Cluster)
    requires FaucetCall(w, start)
    ensures Reached(w, TwoNodes(start), acts) == Some(paid) && FirstRounds(w, paid.net)
    ensures C.Reported(paid.net, w.Place(0, 0), true) && C.Reported(paid.net, w.Place(1, 0), true)
    ensures paid.ledgers.Keys == {0, 1}
    ensures forall n :: n in {0, 1} ==>
              var key := w.requests[0].key;
              && key in paid.ledgers[n].store.balances
              && paid.ledgers[n].store.balances[key] == start.store.balances[key] + 100
  {
    var cl := TwoNodes(start);
    var asked := FirstFaucetAsked(w, start);
    var n6, n7, n8 := R.TwoFinish(w.Hash(0));
    var finish0, one := FaucetFinished(w, Cluster(n6, cl.ledgers), 0, 0, 0, time);
    ReachedConcat(w, cl, asked, finish0);
    var finish1, both := FaucetFinished(w, one, 1, 0, 0, time);
    ReachedConcat(w, cl, asked + finish0, finish1);
    acts, paid := asked + finish0 + finish1, both;
  }

  /**
   * Two nodes with equal ledgers, one account calling the faucet twice: there is a run after which one node
   * has paid 200 tokens and the other 100, and that one waits in its second round in every continuation.
   */
  lemma TwoFaucetCallsDiverge(w: Workload, start: Ledger, time: nat) returns (acts: seq<Act>)
    requires FaucetCall(w, start)
    ensures Starts(w, start, TwoNodes(start)) && IsRun(w, TwoNodes(start), acts)
    ensures var now, key := Reached(w, TwoNodes(start), acts).value, w.requests[0].key;
            && now.ledgers.Keys == {0, 1}
            && GetBalance(now.ledgers[0].store, key) == Some(start.store.balances[key] + 200)
            && GetBalance(now.ledgers[1].store, key) == Some(start.store.balances[key] + 100)
            && Stuck(w, now, 1, 0)
  {
    var first, paid := FirstFaucetPaid(w, start, time);
    var again := SecondFaucetSplitsReplicas(w, start, TwoNodes(start), first, 0, 1, 0, time);
    acts := first + again;
  }
}
