/**
 * What the cluster can do: from every state between two requests there is a run in which every node takes up
 * the next request and is done with it, for any number of nodes and any kind of request; so any workload can be
 * served, and then every node holds the ledger of the serial run.
 */
module Progress {
  import opened Base
  import opened Ledgers
  import opened Replicas
  import opened RepeatedRequests
  import C = Consensus
  import R = RepeatedRounds

  // ---------------------------------------------------------------- one network, one hash

  /** The queries for one hash that are under way. */
  function QueriesFor(net: C.Net, h: Bytes): set<C.Query> {
    set q | q in net.queries && q.hash == h
  }

  ghost predicate NoAnswersFor(net: C.Net, h: Bytes) {
    forall a :: a in net.answers ==> a.hash != h
  }

  /** Once everybody has voted, every query can be answered and every answer counted. */
  lemma {:induction false} Drained(net: C.Net, h: Bytes) returns (steps: seq<C.Step>, after: C.Net)
    requires NoAnswersFor(net, h) && forall q :: q in QueriesFor(net, h) ==> C.Slot(q.to, h) in net.votes
    ensures R.OnlyMessages(steps) && C.Reached(net, steps) == Some(after)
    ensures after.nodes == net.nodes && after.rounds == net.rounds && after.votes == net.votes
    ensures QueriesFor(after, h) == {} && NoAnswersFor(after, h)
    decreases |QueriesFor(net, h)|
  {
    if QueriesFor(net, h) == {} {
      steps, after := [], net;
    } else {
      var q :| q in QueriesFor(net, h);
      var vote := net.votes[C.Slot(q.to, h)];
      var first := R.ReplyThenCount(net, q, vote);
      var mid := R.AfterAnswer(net, q, vote);
      assert QueriesFor(mid, h) == QueriesFor(net, h) - {q};
      var rest;
      rest, after := Drained(mid, h);
      R.ReachedConcat(net, first, rest);
      steps := first + rest;
    }
  }

  // ---------------------------------------------------------------- taking a request up

  /** Only rounds of request `k` differ. */
  ghost predicate OthersKept(w: Workload, before: C.Net, after: C.Net, k: nat)
    requires k < |w.requests|
  {
    && after.nodes == before.nodes
    && forall s: C.Slot :: s.hash != w.Hash(k) ==> C.RoundsAt(after, s) == C.RoundsAt(before, s)
  }

  function FirstPhase(asks: bool): C.Phase {
    if asks then C.Waiting else C.Abandoned
  }

  /** Whether the request is put to the vote, which is the same at every node. */
  function IsAsked(w: Workload, start: Ledger, k: nat): bool
    requires k < |w.requests|
  {
    Asks(w.requests[k], SoloVote(w, start, k))
  }

  /** The nodes in `done` have taken up request `k`, the others have not, and nobody was answered yet. */
  ghost predicate TakenUp(w: Workload, start: Ledger, cl: Cluster, k: nat, done: set<C.NodeId>)
    requires k < |w.requests|
  {
    && Inv(w, start, cl) && FirstRounds(w, cl.net) && RoundsClosed(w, cl.net, k) && NoAnswersFor(cl.net, w.Hash(k))
    && forall n :: n in cl.net.nodes ==>
         C.RoundsAt(cl.net, w.Place(n, k)) == if n in done then [FirstPhase(IsAsked(w, start, k))] else []
  }

  lemma AskedHasVote(c: Crypto, l: Ledger, r: Request)
    ensures Asks(r, Verified(c, l, r).1) ==> Verified(c, l, r).1.Some?
  {
  }

  lemma OnceAfterDecide(w: Workload, cl: Cluster, n: C.NodeId, k: nat)
    requires w.HashesDiffer() && FirstRounds(w, cl.net) && k < |w.requests| && Enabled(w, cl, Decide(n, k))
    requires C.RoundsAt(cl.net, w.Place(n, k)) == []
    ensures FirstRounds(w, Next(w, cl, Decide(n, k)).net)
  {
    var step := NetStep(w, cl, Decide(n, k));
    forall j | 0 <= j < |w.requests| ensures C.Once(C.Next(cl.net, step), w.Hash(j)) {
      assert C.Once(cl.net, w.Hash(j));
      forall s: C.Slot | s.hash == w.Hash(j) ensures |C.RoundsAt(C.Next(cl.net, step), s)| <= 1 {
        C.DecideRounds(cl.net, step, s);
      }
    }
  }

  lemma TakesUp(w: Workload, start: Ledger, cl: Cluster, k: nat, done: set<C.NodeId>, n: C.NodeId)
    requires k < |w.requests| && TakenUp(w, start, cl, k, done) && n in cl.net.nodes && n !in done
    ensures Enabled(w, cl, Decide(n, k))
    ensures TakenUp(w, start, Next(w, cl, Decide(n, k)), k, done + {n})
    ensures OthersKept(w, cl.net, Next(w, cl, Decide(n, k)).net, k)
  {
    DecidesLikeSolo(w, start, cl, n, k);
    AskedHasVote(w.crypto, cl.ledgers[n], w.requests[k]);
    OnceAfterDecide(w, cl, n, k);
    StepKeepsInv(w, start, cl, Decide(n, k));
    var step, after := NetStep(w, cl, Decide(n, k)), Next(w, cl, Decide(n, k));
    forall s ensures C.RoundsAt(after.net, s)
                  == C.RoundsAt(cl.net, s) + if s == w.Place(n, k) then [FirstPhase(IsAsked(w, start, k))] else [] {
      C.DecideRounds(cl.net, step, s);
    }
    StillClosed(w, cl.net, step, k);
  }

  lemma {:induction false} AllTakeUp(w: Workload, start: Ledger, cl: Cluster, k: nat, done: set<C.NodeId>)
    returns (acts: seq<Act>, after: Cluster)
    requires k < |w.requests| && TakenUp(w, start, cl, k, done) && done <= cl.net.nodes
    ensures Reached(w, cl, acts) == Some(after)
    ensures TakenUp(w, start, after, k, cl.net.nodes) && OthersKept(w, cl.net, after.net, k)
    decreases cl.net.nodes - done
  {
    var left := cl.net.nodes - done;
    if left == {} {
      assert done == cl.net.nodes;
      acts, after := [], cl;
    } else {
      var n :| n in left;
      TakesUp(w, start, cl, k, done, n);
      OneAct(w, cl, Decide(n, k));
      var rest;
      rest, after := AllTakeUp(w, start, Next(w, cl, Decide(n, k)), k, done + {n});
      ReachedConcat(w, cl, [Decide(n, k)], rest);
      acts := [Decide(n, k)] + rest;
    }
  }

  // ---------------------------------------------------------------- hearing everybody

  /** A node waits in its first round with every answer counted. */
  ghost predicate Ready(net: C.Net, s: C.Slot) {
    s in net.votes && C.RoundsAt(net, s) == [C.Waiting] && C.Answers(net, s) == C.Peers(net, s)
  }

  /** The nodes `ready` are ready to finish request `k`, all others are done with it. */
  ghost predicate ReadyOrDone(w: Workload, cl: Cluster, k: nat, ready: set<C.NodeId>)
    requires k < |w.requests|
  {
    && w.HashesDiffer() && cl.ledgers.Keys == cl.net.nodes && ready <= cl.net.nodes
    && (forall n {:trigger Ready(cl.net, w.Place(n, k))} :: n in ready ==> Ready(cl.net, w.Place(n, k)))
    && (forall n {:trigger Done(cl.net, w.Place(n, k))} :: n in cl.net.nodes && n !in ready ==>
          Done(cl.net, w.Place(n, k)))
  }

  lemma QuietIsReady(net: C.Net, s: C.Slot)
    requires C.Exact(net, s.hash) && C.RoundsAt(net, s) == [C.Waiting]
    requires QueriesFor(net, s.hash) == {} && NoAnswersFor(net, s.hash)
    ensures s in net.votes && C.Answers(net, s) == C.Peers(net, s)
  {
    assert C.SlotOk(net, s);
    assert C.Quiet(net, s) by {
      forall q | q in net.queries ensures C.Slot(q.from, q.hash) != s {
        assert q.hash == s.hash ==> q in QueriesFor(net, s.hash);
      }
    }
    C.QuietHeardAll(net, s);
    C.AllReceivedIffAllHeard(net, s);
  }

  lemma EverybodyVoted(w: Workload, start: Ledger, cl: Cluster, k: nat, q: C.Query)
    requires k < |w.requests| && TakenUp(w, start, cl, k, cl.net.nodes) && IsAsked(w, start, k)
    requires q in QueriesFor(cl.net, w.Hash(k))
    ensures C.Slot(q.to, w.Hash(k)) in cl.net.votes
  {
    assert C.Exact(cl.net, w.Hash(k));
    assert C.QueryOk(cl.net, q);
    assert C.SlotOk(cl.net, w.Place(q.to, k));
  }

  /** All messages of the round are exchanged, and every wait can end. */
  lemma Exchanged(w: Workload, start: Ledger, cl: Cluster, k: nat) returns (acts: seq<Act>, after: Cluster)
    requires k < |w.requests| && TakenUp(w, start, cl, k, cl.net.nodes) && IsAsked(w, start, k)
    ensures Reached(w, cl, acts) == Some(after) && after.net.rounds == cl.net.rounds && after.net.nodes == cl.net.nodes
    ensures ReadyOrDone(w, after, k, after.net.nodes)
  {
    forall q | q in QueriesFor(cl.net, w.Hash(k)) ensures C.Slot(q.to, w.Hash(k)) in cl.net.votes {
      EverybodyVoted(w, start, cl, k, q);
    }
    var steps, net := Drained(cl.net, w.Hash(k));
    acts := MessagesRun(w, cl, steps);
    after := Cluster(net, cl.ledgers);
    assert forall s :: C.RoundsAt(net, s) == C.RoundsAt(cl.net, s);
    assert C.Once(net, w.Hash(k)) by {
      assert C.Once(cl.net, w.Hash(k));
    }
    MessagesKeepExact(cl.net, steps, w.Hash(k));
    forall n | n in net.nodes ensures Ready(net, w.Place(n, k)) {
      QuietIsReady(net, w.Place(n, k));
    }
  }

  lemma {:induction false} MessagesKeepExact(net: C.Net, steps: seq<C.Step>, h: Bytes)
    requires C.Exact(net, h) && C.IsRun(net, steps) && R.OnlyMessages(steps) && C.Once(C.After(net, steps), h)
    ensures C.Exact(C.After(net, steps), h)
    decreases |steps|
  {
    if steps != [] {
      var front, last := steps[..|steps| - 1], steps[|steps| - 1];
      C.RunSnoc(net, steps);
      C.OnceBefore(C.After(net, front), last, h);
      MessagesKeepExact(net, front, h);
      C.StepKeepsExact(C.After(net, front), last, h);
    }
  }

  // ---------------------------------------------------------------- finishing

  /** No round is begun or forgotten. */
  ghost predicate SameCounts(before: C.Net, after: C.Net) {
    forall s :: |C.RoundsAt(after, s)| == |C.RoundsAt(before, s)|
  }

  lemma OneMoved(w: Workload, net: C.Net, k: nat, n: C.NodeId, verdict: bool)
    requires k < |w.requests| && C.RoundsAt(net, w.Place(n, k)) == [C.Waiting]
    ensures var after := C.Moved(net, w.Place(n, k), 0, C.Finished(verdict));
            && OthersKept(w, net, after, k) && SameCounts(net, after)
            && C.RoundsAt(after, w.Place(n, k)) == [C.Finished(verdict)]
            && forall p :: p != n ==> C.RoundsAt(after, w.Place(p, k)) == C.RoundsAt(net, w.Place(p, k))
  {
    var s := w.Place(n, k);
    forall t ensures && |C.RoundsAt(C.Moved(net, s, 0, C.Finished(verdict)), t)| == |C.RoundsAt(net, t)|
                     && (t != s ==> C.RoundsAt(C.Moved(net, s, 0, C.Finished(verdict)), t) == C.RoundsAt(net, t)) {
      C.MovedRounds(net, s, 0, C.Finished(verdict), t);
    }
  }

  lemma OneReady(w: Workload, cl: Cluster, after: Cluster, k: nat, ready: set<C.NodeId>, n: C.NodeId, verdict: bool)
    requires k < |w.requests| && ReadyOrDone(w, cl, k, ready) && n in ready
    requires Ready(cl.net, w.Place(n, k)) && after.ledgers.Keys == cl.ledgers.Keys
    requires after.net == C.Moved(cl.net, w.Place(n, k), 0, C.Finished(verdict))
    ensures ReadyOrDone(w, after, k, ready - {n})
    ensures OthersKept(w, cl.net, after.net, k) && SameCounts(cl.net, after.net)
  {
    OneMoved(w, cl.net, k, n, verdict);
    forall p | p in ready - {n} ensures Ready(after.net, w.Place(p, k)) {
      assert Ready(cl.net, w.Place(p, k));
    }
    forall p | p in cl.net.nodes && p !in ready - {n} ensures Done(after.net, w.Place(p, k)) {
      if p != n {
        assert Done(cl.net, w.Place(p, k));
      }
    }
  }

  lemma OneConcludes(w: Workload, cl: Cluster, k: nat, ready: set<C.NodeId>, n: C.NodeId, time: nat)
    returns (acts: seq<Act>, after: Cluster)
    requires k < |w.requests| && ReadyOrDone(w, cl, k, ready) && n in ready
    ensures Reached(w, cl, acts) == Some(after)
    ensures ReadyOrDone(w, after, k, ready - {n})
    ensures OthersKept(w, cl.net, after.net, k) && SameCounts(cl.net, after.net)
  {
    var s := w.Place(n, k);
    assert Ready(cl.net, w.Place(n, k));
    ConcludesRun(w, cl, n, k, 0, time);
    acts := [Pass(n, k, 0), Finish(n, k, 0, time)];
    var verdict := C.Majority(cl.net.votes[s], C.TallyAt(cl.net, s));
    after := Ended(w, cl, n, k, 0, time, verdict);
    OneReady(w, cl, after, k, ready, n, verdict);
  }

  lemma {:induction false} AllConclude(w: Workload, cl: Cluster, k: nat, ready: set<C.NodeId>, time: nat)
    returns (acts: seq<Act>, after: Cluster)
    requires k < |w.requests| && ReadyOrDone(w, cl, k, ready)
    ensures Reached(w, cl, acts) == Some(after)
    ensures ReadyOrDone(w, after, k, {})
    ensures OthersKept(w, cl.net, after.net, k) && SameCounts(cl.net, after.net)
    decreases ready
  {
    if ready == {} {
      acts, after := [], cl;
    } else {
      var n :| n in ready;
      assert n in cl.net.nodes;
      var first, next := OneConcludes(w, cl, k, ready, n, time);
      var rest;
      rest, after := AllConclude(w, next, k, ready - {n}, time);
      ReachedConcat(w, cl, first, rest);
      acts := first + rest;
    }
  }

  // ---------------------------------------------------------------- main results

  /** Every node is done with exactly the first `k` requests. */
  ghost predicate AllBetween(w: Workload, cl: Cluster, k: nat)
    requires k <= |w.requests|
  {
    forall n :: n in cl.net.nodes ==> Between(w, cl.net, n, k)
  }

  lemma ReadyToTakeUp(w: Workload, start: Ledger, cl: Cluster, k: nat)
    requires Inv(w, start, cl) && FirstRounds(w, cl.net) && k < |w.requests| && AllBetween(w, cl, k)
    ensures TakenUp(w, start, cl, k, {})
  {
    assert C.Exact(cl.net, w.Hash(k));
    forall n | n in cl.net.nodes ensures C.RoundsAt(cl.net, w.Place(n, k)) == [] {
      assert Between(w, cl.net, n, k);
      assert !C.Begun(cl.net, w.Place(n, k));
    }
    assert NoAnswersFor(cl.net, w.Hash(k)) by {
      assert forall a :: a in cl.net.answers && a.hash == w.Hash(k) ==> C.AnswerOk(cl.net, a);
      assert forall a: C.Answer :: a.to in cl.net.nodes ==> C.RoundsAt(cl.net, w.Place(a.to, k)) == [];
    }
    assert RoundsClosed(w, cl.net, k) by {
      forall p, j | p in cl.net.nodes && 0 <= j < k ensures Done(cl.net, w.Place(p, j)) {
        assert Between(w, cl.net, p, k);
      }
    }
  }

  /** Once all nodes are done with request `k` and no other round moved, all stand one request further. */
  lemma OneFurther(w: Workload, before: C.Net, after: C.Net, k: nat, n: C.NodeId)
    requires w.HashesDiffer() && k < |w.requests| && n in before.nodes && Between(w, before, n, k)
    requires OthersKept(w, before, after, k) && Done(after, w.Place(n, k))
    ensures Between(w, after, n, k + 1)
  {
    forall j | 0 <= j < |w.requests| && j != k
      ensures C.RoundsAt(after, w.Place(n, j)) == C.RoundsAt(before, w.Place(n, j))
    {
      PlacesDiffer(w, n, k, n, j);
      assert w.Hash(j) != w.Hash(k);
    }
    forall j | 0 <= j < k + 1 ensures Done(after, w.Place(n, j)) {
      if j < k {
        assert Done(before, w.Place(n, j));
      }
    }
    forall j | k + 1 <= j < |w.requests| ensures !C.Begun(after, w.Place(n, j)) {
      assert !C.Begun(before, w.Place(n, j));
    }
  }

  lemma CountsKeepFirst(w: Workload, before: C.Net, after: C.Net)
    requires FirstRounds(w, before) && SameCounts(before, after)
    ensures FirstRounds(w, after)
  {
    forall j | 0 <= j < |w.requests| ensures C.Once(after, w.Hash(j)) {
      assert C.Once(before, w.Hash(j));
    }
  }

  lemma AllFurther(w: Workload, before: Cluster, after: Cluster, k: nat)
    requires w.HashesDiffer() && k < |w.requests| && AllBetween(w, before, k)
    requires OthersKept(w, before.net, after.net, k)
    requires forall n :: n in after.net.nodes ==> Done(after.net, w.Place(n, k))
    ensures AllBetween(w, after, k + 1)
  {
    forall n | n in after.net.nodes ensures Between(w, after.net, n, k + 1) {
      OneFurther(w, before.net, after.net, k, n);
    }
  }

  /** A round everybody has asked for can be brought to its end. */
  lemma AskedRound(w: Workload, start: Ledger, cl: Cluster, k: nat, time: nat) returns (acts: seq<Act>, after: Cluster)
    requires k < |w.requests| && TakenUp(w, start, cl, k, cl.net.nodes) && IsAsked(w, start, k)
    ensures Reached(w, cl, acts) == Some(after)
    ensures forall n :: n in after.net.nodes ==> Done(after.net, w.Place(n, k))
    ensures OthersKept(w, cl.net, after.net, k) && SameCounts(cl.net, after.net)
  {
    var messages, heard := Exchanged(w, start, cl, k);
    var last;
    last, after := AllConclude(w, heard, k, heard.net.nodes, time);
    ReachedConcat(w, cl, messages, last);
    acts := messages + last;
    assert forall s :: C.RoundsAt(heard.net, s) == C.RoundsAt(cl.net, s);
    forall n | n in after.net.nodes ensures Done(after.net, w.Place(n, k)) {
      assert n !in {};
    }
  }

  /** A request nobody asks for is done with once all have taken it up. */
  lemma UnaskedDone(w: Workload, start: Ledger, cl: Cluster, k: nat, n: C.NodeId)
    requires k < |w.requests| && TakenUp(w, start, cl, k, cl.net.nodes) && !IsAsked(w, start, k) && n in cl.net.nodes
    ensures Done(cl.net, w.Place(n, k))
  {
    assert C.RoundsAt(cl.net, w.Place(n, k)) == [C.Abandoned];
  }

  lemma TakenUpFrame(w: Workload, before: C.Net, mid: C.Net, after: C.Net, k: nat)
    requires k < |w.requests| && OthersKept(w, before, mid, k) && OthersKept(w, mid, after, k)
    ensures OthersKept(w, before, after, k)
  {
  }

  /**
   * From every reachable state in which all nodes are done with the first `k` requests, and none was taken up
   * twice, there is a continuation in which all nodes are done with the next one as well.
   */
  lemma RoundCanComplete(w: Workload, start: Ledger, cl: Cluster, k: nat, time: nat)
    returns (acts: seq<Act>, after: Cluster)
    requires Inv(w, start, cl) && FirstRounds(w, cl.net) && k < |w.requests| && AllBetween(w, cl, k)
    ensures Reached(w, cl, acts) == Some(after) && after.net.nodes == cl.net.nodes
    ensures AllBetween(w, after, k + 1) && FirstRounds(w, after.net)
  {
    ReadyToTakeUp(w, start, cl, k);
    var taken;
    acts, taken := AllTakeUp(w, start, cl, k, {});
    after := taken;
    if IsAsked(w, start, k) {
      var last;
      last, after := AskedRound(w, start, taken, k, time);
      ReachedConcat(w, cl, acts, last);
      acts := acts + last;
      CountsKeepFirst(w, taken.net, after.net);
      TakenUpFrame(w, cl.net, taken.net, after.net, k);
    } else {
      forall n | n in after.net.nodes ensures Done(after.net, w.Place(n, k)) {
        UnaskedDone(w, start, after, k, n);
      }
    }
    AllFurther(w, cl, after, k);
  }

  lemma {:induction false} ManyComplete(w: Workload, start: Ledger, cl: Cluster, k: nat, time: nat)
    returns (acts: seq<Act>, after: Cluster)
    requires Starts(w, start, cl) && k <= |w.requests|
    ensures Reached(w, cl, acts) == Some(after) && after.net.nodes == cl.net.nodes
    ensures AllBetween(w, after, k) && FirstRounds(w, after.net)
  {
    if k == 0 {
      acts, after := [], cl;
    } else {
      var before;
      acts, before := ManyComplete(w, start, cl, k - 1, time);
      RunKeepsInv(w, start, cl, acts);
      var last;
      last, after := RoundCanComplete(w, start, before, k - 1, time);
      ReachedConcat(w, cl, acts, last);
      acts := acts + last;
    }
  }

  /**
   * Any number of nodes with equal ledgers can serve any sequence of requests with different hashes: there is a
   * run after which every node is done with all of them, and then holds the ledger of the serial run.
   */
  lemma AnyWorkloadServed(w: Workload, start: Ledger, cl: Cluster, time: nat) returns (acts: seq<Act>)
    requires Starts(w, start, cl)
    ensures IsRun(w, cl, acts)
    ensures var after := Reached(w, cl, acts).value;
            && AllBetween(w, after, |w.requests|) && after.ledgers.Keys == cl.ledgers.Keys
            && forall n :: n in after.ledgers ==>
                 Same(after.ledgers[n], Run(w.crypto, start, SoloEvents(w, start, |w.requests|)))
  {
    var after;
    acts, after := ManyComplete(w, start, cl, |w.requests|, time);
    RunKeepsInv(w, start, cl, acts);
    forall n | n in after.ledgers
      ensures Same(after.ledgers[n], Run(w.crypto, start, SoloEvents(w, start, |w.requests|)))
    {
      ReplicasEqual(w, start, cl, acts, n, n, |w.requests|);
    }
  }
}
