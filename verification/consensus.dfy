/**
 * The voting round (src/modules/consensus.rs and the wait in src/modules/validation.rs) as a system of
 * message steps: nodes decide, ask their peers, answer, tally and finish, interleaved in any order, for
 * any number of requests at once and any number of times for one request. Membership is fixed and every
 * message is delivered once.
 */
module Consensus {
  import opened Base

  type NodeId = nat

  // ---------------------------------------------------------------- what one node computes

  datatype Tally = Tally(yes: nat, no: nat)

  /** The yes answers of a tally; none while there is no tally. */
  function Yes(t: Option<Tally>): nat {
    match t case Some(tally) => tally.yes case None => 0
  }

  function No(t: Option<Tally>): nat {
    match t case Some(tally) => tally.no case None => 0
  }

  /** `handle_consensus_response`. */
  function Counted(t: Option<Tally>, vote: bool): Tally {
    if vote then Tally(Yes(t) + 1, No(t)) else Tally(Yes(t), No(t) + 1)
  }

  /** `determine_majority`: the node's own vote counts, and a tie rejects. */
  function Majority(own: bool, t: Option<Tally>): bool {
    Yes(t) + (if own then 1 else 0) > No(t) + if own then 0 else 1
  }

  // ---------------------------------------------------------------- the network

  /** One node's place for one request. */
  datatype Slot = Slot(node: NodeId, hash: Bytes)

  /** A round waits for its peers, has heard enough, has reached its verdict, or never asked. */
  datatype Phase = Waiting | Passed | Finished(verdict: bool) | Abandoned

  /** Messages of a round; its number only tells copies apart, no node ever reads it. */
  datatype Query = Query(from: NodeId, to: NodeId, hash: Bytes, round: nat)

  datatype Answer = Answer(from: NodeId, to: NodeId, hash: Bytes, round: nat, vote: bool)

  /** Votes and tallies are kept per request hash, however many rounds a node runs for it. */
  datatype Net = Net(
    nodes: set<NodeId>,
    votes: map<Slot, bool>,
    tallies: map<Slot, Tally>,
    rounds: map<Slot, seq<Phase>>,
    queries: set<Query>,
    answers: set<Answer>)

  datatype Step =
    /**
     * A node verifies a request on its own, for the first time or again under the same hash; it may record
     * no vote, or record one without asking. An earlier vote is overwritten, the tally is never cleared.
     */
    | Decide(node: NodeId, hash: Bytes, vote: Option<bool>, asks: bool)
    /** A peer reports its recorded vote. */
    | Reply(query: Query)
    | Count(answer: Answer)
    /** The wait of a round ends; its tally is read later, and may have moved by then. */
    | Pass(slot: Slot, round: nat)
    | Finish(slot: Slot, round: nat)

  function InitialNet(nodes: set<NodeId>): Net {
    Net(nodes, map[], map[], map[], {}, {})
  }

  function TallyAt(net: Net, s: Slot): Option<Tally> {
    if s in net.tallies then Some(net.tallies[s]) else None
  }

  /** The answers counted so far, in all rounds together. */
  function Answers(net: Net, s: Slot): nat {
    Yes(TallyAt(net, s)) + No(TallyAt(net, s))
  }

  /** The rounds a node has begun for one hash, in order. */
  function RoundsAt(net: Net, s: Slot): seq<Phase> {
    if s in net.rounds then net.rounds[s] else []
  }

  function Peers(net: Net, s: Slot): nat {
    |net.nodes - {s.node}|
  }

  predicate Enabled(net: Net, step: Step) {
    match step
    case Decide(n, h, vote, asks) => n in net.nodes && (asks ==> vote.Some?)
    case Reply(q) => q in net.queries && Slot(q.to, q.hash) in net.votes
    case Count(a) => a in net.answers
    case Pass(s, i) => i < |RoundsAt(net, s)| && RoundsAt(net, s)[i].Waiting? && Answers(net, s) == Peers(net, s)
    case Finish(s, i) => i < |RoundsAt(net, s)| && RoundsAt(net, s)[i].Passed? && s in net.votes
  }

  function Next(net: Net, step: Step): Net
    requires Enabled(net, step)
  {
    match step
    case Decide(n, h, vote, asks) =>
      var s := Slot(n, h);
      net.(
      votes := if vote.Some? then net.votes[s := vote.value] else net.votes,
      rounds := net.rounds[s := RoundsAt(net, s) + [if asks then Waiting else Abandoned]],
      queries := net.queries + if asks then Asked(net, s) else {})
    case Reply(q) =>
      net.(
      queries := net.queries - {q},
      answers := net.answers + {Answer(q.to, q.from, q.hash, q.round, net.votes[Slot(q.to, q.hash)])})
    case Count(a) =>
      var s := Slot(a.to, a.hash);
      net.(
      answers := net.answers - {a},
      tallies := net.tallies[s := Counted(TallyAt(net, s), a.vote)])
    case Pass(s, i) => Moved(net, s, i, Passed)
    case Finish(s, i) => Moved(net, s, i, Finished(Majority(net.votes[s], TallyAt(net, s))))
  }

  /** The queries a new round sends. */
  function Asked(net: Net, s: Slot): set<Query> {
    set p | p in net.nodes && p != s.node :: Query(s.node, p, s.hash, |RoundsAt(net, s)|)
  }

  function Moved(net: Net, s: Slot, i: nat, phase: Phase): Net
    requires i < |RoundsAt(net, s)|
  {
    net.(rounds := net.rounds[s := RoundsAt(net, s)[i := phase]])
  }

  /** A run is a sequence of steps each enabled where it happens. */
  predicate IsRun(net: Net, steps: seq<Step>) {
    Reached(net, steps).Some?
  }

  /** Where a sequence of steps leads; `None` when some step was not enabled. */
  function Reached(net: Net, steps: seq<Step>): Option<Net> {
    if steps == [] then Some(net)
    else
      match Reached(net, steps[..|steps| - 1])
      case None => None
      case Some(before) =>
        if Enabled(before, steps[|steps| - 1]) then Some(Next(before, steps[|steps| - 1])) else None
  }

  function After(net: Net, steps: seq<Step>): Net
    requires IsRun(net, steps)
  {
    Reached(net, steps).value
  }

  /** The last step of a run starts where the steps before it lead. */
  lemma RunSnoc(net: Net, steps: seq<Step>)
    requires steps != [] && IsRun(net, steps)
    ensures var front, last := steps[..|steps| - 1], steps[|steps| - 1];
            && IsRun(net, front) && Enabled(After(net, front), last)
            && After(net, steps) == Next(After(net, front), last)
  {
  }

  // ---------------------------------------------------------------- first rounds

  /** Every node began at most one round for this hash. */
  ghost predicate Once(net: Net, h: Bytes) {
    forall s: Slot {:trigger RoundsAt(net, s)} :: s.hash == h ==> |RoundsAt(net, s)| <= 1
  }

  predicate Begun(net: Net, s: Slot) {
    RoundsAt(net, s) != []
  }

  predicate Waits(net: Net, s: Slot) {
    Begun(net, s) && RoundsAt(net, s)[0].Waiting?
  }

  predicate HasPassed(net: Net, s: Slot) {
    Begun(net, s) && RoundsAt(net, s)[0].Passed?
  }

  predicate GaveUp(net: Net, s: Slot) {
    Begun(net, s) && RoundsAt(net, s)[0].Abandoned?
  }

  predicate Reported(net: Net, s: Slot, verdict: bool) {
    Begun(net, s) && RoundsAt(net, s)[0] == Finished(verdict)
  }

  /** The peers whose answer to the first round is neither unasked, nor asked for, nor under way. */
  ghost function Heard(net: Net, s: Slot): set<NodeId> {
    set p | p in net.nodes && p != s.node
            && Query(s.node, p, s.hash, 0) !in net.queries
            && Answer(p, s.node, s.hash, 0, true) !in net.answers
            && Answer(p, s.node, s.hash, 0, false) !in net.answers
  }

  ghost predicate Voted(net: Net, p: NodeId, h: Bytes, vote: bool) {
    Slot(p, h) in net.votes && net.votes[Slot(p, h)] == vote
  }

  /** Who among `who` recorded this vote for this request. */
  ghost function Voters(net: Net, h: Bytes, vote: bool, who: set<NodeId>): set<NodeId> {
    set p | p in who && Voted(net, p, h, vote)
  }

  /** The tally of a round is exactly the votes of the peers heard. */
  ghost predicate TallyExact(net: Net, s: Slot) {
    var heard := Heard(net, s);
    && (forall p :: p in heard ==> Slot(p, s.hash) in net.votes)
    && Yes(TallyAt(net, s)) == |Voters(net, s.hash, true, heard)|
    && No(TallyAt(net, s)) == |Voters(net, s.hash, false, heard)|
  }

  /** The network-wide count: a finished round reports it, and only after everybody voted. */
  ghost predicate VerdictExact(net: Net, h: Bytes, verdict: bool) {
    && (forall p :: p in net.nodes ==> Slot(p, h) in net.votes)
    && verdict == (|Voters(net, h, true, net.nodes)| > |Voters(net, h, false, net.nodes)|)
  }

  /** A query is under way only for a waiting round. */
  ghost predicate QueryOk(net: Net, q: Query) {
    q.from in net.nodes && q.to in net.nodes && q.from != q.to && q.round == 0 && Waits(net, Slot(q.from, q.hash))
  }

  /** An answer under way carries the recorded vote, and its query is gone. */
  ghost predicate AnswerOk(net: Net, a: Answer) {
    && a.from in net.nodes && a.to in net.nodes && a.from != a.to && a.round == 0
    && Waits(net, Slot(a.to, a.hash))
    && Voted(net, a.from, a.hash, a.vote)
    && Query(a.to, a.from, a.hash, 0) !in net.queries
  }

  ghost predicate SlotOk(net: Net, s: Slot) {
    && s.node in net.nodes && Begun(net, s)
    && (!GaveUp(net, s) ==> s in net.votes && TallyExact(net, s))
    && (HasPassed(net, s) ==> Heard(net, s) == net.nodes - {s.node})
    && (forall v :: Reported(net, s, v) ==> VerdictExact(net, s.hash, v))
  }

  ghost predicate MessagesExact(net: Net, h: Bytes) {
    && (forall q {:trigger QueryOk(net, q)} :: q in net.queries && q.hash == h ==> QueryOk(net, q))
    && (forall a {:trigger AnswerOk(net, a)} :: a in net.answers && a.hash == h ==> AnswerOk(net, a))
  }

  /** The invariant for a hash used once: tallies, messages and verdicts all agree with the votes. */
  ghost predicate Exact(net: Net, h: Bytes) {
    && Once(net, h)
    && MessagesExact(net, h)
    && (forall s: Slot {:trigger SlotOk(net, s)} :: s.hash == h && Begun(net, s) ==> SlotOk(net, s))
    && (forall s {:trigger s in net.votes} :: s in net.votes && s.hash == h ==> Begun(net, s))
    && (forall s {:trigger s in net.tallies} :: s in net.tallies && s.hash == h ==> Begun(net, s))
  }

  // ---------------------------------------------------------------- counting

  lemma SubsetSize(a: set<NodeId>, b: set<NodeId>)
    requires a <= b
    ensures |a| <= |b|
    ensures |a| == |b| ==> a == b
  {
    assert |b - a| == |b| - |a| by {
      assert b == a + (b - a);
    }
    if |a| == |b| {
      assert b - a == {};
    }
  }

  /** Everybody who voted said either yes or no. */
  lemma VotersPartition(net: Net, h: Bytes, who: set<NodeId>)
    requires forall p :: p in who ==> Slot(p, h) in net.votes
    ensures |Voters(net, h, true, who)| + |Voters(net, h, false, who)| == |who|
  {
    var yes, no := Voters(net, h, true, who), Voters(net, h, false, who);
    assert yes + no == who && yes !! no;
  }

  /** The wait ends exactly when every peer of the round has been heard. */
  lemma AllReceivedIffAllHeard(net: Net, s: Slot)
    requires TallyExact(net, s)
    ensures Answers(net, s) == Peers(net, s) <==> Heard(net, s) == net.nodes - {s.node}
  {
    VotersPartition(net, s.hash, Heard(net, s));
    SubsetSize(Heard(net, s), net.nodes - {s.node});
  }

  lemma VotersWithSelf(net: Net, s: Slot, vote: bool)
    requires s.node in net.nodes && s in net.votes
    ensures |Voters(net, s.hash, vote, net.nodes)|
         == |Voters(net, s.hash, vote, net.nodes - {s.node})| + if net.votes[s] == vote then 1 else 0
  {
    var all, others := Voters(net, s.hash, vote, net.nodes), Voters(net, s.hash, vote, net.nodes - {s.node});
    assert Slot(s.node, s.hash) == s;
    if net.votes[s] == vote {
      assert all == others + {s.node};
    } else {
      assert all == others;
    }
  }

  // ---------------------------------------------------------------- every step keeps the invariant

  /** Votes on this hash are never withdrawn or changed. */
  ghost predicate VotesKept(before: Net, after: Net, h: Bytes) {
    && after.nodes == before.nodes
    && forall t {:trigger t in before.votes} :: t in before.votes && t.hash == h ==>
         t in after.votes && after.votes[t] == before.votes[t]
  }

  lemma HeardFrame(before: Net, after: Net, s: Slot)
    requires after.nodes == before.nodes
    requires forall p :: p in before.nodes && p != s.node ==>
               (p in Heard(before, s) <==> && Query(s.node, p, s.hash, 0) !in after.queries
                                           && Answer(p, s.node, s.hash, 0, true) !in after.answers
                                           && Answer(p, s.node, s.hash, 0, false) !in after.answers)
    ensures Heard(after, s) == Heard(before, s)
  {
  }

  lemma TallyFrame(before: Net, after: Net, s: Slot)
    requires TallyExact(before, s) && VotesKept(before, after, s.hash)
    requires Heard(after, s) == Heard(before, s) && TallyAt(after, s) == TallyAt(before, s)
    ensures TallyExact(after, s)
  {
    var heard := Heard(before, s);
    forall vote ensures Voters(after, s.hash, vote, heard) == Voters(before, s.hash, vote, heard) {
    }
  }

  lemma VerdictFrame(before: Net, after: Net, h: Bytes, verdict: bool)
    requires VerdictExact(before, h, verdict) && VotesKept(before, after, h)
    ensures VerdictExact(after, h, verdict)
  {
    forall vote ensures Voters(after, h, vote, after.nodes) == Voters(before, h, vote, before.nodes) {
    }
  }

  /** A round no message of which moved stays as it was. */
  lemma SlotFrame(before: Net, after: Net, s: Slot)
    requires SlotOk(before, s) && VotesKept(before, after, s.hash)
    requires RoundsAt(after, s) == RoundsAt(before, s)
    requires Heard(after, s) == Heard(before, s) && TallyAt(after, s) == TallyAt(before, s)
    ensures SlotOk(after, s)
  {
    if !GaveUp(before, s) {
      TallyFrame(before, after, s);
    }
    forall v | Reported(after, s, v) ensures VerdictExact(after, s.hash, v) {
      VerdictFrame(before, after, s.hash, v);
    }
  }

  lemma AnswerFrame(before: Net, after: Net, a: Answer)
    requires AnswerOk(before, a) && VotesKept(before, after, a.hash)
    requires Waits(after, Slot(a.to, a.hash))
    requires Query(a.to, a.from, a.hash, 0) !in after.queries
    ensures AnswerOk(after, a)
  {
  }

  // Decide

  /** A hash used once was not decided on by this node before. */
  lemma DecideIsFirst(net: Net, step: Step)
    requires step.Decide? && Exact(net, step.hash) && Enabled(net, step) && Once(Next(net, step), step.hash)
    ensures var me := Slot(step.node, step.hash);
            RoundsAt(net, me) == [] && me !in net.votes && me !in net.tallies
  {
    assert |RoundsAt(Next(net, step), Slot(step.node, step.hash))| <= 1;
  }

  lemma DecideStartsUnheard(net: Net, step: Step)
    requires step.Decide? && Exact(net, step.hash) && Enabled(net, step) && Once(Next(net, step), step.hash)
    ensures SlotOk(Next(net, step), Slot(step.node, step.hash))
  {
    var after, me := Next(net, step), Slot(step.node, step.hash);
    DecideIsFirst(net, step);
    if step.asks {
      assert Heard(after, me) == {};
    }
  }

  lemma DecideKeepsOthers(net: Net, step: Step, s: Slot)
    requires Exact(net, s.hash) && Enabled(net, step) && step.Decide? && Once(Next(net, step), s.hash)
    requires Begun(net, s)
    ensures SlotOk(Next(net, step), s)
  {
    var after, me := Next(net, step), Slot(step.node, step.hash);
    assert SlotOk(net, s);
    if step.hash == s.hash {
      DecideIsFirst(net, step);
    }
    HeardFrame(net, after, s);
    SlotFrame(net, after, s);
  }

  lemma DecideKeepsMessages(net: Net, step: Step, h: Bytes)
    requires Exact(net, h) && Enabled(net, step) && step.Decide? && Once(Next(net, step), h)
    ensures MessagesExact(Next(net, step), h)
  {
    var after, me := Next(net, step), Slot(step.node, step.hash);
    if step.hash == h {
      DecideIsFirst(net, step);
    }
    forall q | q in after.queries && q.hash == h ensures QueryOk(after, q) {
      if q in net.queries {
        assert QueryOk(net, q);
      }
    }
    forall a | a in after.answers && a.hash == h ensures AnswerOk(after, a) {
      assert AnswerOk(net, a);
      AnswerFrame(net, after, a);
    }
  }

  lemma DecideKeepsExact(net: Net, step: Step, h: Bytes)
    requires Exact(net, h) && Enabled(net, step) && step.Decide? && Once(Next(net, step), h)
    ensures Exact(Next(net, step), h)
  {
    DecideKeepsMessages(net, step, h);
    var after, me := Next(net, step), Slot(step.node, step.hash);
    forall s: Slot | s.hash == h && Begun(after, s) ensures SlotOk(after, s) {
      if s == me {
        DecideStartsUnheard(net, step);
      } else {
        assert RoundsAt(after, s) == RoundsAt(net, s);
        DecideKeepsOthers(net, step, s);
      }
    }
  }

  // Reply

  lemma ReplyKeepsSlot(net: Net, step: Step, s: Slot)
    requires Exact(net, s.hash) && Enabled(net, step) && step.Reply? && Begun(net, s)
    ensures SlotOk(Next(net, step), s)
  {
    assert SlotOk(net, s);
    if step.query.hash == s.hash {
      assert QueryOk(net, step.query);
    }
    HeardFrame(net, Next(net, step), s);
    SlotFrame(net, Next(net, step), s);
  }

  lemma ReplyKeepsExact(net: Net, step: Step, h: Bytes)
    requires Exact(net, h) && Enabled(net, step) && step.Reply?
    ensures Exact(Next(net, step), h)
  {
    var after := Next(net, step);
    assert forall s :: RoundsAt(after, s) == RoundsAt(net, s);
    if step.query.hash == h {
      assert QueryOk(net, step.query);
    }
    forall q | q in after.queries && q.hash == h ensures QueryOk(after, q) {
      assert QueryOk(net, q);
    }
    forall a | a in after.answers && a.hash == h ensures AnswerOk(after, a) {
      if a in net.answers {
        assert AnswerOk(net, a);
      }
    }
    forall s: Slot | s.hash == h && Begun(after, s) ensures SlotOk(after, s) {
      ReplyKeepsSlot(net, step, s);
    }
  }

  // Count

  lemma HeardAfterCount(net: Net, a: Answer)
    requires Exact(net, a.hash) && a in net.answers
    ensures Heard(Next(net, Count(a)), Slot(a.to, a.hash)) == Heard(net, Slot(a.to, a.hash)) + {a.from}
    ensures a.from !in Heard(net, Slot(a.to, a.hash))
  {
    assert AnswerOk(net, a);
    var other := a.(vote := !a.vote);
    assert other in net.answers ==> AnswerOk(net, other);
    var after, s := Next(net, Count(a)), Slot(a.to, a.hash);
    forall p ensures p in Heard(after, s) <==> p in Heard(net, s) + {a.from} {
    }
  }

  lemma VotersAfterCount(net: Net, a: Answer, vote: bool)
    requires Exact(net, a.hash) && a in net.answers
    ensures var after, s := Next(net, Count(a)), Slot(a.to, a.hash);
            |Voters(after, a.hash, vote, Heard(after, s))|
            == |Voters(net, a.hash, vote, Heard(net, s))| + if a.vote == vote then 1 else 0
  {
    HeardAfterCount(net, a);
    assert AnswerOk(net, a);
    var after, s := Next(net, Count(a)), Slot(a.to, a.hash);
    var now, was := Voters(after, a.hash, vote, Heard(after, s)), Voters(net, a.hash, vote, Heard(net, s));
    if a.vote == vote {
      assert now == was + {a.from};
    } else {
      assert now == was;
    }
  }

  /** Counting an answer moves its sender from pending to heard and its vote into the tally. */
  lemma CountIsExact(net: Net, a: Answer)
    requires Exact(net, a.hash) && a in net.answers
    ensures SlotOk(Next(net, Count(a)), Slot(a.to, a.hash))
  {
    assert AnswerOk(net, a);
    assert SlotOk(net, Slot(a.to, a.hash));
    HeardAfterCount(net, a);
    VotersAfterCount(net, a, true);
    VotersAfterCount(net, a, false);
  }

  lemma CountKeepsOthers(net: Net, a: Answer, s: Slot)
    requires Exact(net, s.hash) && a in net.answers && Begun(net, s) && s != Slot(a.to, a.hash)
    ensures SlotOk(Next(net, Count(a)), s)
  {
    assert SlotOk(net, s);
    HeardFrame(net, Next(net, Count(a)), s);
    SlotFrame(net, Next(net, Count(a)), s);
  }

  lemma CountKeepsExact(net: Net, step: Step, h: Bytes)
    requires Exact(net, h) && Enabled(net, step) && step.Count?
    ensures Exact(Next(net, step), h)
  {
    var after, a := Next(net, step), step.answer;
    assert forall s :: RoundsAt(after, s) == RoundsAt(net, s);
    if a.hash == h {
      assert AnswerOk(net, a);
    }
    forall q | q in after.queries && q.hash == h ensures QueryOk(after, q) {
      assert QueryOk(net, q);
    }
    forall b | b in after.answers && b.hash == h ensures AnswerOk(after, b) {
      assert AnswerOk(net, b);
    }
    forall s: Slot | s.hash == h && Begun(after, s) ensures SlotOk(after, s) {
      if s == Slot(a.to, a.hash) {
        CountIsExact(net, a);
      } else {
        CountKeepsOthers(net, a, s);
      }
    }
  }

  // Pass and Finish

  /** Own vote plus tally is the network-wide count once everybody was heard. */
  lemma MajorityOfAll(net: Net, s: Slot)
    requires s in net.votes && s.node in net.nodes && TallyExact(net, s)
    requires Heard(net, s) == net.nodes - {s.node}
    ensures VerdictExact(net, s.hash, Majority(net.votes[s], TallyAt(net, s)))
  {
    VotersWithSelf(net, s, true);
    VotersWithSelf(net, s, false);
    forall p | p in net.nodes ensures Slot(p, s.hash) in net.votes {
      if p == s.node {
        assert Slot(p, s.hash) == s;
      } else {
        assert p in Heard(net, s);
      }
    }
  }

  /** No query or answer of this place is under way. */
  ghost predicate Quiet(net: Net, s: Slot) {
    && (forall q :: q in net.queries ==> Slot(q.from, q.hash) != s)
    && (forall a :: a in net.answers ==> Slot(a.to, a.hash) != s)
  }

  /** A first round all of whose peers were heard has no message left under way. */
  lemma NothingUnderWay(net: Net, s: Slot)
    requires MessagesExact(net, s.hash) && Heard(net, s) == net.nodes - {s.node}
    ensures Quiet(net, s)
  {
    forall q | q in net.queries ensures Slot(q.from, q.hash) != s {
      if q.hash == s.hash {
        assert QueryOk(net, q);
        assert q.to !in Heard(net, Slot(q.from, q.hash));
        assert q.to in net.nodes - {q.from};
      }
    }
    forall a | a in net.answers ensures Slot(a.to, a.hash) != s {
      if a.hash == s.hash {
        assert AnswerOk(net, a);
        assert a.from !in Heard(net, Slot(a.to, a.hash));
        assert a.from in net.nodes - {a.to};
      }
    }
  }

  lemma MoveKeepsOthers(net: Net, me: Slot, i: nat, phase: Phase, s: Slot)
    requires SlotOk(net, s) && s != me && i < |RoundsAt(net, me)|
    ensures SlotOk(Moved(net, me, i, phase), s)
  {
    HeardFrame(net, Moved(net, me, i, phase), s);
    SlotFrame(net, Moved(net, me, i, phase), s);
  }

  lemma MoveKeepsMessages(net: Net, me: Slot, i: nat, phase: Phase, h: Bytes)
    requires MessagesExact(net, h) && (me.hash == h ==> Quiet(net, me)) && i < |RoundsAt(net, me)|
    ensures MessagesExact(Moved(net, me, i, phase), h)
  {
    var after := Moved(net, me, i, phase);
    forall q | q in after.queries && q.hash == h ensures QueryOk(after, q) {
      assert QueryOk(net, q);
      assert RoundsAt(after, Slot(q.from, q.hash)) == RoundsAt(net, Slot(q.from, q.hash));
    }
    forall a | a in after.answers && a.hash == h ensures AnswerOk(after, a) {
      assert AnswerOk(net, a);
      assert RoundsAt(after, Slot(a.to, a.hash)) == RoundsAt(net, Slot(a.to, a.hash));
      AnswerFrame(net, after, a);
    }
  }

  /** A round moves on, with nothing under way and in good order. */
  lemma MoveKeepsExact(net: Net, me: Slot, i: nat, phase: Phase, h: Bytes)
    requires Exact(net, h) && i < |RoundsAt(net, me)|
    requires me.hash == h ==> Quiet(net, me) && SlotOk(Moved(net, me, i, phase), me)
    ensures Exact(Moved(net, me, i, phase), h)
  {
    var after := Moved(net, me, i, phase);
    MoveKeepsMessages(net, me, i, phase, h);
    assert forall s :: |RoundsAt(after, s)| == |RoundsAt(net, s)|;
    forall s: Slot | s.hash == h && Begun(after, s) ensures SlotOk(after, s) {
      assert SlotOk(net, s);
      if s != me {
        MoveKeepsOthers(net, me, i, phase, s);
      }
    }
  }

  lemma PassedSlot(net: Net, s: Slot)
    requires SlotOk(net, s) && Waits(net, s) && Answers(net, s) == Peers(net, s)
    ensures Heard(net, s) == net.nodes - {s.node}
    ensures SlotOk(Moved(net, s, 0, Passed), s)
  {
    var after := Moved(net, s, 0, Passed);
    AllReceivedIffAllHeard(net, s);
    HeardFrame(net, after, s);
    TallyFrame(net, after, s);
  }

  lemma FinishedSlot(net: Net, s: Slot)
    requires SlotOk(net, s) && HasPassed(net, s)
    ensures VerdictExact(net, s.hash, Majority(net.votes[s], TallyAt(net, s)))
    ensures SlotOk(Moved(net, s, 0, Finished(Majority(net.votes[s], TallyAt(net, s)))), s)
  {
    var verdict := Majority(net.votes[s], TallyAt(net, s));
    var after := Moved(net, s, 0, Finished(verdict));
    MajorityOfAll(net, s);
    HeardFrame(net, after, s);
    TallyFrame(net, after, s);
    VerdictFrame(net, after, s.hash, verdict);
  }

  lemma PassEffect(net: Net, s: Slot, i: nat)
    requires Enabled(net, Pass(s, i))
    ensures i < |RoundsAt(net, s)| && RoundsAt(net, s)[i].Waiting? && Answers(net, s) == Peers(net, s)
    ensures Next(net, Pass(s, i)) == Moved(net, s, i, Passed)
  {
  }

  lemma FinishEffect(net: Net, s: Slot, i: nat)
    requires Enabled(net, Finish(s, i))
    ensures i < |RoundsAt(net, s)| && RoundsAt(net, s)[i].Passed? && s in net.votes
    ensures Next(net, Finish(s, i)) == Moved(net, s, i, Finished(Majority(net.votes[s], TallyAt(net, s))))
  {
  }

  lemma OnlyRound(net: Net, s: Slot, i: nat)
    requires Exact(net, s.hash) && i < |RoundsAt(net, s)|
    ensures i == 0 && Begun(net, s) && SlotOk(net, s)
  {
    assert |RoundsAt(net, s)| <= 1;
  }

  lemma PassKeepsExact(net: Net, s: Slot, i: nat, h: Bytes)
    requires Exact(net, h) && Enabled(net, Pass(s, i))
    ensures Exact(Next(net, Pass(s, i)), h)
  {
    PassEffect(net, s, i);
    if s.hash == h {
      OnlyRound(net, s, i);
      PassedSlot(net, s);
      NothingUnderWay(net, s);
    }
    MoveKeepsExact(net, s, i, Passed, h);
  }

  /** A round of a hash used once reads a tally that no longer moves. */
  lemma FinishOfOnce(net: Net, s: Slot, i: nat)
    requires Exact(net, s.hash) && Enabled(net, Finish(s, i))
    ensures i == 0 && HasPassed(net, s) && Quiet(net, s) && s in net.votes
    ensures VerdictExact(net, s.hash, Majority(net.votes[s], TallyAt(net, s)))
    ensures SlotOk(Moved(net, s, 0, Finished(Majority(net.votes[s], TallyAt(net, s)))), s)
  {
    FinishEffect(net, s, i);
    OnlyRound(net, s, i);
    NothingUnderWay(net, s);
    FinishedSlot(net, s);
  }

  lemma FinishKeepsExact(net: Net, s: Slot, i: nat, h: Bytes)
    requires Exact(net, h) && Enabled(net, Finish(s, i))
    ensures Exact(Next(net, Finish(s, i)), h)
  {
    FinishEffect(net, s, i);
    if s.hash == h {
      FinishOfOnce(net, s, i);
    }
    MoveKeepsExact(net, s, i, Finished(Majority(net.votes[s], TallyAt(net, s))), h);
  }

  /** Every step keeps the invariant of every hash that is used once. */
  lemma StepKeepsExact(net: Net, step: Step, h: Bytes)
    requires Exact(net, h) && Enabled(net, step) && Once(Next(net, step), h)
    ensures Exact(Next(net, step), h)
  {
    match step
    case Decide(_, _, _, _) => DecideKeepsExact(net, step, h);
    case Reply(_) => ReplyKeepsExact(net, step, h);
    case Count(_) => CountKeepsExact(net, step, h);
    case Pass(s, i) => PassKeepsExact(net, s, i, h);
    case Finish(s, i) => FinishKeepsExact(net, s, i, h);
  }

  lemma DecideRounds(net: Net, step: Step, s: Slot)
    requires Enabled(net, step) && step.Decide?
    ensures RoundsAt(Next(net, step), s)
         == RoundsAt(net, s)
            + if s == Slot(step.node, step.hash) then [if step.asks then Waiting else Abandoned] else []
  {
  }

  lemma MovedRounds(net: Net, t: Slot, i: nat, phase: Phase, s: Slot)
    requires i < |RoundsAt(net, t)|
    ensures |RoundsAt(Moved(net, t, i, phase), s)| == |RoundsAt(net, s)|
    ensures s != t ==> RoundsAt(Moved(net, t, i, phase), s) == RoundsAt(net, s)
    ensures s == t ==> RoundsAt(Moved(net, t, i, phase), s) == RoundsAt(net, s)[i := phase]
  {
  }

  /** Passing and finishing move one round of one node on. */
  lemma StepMoves(net: Net, step: Step) returns (phase: Phase)
    requires Enabled(net, step) && (step.Pass? || step.Finish?)
    ensures step.round < |RoundsAt(net, step.slot)| && !phase.Waiting? && !phase.Abandoned?
    ensures RoundsAt(net, step.slot)[step.round] == if step.Pass? then Waiting else Passed
    ensures Next(net, step) == Moved(net, step.slot, step.round, phase)
  {
    if step.Pass? {
      PassEffect(net, step.slot, step.round);
      phase := Passed;
    } else {
      FinishEffect(net, step.slot, step.round);
      phase := Finished(Majority(net.votes[step.slot], TallyAt(net, step.slot)));
    }
  }

  lemma MessageRounds(net: Net, step: Step, s: Slot)
    requires Enabled(net, step) && (step.Reply? || step.Count?)
    ensures RoundsAt(Next(net, step), s) == RoundsAt(net, s)
  {
  }

  lemma RoundsGrow(net: Net, step: Step, s: Slot)
    requires Enabled(net, step)
    ensures |RoundsAt(net, s)| <= |RoundsAt(Next(net, step), s)|
  {
    if step.Decide? {
      DecideRounds(net, step, s);
    } else if step.Pass? || step.Finish? {
      var phase := StepMoves(net, step);
      MovedRounds(net, step.slot, step.round, phase, s);
    } else {
      MessageRounds(net, step, s);
    }
  }

  /** Rounds are never forgotten, so a hash used once was used once all along. */
  lemma OnceBefore(net: Net, step: Step, h: Bytes)
    requires Enabled(net, step) && Once(Next(net, step), h)
    ensures Once(net, h)
  {
    forall s: Slot | s.hash == h ensures |RoundsAt(net, s)| <= 1 {
      RoundsGrow(net, step, s);
    }
  }

  lemma {:induction false} RunKeepsExact(nodes: set<NodeId>, steps: seq<Step>, h: Bytes)
    requires IsRun(InitialNet(nodes), steps) && Once(After(InitialNet(nodes), steps), h)
    ensures Exact(After(InitialNet(nodes), steps), h)
    decreases |steps|
  {
    if steps != [] {
      var before, last := After(InitialNet(nodes), steps[..|steps| - 1]), steps[|steps| - 1];
      OnceBefore(before, last, h);
      RunKeepsExact(nodes, steps[..|steps| - 1], h);
      StepKeepsExact(before, last, h);
    }
  }

  // ---------------------------------------------------------------- main results on first rounds

  /**
   * In every reachable state, all nodes that finished a round for one request hold the same verdict, if no
   * node has decided on it twice; other requests may have been repeated. See `RepeatedRounds` for what a
   * repeated request does.
   */
  lemma Agreement(nodes: set<NodeId>, steps: seq<Step>, s: Slot, t: Slot, v: bool, w: bool)
    requires IsRun(InitialNet(nodes), steps) && s.hash == t.hash
    requires var net := After(InitialNet(nodes), steps);
             Once(net, s.hash) && Reported(net, s, v) && Reported(net, t, w)
    ensures v == w
  {
    VerdictIsNetworkMajority(nodes, steps, s, v);
    VerdictIsNetworkMajority(nodes, steps, t, w);
  }

  /** A verdict is the strict majority of all recorded votes, and there is none before everybody voted. */
  lemma VerdictIsNetworkMajority(nodes: set<NodeId>, steps: seq<Step>, s: Slot, verdict: bool)
    requires IsRun(InitialNet(nodes), steps)
    requires Once(After(InitialNet(nodes), steps), s.hash) && Reported(After(InitialNet(nodes), steps), s, verdict)
    ensures var net := After(InitialNet(nodes), steps);
            && (forall p :: p in net.nodes ==> Slot(p, s.hash) in net.votes)
            && (verdict <==> |Voters(net, s.hash, true, net.nodes)| > |Voters(net, s.hash, false, net.nodes)|)
  {
    RunKeepsExact(nodes, steps, s.hash);
    assert SlotOk(After(InitialNet(nodes), steps), s);
  }

  lemma QuietHeardAll(net: Net, s: Slot)
    requires Quiet(net, s)
    ensures Heard(net, s) == net.nodes - {s.node}
  {
    forall p | p in net.nodes - {s.node} ensures p in Heard(net, s) {
      assert Slot(Query(s.node, p, s.hash, 0).from, s.hash) == s;
      assert Slot(Answer(p, s.node, s.hash, 0, true).to, s.hash) == s;
    }
  }
}
