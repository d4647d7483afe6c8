/**
 * What the voting round does when a request hash is decided on again, as every second faucet request of an
 * account is: tallies are never cleared and answers of all rounds run together. Nothing here assumes that
 * a hash is used once.
 */
module RepeatedRounds {
  import opened Base
  import opened Consensus

  // ---------------------------------------------------------------- every answer is accounted for

  predicate DecidesAt(step: Step, s: Slot) {
    step.Decide? && Slot(step.node, step.hash) == s
  }

  /** The queries of one node for one hash that are under way. */
  function QueriesOf(net: Net, s: Slot): set<Query> {
    set q | q in net.queries && Slot(q.from, q.hash) == s
  }

  /** The answers under way to one node for one hash. */
  function AnswersTo(net: Net, s: Slot): set<Answer> {
    set a | a in net.answers && Slot(a.to, a.hash) == s
  }

  function UnderWay(net: Net, s: Slot): nat {
    |QueriesOf(net, s)| + |AnswersTo(net, s)|
  }

  /** How many of the rounds asked their peers. */
  function Asking(rounds: seq<Phase>): nat {
    if rounds == [] then 0
    else Asking(rounds[..|rounds| - 1]) + if rounds[|rounds| - 1].Abandoned? then 0 else 1
  }

  /** The queries sent in all rounds together, by a node with this many peers. */
  function Sent(rounds: seq<Phase>, peers: nat): nat {
    if rounds == [] then 0
    else Sent(rounds[..|rounds| - 1], peers) + if rounds[|rounds| - 1].Abandoned? then 0 else peers
  }

  lemma {:induction false} SentIsProduct(rounds: seq<Phase>, peers: nat)
    ensures Sent(rounds, peers) == Asking(rounds) * peers
    decreases |rounds|
  {
    if rounds != [] {
      SentIsProduct(rounds[..|rounds| - 1], peers);
    }
  }

  lemma SentSnoc(rounds: seq<Phase>, p: Phase, peers: nat)
    ensures Sent(rounds + [p], peers) == Sent(rounds, peers) + if p.Abandoned? then 0 else peers
  {
    assert (rounds + [p])[..|rounds|] == rounds;
  }

  lemma {:induction false} SentUpdate(rounds: seq<Phase>, i: nat, p: Phase, peers: nat)
    requires i < |rounds| && !rounds[i].Abandoned? && !p.Abandoned?
    ensures Sent(rounds[i := p], peers) == Sent(rounds, peers) && Asking(rounds) >= 1
    decreases |rounds|
  {
    var last := |rounds| - 1;
    if i < last {
      SentUpdate(rounds[..last], i, p, peers);
      assert rounds[i := p][..last] == rounds[..last][i := p];
    } else {
      assert rounds[i := p][..last] == rounds[..last];
    }
  }

  /** Copies of a message are told apart by their rounds, and a query under way has no answer yet. */
  ghost predicate Tagged(net: Net) {
    && (forall q {:trigger q in net.queries} :: q in net.queries ==>
          && q.round < |RoundsAt(net, Slot(q.from, q.hash))|
          && forall v :: Answer(q.to, q.from, q.hash, q.round, v) !in net.answers)
    && (forall a {:trigger a in net.answers} :: a in net.answers ==> a.round < |RoundsAt(net, Slot(a.to, a.hash))|)
  }

  predicate WaitOver(phase: Phase) {
    phase.Passed? || phase.Finished?
  }

  /** Each asking round sent one query to every peer; each is under way, answered or counted. */
  ghost predicate SlotAccounted(net: Net, s: Slot) {
    && UnderWay(net, s) + Answers(net, s) == Sent(RoundsAt(net, s), Peers(net, s))
    && forall i :: 0 <= i < |RoundsAt(net, s)| && WaitOver(RoundsAt(net, s)[i]) ==> Answers(net, s) >= Peers(net, s)
  }

  ghost predicate Accounted(net: Net) {
    Tagged(net) && forall s {:trigger SlotAccounted(net, s)} :: SlotAccounted(net, s)
  }

  lemma StepKeepsTagged(net: Net, step: Step)
    requires Tagged(net) && Enabled(net, step)
    ensures Tagged(Next(net, step))
  {
    var after := Next(net, step);
    forall s ensures |RoundsAt(net, s)| <= |RoundsAt(after, s)| {
      RoundsGrow(net, step, s);
    }
    if step.Decide? {
      DecideRounds(net, step, Slot(step.node, step.hash));
    } else if step.Pass? || step.Finish? {
      var phase := StepMoves(net, step);
    }
  }

  lemma SendingOne(net: Net, s: Slot, peers: set<NodeId>, round: nat)
    ensures |set p | p in peers :: Query(s.node, p, s.hash, round)| == |peers|
  {
    if peers != {} {
      var p :| p in peers;
      var rest := peers - {p};
      SendingOne(net, s, rest, round);
      assert (set q | q in peers :: Query(s.node, q, s.hash, round))
          == (set q | q in rest :: Query(s.node, q, s.hash, round)) + {Query(s.node, p, s.hash, round)};
    }
  }

  /** A new round's queries are one per peer, and unlike all those still under way. */
  lemma AskedAdds(net: Net, s: Slot)
    requires Tagged(net)
    ensures |QueriesOf(net, s) + Asked(net, s)| == |QueriesOf(net, s)| + Peers(net, s)
  {
    var i := |RoundsAt(net, s)|;
    SendingOne(net, s, net.nodes - {s.node}, i);
    assert Asked(net, s) == set p | p in net.nodes - {s.node} :: Query(s.node, p, s.hash, i);
    assert QueriesOf(net, s) !! Asked(net, s) by {
      forall q | q in QueriesOf(net, s) ensures q.round != i {
        assert q in net.queries;
      }
    }
  }

  lemma DecideMessages(net: Net, step: Step, s: Slot)
    requires Enabled(net, step) && step.Decide?
    ensures AnswersTo(Next(net, step), s) == AnswersTo(net, s)
    ensures QueriesOf(Next(net, step), s)
         == QueriesOf(net, s) + if DecidesAt(step, s) && step.asks then Asked(net, s) else {}
  {
  }

  lemma DecideAccounted(net: Net, step: Step, s: Slot)
    requires Accounted(net) && Enabled(net, step) && step.Decide?
    ensures SlotAccounted(Next(net, step), s)
  {
    assert SlotAccounted(net, s);
    DecideMessages(net, step, s);
    AskedAdds(net, s);
    DecideRounds(net, step, s);
    assert TallyAt(Next(net, step), s) == TallyAt(net, s) && Peers(Next(net, step), s) == Peers(net, s);
    MoreRounds(net, Next(net, step), s, if step.asks then Waiting else Abandoned);
  }

  lemma MoreRounds(net: Net, after: Net, s: Slot, p: Phase)
    requires SlotAccounted(net, s) && !WaitOver(p)
    requires TallyAt(after, s) == TallyAt(net, s) && Peers(after, s) == Peers(net, s)
    requires RoundsAt(after, s) == RoundsAt(net, s)
             || (RoundsAt(after, s) == RoundsAt(net, s) + [p]
                 && UnderWay(after, s) == UnderWay(net, s) + if p.Waiting? then Peers(net, s) else 0)
    requires RoundsAt(after, s) == RoundsAt(net, s) ==> UnderWay(after, s) == UnderWay(net, s)
    ensures SlotAccounted(after, s)
  {
    if RoundsAt(after, s) != RoundsAt(net, s) {
      SentSnoc(RoundsAt(net, s), p, Peers(net, s));
      forall i | 0 <= i < |RoundsAt(after, s)| && WaitOver(RoundsAt(after, s)[i])
        ensures Answers(after, s) >= Peers(after, s)
      {
        assert WaitOver(RoundsAt(net, s)[i]);
      }
    }
  }

  lemma ReplyMessages(net: Net, q: Query, s: Slot)
    requires Tagged(net) && Enabled(net, Reply(q))
    ensures UnderWay(Next(net, Reply(q)), s) == UnderWay(net, s)
  {
    var after := Next(net, Reply(q));
    var a := Answer(q.to, q.from, q.hash, q.round, net.votes[Slot(q.to, q.hash)]);
    assert a !in net.answers;
    if s == Slot(q.from, q.hash) {
      assert QueriesOf(after, s) == QueriesOf(net, s) - {q};
      assert AnswersTo(after, s) == AnswersTo(net, s) + {a};
    } else {
      assert QueriesOf(after, s) == QueriesOf(net, s) && AnswersTo(after, s) == AnswersTo(net, s);
    }
  }

  lemma ReplyAccounted(net: Net, step: Step, s: Slot)
    requires Tagged(net) && SlotAccounted(net, s) && Enabled(net, step) && step.Reply?
    ensures SlotAccounted(Next(net, step), s)
  {
    ReplyMessages(net, step.query, s);
    MessageRounds(net, step, s);
  }

  lemma CountAccounted(net: Net, step: Step, s: Slot)
    requires Accounted(net) && Enabled(net, step) && step.Count?
    ensures SlotAccounted(Next(net, step), s)
  {
    var after, a := Next(net, step), step.answer;
    assert SlotAccounted(net, s);
    MessageRounds(net, step, s);
    assert QueriesOf(after, s) == QueriesOf(net, s);
    if s == Slot(a.to, a.hash) {
      assert AnswersTo(after, s) == AnswersTo(net, s) - {a};
    } else {
      assert AnswersTo(after, s) == AnswersTo(net, s);
    }
  }

  lemma MoveAccountedHere(net: Net, s: Slot, i: nat, phase: Phase)
    requires SlotAccounted(net, s) && i < |RoundsAt(net, s)| && !RoundsAt(net, s)[i].Abandoned? && !phase.Abandoned?
    requires Answers(net, s) >= Peers(net, s)
    ensures SlotAccounted(Moved(net, s, i, phase), s)
  {
    var after := Moved(net, s, i, phase);
    assert QueriesOf(after, s) == QueriesOf(net, s) && AnswersTo(after, s) == AnswersTo(net, s);
    MovedRounds(net, s, i, phase, s);
    SentUpdate(RoundsAt(net, s), i, phase, Peers(net, s));
  }

  lemma MoveAccountedElsewhere(net: Net, t: Slot, i: nat, phase: Phase, s: Slot)
    requires SlotAccounted(net, s) && i < |RoundsAt(net, t)| && s != t
    ensures SlotAccounted(Moved(net, t, i, phase), s)
  {
    var after := Moved(net, t, i, phase);
    assert QueriesOf(after, s) == QueriesOf(net, s) && AnswersTo(after, s) == AnswersTo(net, s);
    MovedRounds(net, t, i, phase, s);
  }

  /** A round passes with one answer of each peer at least, and those are still there when it finishes. */
  lemma MovesWithAnswers(net: Net, step: Step)
    requires Enabled(net, step) && (step.Pass? || step.Finish?) && SlotAccounted(net, step.slot)
    ensures Answers(net, step.slot) >= Peers(net, step.slot)
  {
    if step.Pass? {
      PassEffect(net, step.slot, step.round);
    } else {
      FinishEffect(net, step.slot, step.round);
      assert WaitOver(RoundsAt(net, step.slot)[step.round]);
    }
  }

  lemma MoveAccounted(net: Net, step: Step, s: Slot)
    requires Enabled(net, step) && (step.Pass? || step.Finish?)
    requires SlotAccounted(net, s) && SlotAccounted(net, step.slot)
    ensures SlotAccounted(Next(net, step), s)
  {
    var phase := StepMoves(net, step);
    MovesWithAnswers(net, step);
    if s == step.slot {
      MoveAccountedHere(net, s, step.round, phase);
    } else {
      MoveAccountedElsewhere(net, step.slot, step.round, phase, s);
    }
  }

  lemma StepKeepsAccounted(net: Net, step: Step)
    requires Accounted(net) && Enabled(net, step)
    ensures Accounted(Next(net, step))
  {
    StepKeepsTagged(net, step);
    forall s ensures SlotAccounted(Next(net, step), s) {
      assert SlotAccounted(net, s);
      match step
      case Decide(_, _, _, _) => DecideAccounted(net, step, s);
      case Reply(_) => ReplyAccounted(net, step, s);
      case Count(_) => CountAccounted(net, step, s);
      case Pass(t, i) =>
        assert SlotAccounted(net, t);
        MoveAccounted(net, step, s);
      case Finish(t, i) =>
        assert SlotAccounted(net, t);
        MoveAccounted(net, step, s);
    }
  }

  /**
   * In every reachable state, however often hashes were repeated, the answers counted for one node and hash
   * and the messages still under way make up one per peer for each round that asked.
   */
  lemma {:induction false} AnswersAccounted(nodes: set<NodeId>, steps: seq<Step>)
    requires IsRun(InitialNet(nodes), steps)
    ensures Accounted(After(InitialNet(nodes), steps))
    decreases |steps|
  {
    if steps == [] {
      var net := InitialNet(nodes);
      forall s ensures SlotAccounted(net, s) {
        assert QueriesOf(net, s) == {} && AnswersTo(net, s) == {};
      }
    } else {
      AnswersAccounted(nodes, steps[..|steps| - 1]);
      StepKeepsAccounted(After(InitialNet(nodes), steps[..|steps| - 1]), steps[|steps| - 1]);
    }
  }

  // ---------------------------------------------------------------- when a wait ends

  /**
   * The wait of a round can end exactly when the messages still under way are those of all asking rounds but
   * one: when none is, for a hash used once.
   */
  lemma PassesIff(nodes: set<NodeId>, steps: seq<Step>, s: Slot, i: nat)
    requires IsRun(InitialNet(nodes), steps)
    requires var net := After(InitialNet(nodes), steps);
             i < |RoundsAt(net, s)| && RoundsAt(net, s)[i].Waiting?
    ensures var net := After(InitialNet(nodes), steps);
            var asking := Asking(RoundsAt(net, s));
            && asking >= 1
            && (Enabled(net, Pass(s, i)) <==> UnderWay(net, s) == (asking - 1) * Peers(net, s))
  {
    AnswersAccounted(nodes, steps);
    assert SlotAccounted(After(InitialNet(nodes), steps), s);
    WaitingEndsIff(After(InitialNet(nodes), steps), s, i);
  }

  lemma WaitingEndsIff(net: Net, s: Slot, i: nat)
    requires SlotAccounted(net, s) && i < |RoundsAt(net, s)| && RoundsAt(net, s)[i].Waiting?
    ensures var asking := Asking(RoundsAt(net, s));
            && asking >= 1
            && (Enabled(net, Pass(s, i)) <==> UnderWay(net, s) == (asking - 1) * Peers(net, s))
  {
    var rounds, peers := RoundsAt(net, s), Peers(net, s);
    SentUpdate(rounds, i, Waiting, peers);
    SentIsProduct(rounds, peers);
    OneRoundLess(Asking(rounds), peers);
  }

  lemma OneRoundLess(asking: nat, peers: nat)
    requires asking >= 1
    ensures asking * peers == (asking - 1) * peers + peers
  {
  }

  /** A node that asks has recorded a vote of its own. */
  ghost predicate AskersVoted(net: Net) {
    forall s, i {:trigger RoundsAt(net, s)[i]} ::
      0 <= i < |RoundsAt(net, s)| && !RoundsAt(net, s)[i].Abandoned? ==> s in net.votes
  }

  lemma DecideKeepsAskersVoted(net: Net, step: Step)
    requires AskersVoted(net) && Enabled(net, step) && step.Decide?
    ensures AskersVoted(Next(net, step))
  {
    var after := Next(net, step);
    forall s, i | 0 <= i < |RoundsAt(after, s)| && !RoundsAt(after, s)[i].Abandoned? ensures s in after.votes {
      DecideRounds(net, step, s);
      if i < |RoundsAt(net, s)| {
        assert RoundsAt(after, s)[i] == RoundsAt(net, s)[i];
      }
    }
  }

  lemma MoveKeepsAskersVoted(net: Net, t: Slot, j: nat, phase: Phase)
    requires AskersVoted(net) && j < |RoundsAt(net, t)| && !RoundsAt(net, t)[j].Abandoned?
    ensures AskersVoted(Moved(net, t, j, phase))
  {
    var after := Moved(net, t, j, phase);
    assert RoundsAt(net, t)[j] == RoundsAt(net, t)[j];
    forall s, i | 0 <= i < |RoundsAt(after, s)| && !RoundsAt(after, s)[i].Abandoned? ensures s in after.votes {
      MovedRounds(net, t, j, phase, s);
      if s != t {
        assert !RoundsAt(net, s)[i].Abandoned?;
      }
    }
  }

  lemma StepKeepsAskersVoted(net: Net, step: Step)
    requires AskersVoted(net) && Enabled(net, step)
    ensures AskersVoted(Next(net, step))
  {
    if step.Decide? {
      DecideKeepsAskersVoted(net, step);
    } else if step.Pass? || step.Finish? {
      var phase := StepMoves(net, step);
      MoveKeepsAskersVoted(net, step.slot, step.round, phase);
    } else {
      var after := Next(net, step);
      forall s, i | 0 <= i < |RoundsAt(after, s)| && !RoundsAt(after, s)[i].Abandoned? ensures s in after.votes {
        assert !RoundsAt(net, s)[i].Abandoned?;
      }
    }
  }

  lemma {:induction false} RunKeepsAskersVoted(nodes: set<NodeId>, steps: seq<Step>)
    requires IsRun(InitialNet(nodes), steps)
    ensures AskersVoted(After(InitialNet(nodes), steps))
    decreases |steps|
  {
    if steps != [] {
      RunKeepsAskersVoted(nodes, steps[..|steps| - 1]);
      StepKeepsAskersVoted(After(InitialNet(nodes), steps[..|steps| - 1]), steps[|steps| - 1]);
    }
  }

  /** After its wait a node always finds the decision it looks up, its own. */
  lemma PassedFinishes(nodes: set<NodeId>, steps: seq<Step>, s: Slot, i: nat)
    requires IsRun(InitialNet(nodes), steps)
    requires var net := After(InitialNet(nodes), steps);
             i < |RoundsAt(net, s)| && RoundsAt(net, s)[i].Passed?
    ensures Enabled(After(InitialNet(nodes), steps), Finish(s, i))
  {
    RunKeepsAskersVoted(nodes, steps);
    assert !RoundsAt(After(InitialNet(nodes), steps), s)[i].Abandoned?;
  }

  // ---------------------------------------------------------------- a second round

  predicate CountsAt(step: Step, s: Slot) {
    step.Count? && Slot(step.answer.to, step.answer.hash) == s
  }

  predicate CountsVote(step: Step, s: Slot, vote: bool) {
    CountsAt(step, s) && step.answer.vote == vote
  }

  /** How many answers `vote` the steps count for `s`. */
  function Counts(steps: seq<Step>, s: Slot, vote: bool): nat {
    if steps == [] then 0
    else Counts(steps[..|steps| - 1], s, vote) + if CountsVote(steps[|steps| - 1], s, vote) then 1 else 0
  }

  lemma {:induction false} CountsNone(steps: seq<Step>, s: Slot)
    ensures Counts(steps, s, true) + Counts(steps, s, false) == 0
       <==> forall k :: 0 <= k < |steps| ==> !CountsAt(steps[k], s)
    decreases |steps|
  {
    if steps != [] {
      CountsNone(steps[..|steps| - 1], s);
    }
  }

  /** What a step other than a decision may do to a node's vote and tally for one hash. */
  ghost predicate MovesTally(net: Net, after: Net, s: Slot, yes: bool, no: bool) {
    && after.nodes == net.nodes && |RoundsAt(after, s)| == |RoundsAt(net, s)|
    && (s in net.votes ==> s in after.votes && after.votes[s] == net.votes[s])
    && Yes(TallyAt(after, s)) == Yes(TallyAt(net, s)) + (if yes then 1 else 0)
    && No(TallyAt(after, s)) == No(TallyAt(net, s)) + (if no then 1 else 0)
  }

  lemma DecideElsewhere(net: Net, step: Step, s: Slot)
    requires Enabled(net, step) && step.Decide? && !DecidesAt(step, s)
    ensures MovesTally(net, Next(net, step), s, false, false)
  {
    DecideRounds(net, step, s);
  }

  lemma MoveElsewhere(net: Net, step: Step, s: Slot)
    requires Enabled(net, step) && (step.Pass? || step.Finish?)
    ensures MovesTally(net, Next(net, step), s, false, false)
  {
    var phase := StepMoves(net, step);
    MovedRounds(net, step.slot, step.round, phase, s);
  }

  lemma MessageAt(net: Net, step: Step, s: Slot)
    requires Enabled(net, step) && (step.Reply? || step.Count?)
    ensures MovesTally(net, Next(net, step), s, CountsVote(step, s, true), CountsVote(step, s, false))
  {
    MessageRounds(net, step, s);
  }

  lemma StepAt(net: Net, step: Step, s: Slot)
    requires Enabled(net, step) && !DecidesAt(step, s)
    ensures MovesTally(net, Next(net, step), s, CountsVote(step, s, true), CountsVote(step, s, false))
  {
    if step.Decide? {
      DecideElsewhere(net, step, s);
    } else if step.Pass? || step.Finish? {
      MoveElsewhere(net, step, s);
    } else {
      MessageAt(net, step, s);
    }
  }

  /** Since a decision, only counting moved the tally, and nothing the vote. */
  ghost predicate SinceDecision(net: Net, now: Net, s: Slot, yes: nat, no: nat) {
    && now.nodes == net.nodes && |RoundsAt(now, s)| == |RoundsAt(net, s)|
    && s in now.votes && s in net.votes && now.votes[s] == net.votes[s]
    && Yes(TallyAt(now, s)) == Yes(TallyAt(net, s)) + yes
    && No(TallyAt(now, s)) == No(TallyAt(net, s)) + no
  }

  lemma {:induction false} BetweenDecisions(net: Net, more: seq<Step>, s: Slot)
    requires IsRun(net, more) && s in net.votes && forall k :: 0 <= k < |more| ==> !DecidesAt(more[k], s)
    ensures SinceDecision(net, After(net, more), s, Counts(more, s, true), Counts(more, s, false))
    decreases |more|
  {
    if more != [] {
      var front, last := more[..|more| - 1], more[|more| - 1];
      RunSnoc(net, more);
      BetweenDecisions(net, front, s);
      var before := After(net, front);
      StepAt(before, last, s);
      SinceDecisionStep(net, before, Next(before, last), s, Counts(front, s, true), Counts(front, s, false),
                        CountsVote(last, s, true), CountsVote(last, s, false));
    }
  }

  lemma SinceDecisionStep(net: Net, before: Net, now: Net, s: Slot, yes: nat, no: nat, oneYes: bool, oneNo: bool)
    requires SinceDecision(net, before, s, yes, no) && MovesTally(before, now, s, oneYes, oneNo)
    ensures SinceDecision(net, now, s, yes + (if oneYes then 1 else 0), no + (if oneNo then 1 else 0))
  {
  }

  /** The same request is decided on again, and peers are asked again. */
  function Again(s: Slot, vote: bool): Step {
    Decide(s.node, s.hash, Some(vote), true)
  }

  lemma AgainEffect(net: Net, s: Slot, vote: bool)
    requires s.node in net.nodes
    ensures Enabled(net, Again(s, vote))
    ensures var again := Next(net, Again(s, vote));
            && again.nodes == net.nodes && s in again.votes && again.votes[s] == vote
            && RoundsAt(again, s) == RoundsAt(net, s) + [Waiting]
            && TallyAt(again, s) == TallyAt(net, s)
            && again.queries == net.queries + Asked(net, s) && again.answers == net.answers
  {
    DecideRounds(net, Again(s, vote), s);
  }

  lemma {:induction false} RoundsHaveNodes(nodes: set<NodeId>, steps: seq<Step>, s: Slot)
    requires IsRun(InitialNet(nodes), steps)
    ensures After(InitialNet(nodes), steps).nodes == nodes
    ensures Begun(After(InitialNet(nodes), steps), s) ==> s.node in nodes
    decreases |steps|
  {
    if steps != [] {
      var before, last := After(InitialNet(nodes), steps[..|steps| - 1]), steps[|steps| - 1];
      RoundsHaveNodes(nodes, steps[..|steps| - 1], s);
      if last.Decide? {
        DecideRounds(before, last, s);
      } else {
        StepAt(before, last, s);
      }
    }
  }

  /** After the one round it asked in has finished, a node's tally holds one answer of each peer. */
  lemma FinishedTallyFull(nodes: set<NodeId>, steps: seq<Step>, s: Slot, j: nat)
    requires IsRun(InitialNet(nodes), steps)
    requires var net := After(InitialNet(nodes), steps);
             j < |RoundsAt(net, s)| && RoundsAt(net, s)[j].Finished? && Asking(RoundsAt(net, s)) == 1
    ensures var net := After(InitialNet(nodes), steps);
            Answers(net, s) == Peers(net, s) && UnderWay(net, s) == 0 && s.node in net.nodes
  {
    var net := After(InitialNet(nodes), steps);
    AnswersAccounted(nodes, steps);
    RoundsHaveNodes(nodes, steps, s);
    assert SlotAccounted(net, s);
    SentIsProduct(RoundsAt(net, s), Peers(net, s));
  }

  /** The tally `t` with further answers. */
  function WithAnswers(t: Option<Tally>, yes: nat, no: nat): Option<Tally> {
    Some(Tally(Yes(t) + yes, No(t) + no))
  }

  /**
   * A node decides again on a request whose round it has finished. The wait of its second round can end
   * exactly as long as none of its answers has been counted; once it has ended, the verdict is the new vote
   * against the peers' votes of the first round and those counted again in the meantime.
   */
  lemma SecondRound(nodes: set<NodeId>, steps: seq<Step>, s: Slot, j: nat, vote: bool, more: seq<Step>)
    requires IsRun(InitialNet(nodes), steps)
    requires var net := After(InitialNet(nodes), steps);
             j < |RoundsAt(net, s)| && RoundsAt(net, s)[j].Finished? && Asking(RoundsAt(net, s)) == 1
    requires var net := After(InitialNet(nodes), steps);
             && Enabled(net, Again(s, vote)) && IsRun(Next(net, Again(s, vote)), more)
             && (forall k :: 0 <= k < |more| ==> !DecidesAt(more[k], s))
    ensures var net := After(InitialNet(nodes), steps);
            var i, now := |RoundsAt(net, s)|, After(Next(net, Again(s, vote)), more);
            var tally := WithAnswers(TallyAt(net, s), Counts(more, s, true), Counts(more, s, false));
            && |RoundsAt(now, s)| == i + 1
            && (RoundsAt(now, s)[i].Waiting? ==>
                  (Enabled(now, Pass(s, i)) <==> forall k :: 0 <= k < |more| ==> !CountsAt(more[k], s)))
            && (RoundsAt(now, s)[i].Passed? ==>
                  && Enabled(now, Finish(s, i))
                  && RoundsAt(Next(now, Finish(s, i)), s)[i] == Finished(Majority(vote, tally)))
  {
    var net := After(InitialNet(nodes), steps);
    var again := Next(net, Again(s, vote));
    FinishedTallyFull(nodes, steps, s, j);
    AgainEffect(net, s, vote);
    BetweenDecisions(again, more, s);
    CountsNone(more, s);
    var now, i := After(again, more), |RoundsAt(net, s)|;
    if RoundsAt(now, s)[i].Passed? {
      FinishEffect(now, s, i);
    }
  }

  /**
   * A node that rejects a request everybody approved before finishes at once, and among three or more nodes,
   * exactly then, it accepts all the same.
   */
  lemma RepeatedRequestIgnoresRejection(nodes: set<NodeId>, steps: seq<Step>, s: Slot, first: bool)
    requires IsRun(InitialNet(nodes), steps)
    requires var net := After(InitialNet(nodes), steps);
             && Once(net, s.hash) && Reported(net, s, first)
             && (forall p :: p in net.nodes ==> Voted(net, p, s.hash, true))
    ensures Enabled(After(InitialNet(nodes), steps), Again(s, false))
    ensures var again := Next(After(InitialNet(nodes), steps), Again(s, false));
            && Enabled(again, Pass(s, 1)) && Enabled(Next(again, Pass(s, 1)), Finish(s, 1))
            && RoundsAt(Next(Next(again, Pass(s, 1)), Finish(s, 1)), s)
               == [Finished(first), Finished(|again.nodes| >= 3)]
  {
    var net := After(InitialNet(nodes), steps);
    RunKeepsExact(nodes, steps, s.hash);
    ApprovedTally(net, s, first);
    AgainEffect(net, s, false);
    SecondAccepts(Next(net, Again(s, false)), s, first);
  }

  /** A wait ends and the tally is read at once. */
  lemma PassThenFinish(net: Net, s: Slot, i: nat)
    requires Enabled(net, Pass(s, i)) && s in net.votes
    ensures i < |RoundsAt(net, s)| && Enabled(Next(net, Pass(s, i)), Finish(s, i))
    ensures Next(Next(net, Pass(s, i)), Finish(s, i))
         == Moved(net, s, i, Finished(Majority(net.votes[s], TallyAt(net, s))))
  {
    PassEffect(net, s, i);
    var mid := Next(net, Pass(s, i));
    MovedRounds(net, s, i, Passed, s);
    FinishEffect(mid, s, i);
    MovedTwice(net, s, i, Passed, Finished(Majority(net.votes[s], TallyAt(net, s))));
  }

  lemma MovedTwice(net: Net, s: Slot, i: nat, first: Phase, next: Phase)
    requires i < |RoundsAt(net, s)|
    ensures i < |RoundsAt(Moved(net, s, i, first), s)|
    ensures Moved(Moved(net, s, i, first), s, i, next) == Moved(net, s, i, next)
  {
    MovedRounds(net, s, i, first, s);
    assert RoundsAt(net, s)[i := first][i := next] == RoundsAt(net, s)[i := next];
  }

  lemma SecondAccepts(again: Net, s: Slot, first: bool)
    requires RoundsAt(again, s) == [Finished(first), Waiting] && s in again.votes && !again.votes[s]
    requires AllSaidYes(again, s) && Peers(again, s) == |again.nodes| - 1
    ensures Enabled(again, Pass(s, 1)) && Enabled(Next(again, Pass(s, 1)), Finish(s, 1))
    ensures Next(Next(again, Pass(s, 1)), Finish(s, 1)) == Moved(again, s, 1, Finished(|again.nodes| >= 3))
    ensures RoundsAt(Moved(again, s, 1, Finished(|again.nodes| >= 3)), s)
         == [Finished(first), Finished(|again.nodes| >= 3)]
  {
    var verdict := Majority(again.votes[s], TallyAt(again, s));
    assert verdict <==> |again.nodes| >= 3;
    PassThenFinish(again, s, 1);
    MovedSecond(again, s, first, verdict);
  }

  lemma MovedSecond(net: Net, s: Slot, first: bool, verdict: bool)
    requires RoundsAt(net, s) == [Finished(first), Waiting]
    ensures RoundsAt(Moved(net, s, 1, Finished(verdict)), s) == [Finished(first), Finished(verdict)]
  {
  }

  ghost predicate AllSaidYes(net: Net, s: Slot) {
    Yes(TallyAt(net, s)) == Peers(net, s) && No(TallyAt(net, s)) == 0
  }

  /** The tally of a finished round everybody approved: one yes of every peer. */
  lemma ApprovedTally(net: Net, s: Slot, first: bool)
    requires Exact(net, s.hash) && Reported(net, s, first)
    requires forall p :: p in net.nodes ==> Voted(net, p, s.hash, true)
    ensures s.node in net.nodes && RoundsAt(net, s) == [Finished(first)]
    ensures AllSaidYes(net, s) && Peers(net, s) == |net.nodes| - 1
  {
    assert SlotOk(net, s);
    assert |RoundsAt(net, s)| <= 1;
    assert Quiet(net, s) by {
      forall q | q in net.queries ensures Slot(q.from, q.hash) != s {
        assert q.hash == s.hash ==> QueryOk(net, q);
      }
      forall a | a in net.answers ensures Slot(a.to, a.hash) != s {
        assert a.hash == s.hash ==> AnswerOk(net, a);
      }
    }
    QuietHeardAll(net, s);
    var others := net.nodes - {s.node};
    assert net.nodes == others + {s.node};
    assert Voters(net, s.hash, true, others) == others;
    assert Voters(net, s.hash, false, others) == {};
  }

  // ---------------------------------------------------------------- a round that never ends

  lemma AnswersGrow(net: Net, step: Step, s: Slot)
    requires Enabled(net, step)
    ensures Next(net, step).nodes == net.nodes && Answers(Next(net, step), s) >= Answers(net, s)
  {
  }

  lemma OverfullStep(net: Net, step: Step, s: Slot, i: nat)
    requires Enabled(net, step) && Answers(net, s) > Peers(net, s)
    requires i < |RoundsAt(net, s)| && RoundsAt(net, s)[i].Waiting?
    ensures i < |RoundsAt(Next(net, step), s)| && RoundsAt(Next(net, step), s)[i].Waiting?
  {
    if step.Decide? {
      DecideRounds(net, step, s);
    } else if step.Pass? || step.Finish? {
      var phase := StepMoves(net, step);
      MovedRounds(net, step.slot, step.round, phase, s);
      if step.Pass? {
        PassEffect(net, step.slot, step.round);
      }
    } else {
      MessageRounds(net, step, s);
    }
  }

  /** Once a tally holds more answers than there are peers, a round that waits on it waits in every continuation. */
  lemma {:induction false} OverfullTallyNeverPasses(net: Net, more: seq<Step>, s: Slot, i: nat)
    requires IsRun(net, more) && Answers(net, s) > Peers(net, s)
    requires i < |RoundsAt(net, s)| && RoundsAt(net, s)[i].Waiting?
    ensures After(net, more).nodes == net.nodes && Answers(After(net, more), s) >= Answers(net, s)
    ensures i < |RoundsAt(After(net, more), s)| && RoundsAt(After(net, more), s)[i].Waiting?
    decreases |more|
  {
    if more != [] {
      var before, last := After(net, more[..|more| - 1]), more[|more| - 1];
      RunSnoc(net, more);
      OverfullTallyNeverPasses(net, more[..|more| - 1], s, i);
      AnswersGrow(before, last, s);
      OverfullStep(before, last, s, i);
    }
  }

  lemma {:induction false} ReachedConcat(net: Net, steps: seq<Step>, more: seq<Step>)
    requires IsRun(net, steps)
    ensures Reached(net, steps + more) == Reached(After(net, steps), more)
    decreases |more|
  {
    if more == [] {
      assert steps + more == steps;
    } else {
      var front := more[..|more| - 1];
      ReachedConcat(net, steps, front);
      assert (steps + more)[..|steps + more| - 1] == steps + front;
    }
  }

  /** The node asks again, one peer answers from its recorded vote, and the answer is counted. */
  function AnsweredAgain(net: Net, s: Slot, vote: bool, p: NodeId): seq<Step>
    requires Slot(p, s.hash) in net.votes
  {
    var i := |RoundsAt(net, s)|;
    [Again(s, vote),
     Reply(Query(s.node, p, s.hash, i)),
     Count(Answer(p, s.node, s.hash, i, net.votes[Slot(p, s.hash)]))]
  }

  lemma AnsweredAgainRuns(net: Net, s: Slot, vote: bool, p: NodeId)
    requires s.node in net.nodes && p in net.nodes && p != s.node && Slot(p, s.hash) in net.votes
    ensures IsRun(net, AnsweredAgain(net, s, vote, p))
    ensures var after := After(net, AnsweredAgain(net, s, vote, p));
            && after.nodes == net.nodes && Answers(after, s) == Answers(net, s) + 1
            && RoundsAt(after, s) == RoundsAt(net, s) + [Waiting]
  {
    var steps := AnsweredAgain(net, s, vote, p);
    var i, v := |RoundsAt(net, s)|, net.votes[Slot(p, s.hash)];
    AgainEffect(net, s, vote);
    var again := Next(net, steps[0]);
    assert Query(s.node, p, s.hash, i) in again.queries;
    assert Slot(p, s.hash) != s;
    assert again.votes[Slot(p, s.hash)] == v;
    var replied := Next(again, steps[1]);
    assert Answer(p, s.node, s.hash, i, v) in replied.answers;
    assert steps[..0] == [] && steps[..1] == [steps[0]] && steps[..2] == [steps[0], steps[1]];
    assert [steps[0]][..0] == [] && [steps[0], steps[1]][..1] == [steps[0]];
    assert Reached(net, [steps[0]]) == Some(again);
    assert Reached(net, steps[..2]) == Some(replied);
    assert Reached(net, steps) == Some(Next(replied, steps[2]));
  }

  /**
   * Such states are reachable from every finished round: the node asks again, one of its peers answers, and
   * its new round waits in every continuation.
   */
  lemma RepeatedRequestMayHang(nodes: set<NodeId>, steps: seq<Step>, s: Slot, j: nat, vote: bool, p: NodeId,
                               more: seq<Step>)
    requires IsRun(InitialNet(nodes), steps)
    requires var net := After(InitialNet(nodes), steps);
             && j < |RoundsAt(net, s)| && RoundsAt(net, s)[j].Finished? && Asking(RoundsAt(net, s)) == 1
             && p in net.nodes && p != s.node && Slot(p, s.hash) in net.votes
    requires var net := After(InitialNet(nodes), steps);
             IsRun(InitialNet(nodes), steps + AnsweredAgain(net, s, vote, p))
             ==> IsRun(After(InitialNet(nodes), steps + AnsweredAgain(net, s, vote, p)), more)
    ensures var net := After(InitialNet(nodes), steps);
            IsRun(InitialNet(nodes), steps + AnsweredAgain(net, s, vote, p))
    ensures var net := After(InitialNet(nodes), steps);
            var i := |RoundsAt(net, s)|;
            var now := After(After(InitialNet(nodes), steps + AnsweredAgain(net, s, vote, p)), more);
            i < |RoundsAt(now, s)| && RoundsAt(now, s)[i].Waiting?
  {
    var net := After(InitialNet(nodes), steps);
    FinishedTallyFull(nodes, steps, s, j);
    AnsweredAgainRuns(net, s, vote, p);
    ReachedConcat(InitialNet(nodes), steps, AnsweredAgain(net, s, vote, p));
    OverfullTallyNeverPasses(After(net, AnsweredAgain(net, s, vote, p)), more, s, |RoundsAt(net, s)|);
  }

  // ---------------------------------------------------------------- runs of messages only

  predicate OnlyMessages(steps: seq<Step>) {
    forall i :: 0 <= i < |steps| ==> steps[i].Reply? || steps[i].Count?
  }

  lemma ReplyThenCount(net: Net, q: Query, vote: bool) returns (steps: seq<Step>)
    requires q in net.queries && Slot(q.to, q.hash) in net.votes && net.votes[Slot(q.to, q.hash)] == vote
    ensures OnlyMessages(steps)
    ensures Reached(net, steps) == Some(AfterAnswer(net, q, vote))
  {
    var reply, count := Reply(q), Count(Answer(q.to, q.from, q.hash, q.round, vote));
    var mid := Next(net, reply);
    steps := [reply, count];
    assert steps[..1] == [reply] && [reply][..0] == [];
    assert Reached(net, [reply]) == Some(mid);
    assert Reached(net, steps) == Some(Next(mid, count));
    assert mid.answers - {count.answer} == net.answers - {count.answer};
  }

  /** One query answered and its answer counted. */
  function AfterAnswer(net: Net, q: Query, vote: bool): Net {
    var s := Slot(q.from, q.hash);
    net.(queries := net.queries - {q},
         answers := net.answers - {Answer(q.to, q.from, q.hash, q.round, vote)},
         tallies := net.tallies[s := Counted(TallyAt(net, s), vote)])
  }

  // ---------------------------------------------------------------- two nodes, one request, two outcomes

  /** What an approved first round leaves behind at one node. */
  ghost predicate ApprovedOnce(net: Net, s: Slot) {
    && s.node in net.nodes && RoundsAt(net, s) == [Finished(true)]
    && AllSaidYes(net, s)
  }

  /** A round whose wait can end, and that accepts if it goes on at once. */
  ghost predicate CanAccept(net: Net, s: Slot, i: nat) {
    && i < |RoundsAt(net, s)| && Enabled(net, Pass(s, i))
    && s in net.votes && Majority(net.votes[s], TallyAt(net, s))
  }

  lemma AcceptsEarly(net: Net, s: Slot)
    requires RoundsAt(net, s) == [Finished(true), Waiting] && s in net.votes && net.votes[s]
    requires AllSaidYes(net, s)
    ensures CanAccept(net, s, 1)
  {
  }

  lemma OtherAfterAgain(net: Net, s: Slot, t: Slot)
    requires s != t && s.node in net.nodes
    ensures var again := Next(net, Again(s, true));
            && RoundsAt(again, t) == RoundsAt(net, t) && TallyAt(again, t) == TallyAt(net, t)
            && (t in net.votes ==> t in again.votes && again.votes[t] == net.votes[t])
  {
    DecideRounds(net, Again(s, true), t);
  }

  /**
   * Two nodes approve a request again. The one can finish at once; its answer to the other can be counted
   * before that one finishes, whose tally then holds one answer too many.
   */
  lemma TwoAgain(net: Net, s: Slot, t: Slot) returns (n1: Net, n2: Net)
    requires ApprovedOnce(net, s) && ApprovedOnce(net, t) && s.hash == t.hash && s != t
    ensures n1 == Next(net, Again(s, true)) && t.node in n1.nodes
    ensures n2 == Next(n1, Again(t, true)) && CanAccept(n2, s, 1)
    ensures Query(t.node, s.node, s.hash, 1) in n2.queries && s in n2.votes && n2.votes[s]
    ensures Answers(n2, t) == Peers(n2, t) && RoundsAt(n2, t) == [Finished(true), Waiting]
  {
    AgainEffect(net, s, true);
    n1 := Next(net, Again(s, true));
    OtherAfterAgain(net, s, t);
    AgainEffect(n1, t, true);
    n2 := Next(n1, Again(t, true));
    OtherAfterAgain(n1, t, s);
    AcceptsEarly(n2, s);
  }

  /** The late answer, after the one node has finished; the other round is left waiting. */
  lemma LateAnswer(n2: Net, s: Slot, t: Slot) returns (steps: seq<Step>, after: Net)
    requires |RoundsAt(n2, s)| == 2 && s.hash == t.hash && s != t
    requires Query(t.node, s.node, s.hash, 1) in n2.queries && s in n2.votes && n2.votes[s]
    requires Answers(n2, t) == Peers(n2, t) && RoundsAt(n2, t) == [Finished(true), Waiting]
    ensures OnlyMessages(steps)
    ensures Reached(Moved(n2, s, 1, Finished(true)), steps) == Some(after)
    ensures Answers(after, t) > Peers(after, t) && RoundsAt(after, t) == [Finished(true), Waiting]
  {
    var n3, q := Moved(n2, s, 1, Finished(true)), Query(t.node, s.node, s.hash, 1);
    assert Slot(s.node, s.hash) == s && Slot(t.node, t.hash) == t;
    steps := ReplyThenCount(n3, q, true);
    after := AfterAnswer(n3, q, true);
  }

  // ---------------------------------------------------------------- the first round of two nodes

  /** Both have voted yes and wait; what has been counted and is under way varies. */
  function TwoWaiting(h: Bytes, tallies: map<Slot, Tally>, queries: set<Query>): Net {
    Net({0, 1}, map[Slot(0, h) := true, Slot(1, h) := true], tallies,
        map[Slot(0, h) := [Waiting], Slot(1, h) := [Waiting]], queries, {})
  }

  lemma TwoAsk(h: Bytes)
    ensures var s, n0 := Slot(0, h), InitialNet({0, 1});
            Next(n0, Again(s, true)) == Net({0, 1}, map[s := true], map[], map[s := [Waiting]], {Query(0, 1, h, 0)}, {})
  {
    var s, n0 := Slot(0, h), InitialNet({0, 1});
    assert Asked(n0, s) == {Query(0, 1, h, 0)};
    assert RoundsAt(n0, s) + [Waiting] == [Waiting];
  }

  lemma TwoAskBack(h: Bytes)
    ensures var s, t := Slot(0, h), Slot(1, h);
            var n1 := Net({0, 1}, map[s := true], map[], map[s := [Waiting]], {Query(0, 1, h, 0)}, {});
            Next(n1, Again(t, true)) == TwoWaiting(h, map[], {Query(0, 1, h, 0), Query(1, 0, h, 0)})
  {
    var s, t := Slot(0, h), Slot(1, h);
    var n1 := Net({0, 1}, map[s := true], map[], map[s := [Waiting]], {Query(0, 1, h, 0)}, {});
    assert Asked(n1, t) == {Query(1, 0, h, 0)};
    assert RoundsAt(n1, t) + [Waiting] == [Waiting];
    assert {Query(0, 1, h, 0)} + {Query(1, 0, h, 0)} == {Query(0, 1, h, 0), Query(1, 0, h, 0)};
  }

  /** Each answers the other, and both answers are counted. */
  lemma TwoExchange(h: Bytes) returns (steps: seq<Step>)
    ensures OnlyMessages(steps)
    ensures Reached(TwoWaiting(h, map[], {Query(0, 1, h, 0), Query(1, 0, h, 0)}), steps)
         == Some(TwoWaiting(h, map[Slot(0, h) := Tally(1, 0), Slot(1, h) := Tally(1, 0)], {}))
  {
    var n2 := TwoWaiting(h, map[], {Query(0, 1, h, 0), Query(1, 0, h, 0)});
    var n4 := TwoWaiting(h, map[Slot(0, h) := Tally(1, 0)], {Query(1, 0, h, 0)});
    var n6 := TwoWaiting(h, map[Slot(0, h) := Tally(1, 0), Slot(1, h) := Tally(1, 0)], {});
    assert AfterAnswer(n2, Query(0, 1, h, 0), true) == n4;
    assert AfterAnswer(n4, Query(1, 0, h, 0), true) == n6;
    var first := ReplyThenCount(n2, Query(0, 1, h, 0), true);
    var second := ReplyThenCount(n4, Query(1, 0, h, 0), true);
    ReachedConcat(n2, first, second);
    steps := first + second;
  }

  lemma TwoFinish(h: Bytes) returns (n6: Net, n7: Net, n8: Net)
    ensures n6 == TwoWaiting(h, map[Slot(0, h) := Tally(1, 0), Slot(1, h) := Tally(1, 0)], {})
    ensures CanAccept(n6, Slot(0, h), 0) && n7 == Moved(n6, Slot(0, h), 0, Finished(true))
    ensures CanAccept(n7, Slot(1, h), 0) && n8 == Moved(n7, Slot(1, h), 0, Finished(true))
    ensures forall g :: Once(n8, g)
    ensures Reported(n8, Slot(0, h), true) && Reported(n8, Slot(1, h), true)
  {
    n6 := TwoWaiting(h, map[Slot(0, h) := Tally(1, 0), Slot(1, h) := Tally(1, 0)], {});
    assert {0, 1} - {0} == {1} && {0, 1} - {1} == {0};
    n7 := Moved(n6, Slot(0, h), 0, Finished(true));
    n8 := Moved(n7, Slot(1, h), 0, Finished(true));
  }
}
