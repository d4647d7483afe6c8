/**
 * Adopting the network's state at start-up (src/modules/adopt_network_state.rs): the received ledgers are
 * counted by the hash of their serialisation, and the first one found to hash to a maximal count is taken
 * over. A serialisation lists the entries of two hash maps in whatever order they are visited, so equal
 * ledgers, and one ledger serialised twice, may hash apart.
 */
module Adoption {
  import opened Base
  import opened MerkleRoot
  import opened Signatures
  import opened Blockchains

  /** One peer's answer: its chain, its accounts twice, and its used signatures. */
  datatype PeerLedger = PeerLedger(
    blocks: seq<Block>,
    accountsVec: seq<Account>,
    accountsMap: map<Bytes, U64>,
    used: SignatureTable)

  /** What a serialisation writes down, entry by entry. */
  datatype Text = Text(
    blocks: seq<Block>,
    accountsVec: seq<Account>,
    accounts: seq<(Bytes, U64)>,
    used: seq<(Bytes, seq<string>)>)

  /** The digest of a serialised ledger. */
  type TextHash = Text -> Bytes

  /**
   * An answer with the orders in which its maps are visited. The account map is copied into a new hash map
   * for every serialisation, so it is visited in one order when the answer is counted and in another when
   * the winner is sought; the signature map is visited in place.
   */
  datatype Answer = Answer(ledger: PeerLedger, counted: seq<Bytes>, sought: seq<Bytes>, signers: seq<Bytes>) {
    predicate Valid() {
      && Visits(counted, ledger.accountsMap) && Visits(sought, ledger.accountsMap) && Visits(signers, ledger.used)
    }

    function CountedText(): Text
      requires Valid()
    {
      Serialised(ledger, counted, signers)
    }

    function SoughtText(): Text
      requires Valid()
    {
      Serialised(ledger, sought, signers)
    }
  }

  predicate Visits<V>(order: seq<Bytes>, m: map<Bytes, V>) {
    NoDuplicates(order) && (set k | k in order) == m.Keys
  }

  function Entries<V>(m: map<Bytes, V>, order: seq<Bytes>): seq<(Bytes, V)>
    requires Visits(order, m)
  {
    seq(|order|, i requires 0 <= i < |order| => assert order[i] in m.Keys; (order[i], m[order[i]]))
  }

  function Serialised(s: PeerLedger, accounts: seq<Bytes>, signers: seq<Bytes>): Text
    requires Visits(accounts, s.accountsMap) && Visits(signers, s.used)
  {
    Text(s.blocks, s.accountsVec, Entries(s.accountsMap, accounts), Entries(s.used, signers))
  }

  ghost predicate AllValid(answers: seq<Answer>) {
    forall a :: a in answers ==> a.Valid()
  }

  /** The ledgers received, in order of arrival. */
  function Ledgers(answers: seq<Answer>): seq<PeerLedger> {
    if answers == [] then [] else Ledgers(answers[..|answers| - 1]) + [answers[|answers| - 1].ledger]
  }

  ghost function Received(answers: seq<Answer>): multiset<PeerLedger> {
    multiset(Ledgers(answers))
  }

  /** How often the counting loop meets the hash `h`. */
  function HashCount(hash: TextHash, answers: seq<Answer>, h: Bytes): nat
    requires AllValid(answers)
  {
    if answers == [] then 0
    else
      var last := |answers| - 1;
      HashCount(hash, answers[..last], h) + if hash(answers[last].CountedText()) == h then 1 else 0
  }

  function FirstSought(hash: TextHash, answers: seq<Answer>, h: Bytes): (found: Option<PeerLedger>)
    requires AllValid(answers)
    ensures found.Some? ==> exists a :: a in answers && a.ledger == found.value && hash(a.SoughtText()) == h
    ensures found.None? ==> forall a :: a in answers ==> hash(a.SoughtText()) != h
  {
    if answers == [] then None
    else if hash(answers[0].SoughtText()) == h then Some(answers[0].ledger)
    else FirstSought(hash, answers[1..], h)
  }

  ghost predicate MaximalHash(hash: TextHash, answers: seq<Answer>, h: Bytes)
    requires AllValid(answers)
  {
    && HashCount(hash, answers, h) > 0
    && forall g :: HashCount(hash, answers, g) <= HashCount(hash, answers, h)
  }

  /** What is taken over once a maximal hash is picked: the first answer that hashes to it now, or the first of all. */
  function Chosen(hash: TextHash, answers: seq<Answer>, best: Bytes): PeerLedger
    requires AllValid(answers) && answers != []
  {
    match FirstSought(hash, answers, best) case Some(s) => s case None => answers[0].ledger
  }

  /** `s` may be adopted: which of several maximal hashes is picked depends on the order of the hash table. */
  ghost predicate MayAdopt(hash: TextHash, answers: seq<Answer>, s: PeerLedger)
    requires AllValid(answers)
  {
    answers != [] && exists best :: MaximalHash(hash, answers, best) && s == Chosen(hash, answers, best)
  }

  /** Whatever the orders, what is adopted was received. */
  lemma AdoptedWasReceived(hash: TextHash, answers: seq<Answer>, s: PeerLedger)
    requires AllValid(answers) && MayAdopt(hash, answers, s)
    ensures s in Received(answers)
  {
    assert answers[0] in answers;
    LedgersOf(answers, s);
  }

  lemma {:induction false} CountedIffReceived(hash: TextHash, answers: seq<Answer>, h: Bytes)
    requires AllValid(answers)
    ensures HashCount(hash, answers, h) > 0 <==> exists a :: a in answers && hash(a.CountedText()) == h
    decreases |answers|
  {
    if answers != [] {
      var last := |answers| - 1;
      assert answers == answers[..last] + [answers[last]];
      CountedIffReceived(hash, answers[..last], h);
    }
  }

  /** `adopt_majority`. `None` keeps the local state when nothing was received. */
  method AdoptMajority(hash: TextHash, answers: seq<Answer>) returns (adopted: Option<PeerLedger>)
    requires AllValid(answers)
    ensures answers == [] <==> adopted.None?
    ensures adopted.Some? ==> MayAdopt(hash, answers, adopted.value)
  {
    if answers == [] {
      return None;
    }
    var counts: map<Bytes, nat> := map[];
    for i := 0 to |answers|
      invariant forall h :: h in counts <==> HashCount(hash, answers[..i], h) > 0
      invariant forall h :: h in counts ==> counts[h] == HashCount(hash, answers[..i], h)
    {
      assert answers[..i + 1][..i] == answers[..i];
      assert answers[i] in answers;
      var h := hash(answers[i].CountedText());
      counts := counts[h := (if h in counts then counts[h] else 0) + 1];
    }
    assert answers[..|answers|] == answers;
    assert answers[0] in answers;
    CountedIffReceived(hash, answers, hash(answers[0].CountedText()));
    var best := MaximalKey(counts, hash(answers[0].CountedText()));
    assert MaximalHash(hash, answers, best);
    var first := answers[0].ledger;
    adopted := Some(match FirstSought(hash, answers, best) case Some(s) => s case None => first);
  }

  /** Some key of maximal value, in whatever order the keys are visited. */
  method MaximalKey(counts: map<Bytes, nat>, some: Bytes) returns (best: Bytes)
    requires some in counts
    ensures best in counts && forall h :: h in counts ==> counts[h] <= counts[best]
  {
    best := some;
    var left := counts.Keys;
    while left != {}
      invariant best in counts && left <= counts.Keys
      invariant forall h :: h in counts && h !in left ==> counts[h] <= counts[best]
      decreases left
    {
      var h :| h in left;
      if counts[h] >= counts[best] {
        best := h;
      }
      left := left - {h};
    }
  }

  // ---------------------------------------------------------------- a text is some ledger's

  lemma EntriesDetermine<V>(m: map<Bytes, V>, p: seq<Bytes>, n: map<Bytes, V>, q: seq<Bytes>)
    requires Visits(p, m) && Visits(q, n) && Entries(m, p) == Entries(n, q)
    ensures p == q && m == n
  {
    assert |Entries(m, p)| == |p| && |Entries(n, q)| == |q|;
    forall i | 0 <= i < |p| ensures p[i] == q[i] && p[i] in m && p[i] in n && m[p[i]] == n[p[i]] {
      assert p[i] in m.Keys && q[i] in n.Keys;
      assert Entries(m, p)[i] == Entries(n, q)[i];
    }
    assert p == q;
    forall k | k in m.Keys ensures k in n && m[k] == n[k] {
      var i :| 0 <= i < |p| && p[i] == k;
    }
  }

  /** Whatever the orders, a serialisation belongs to one ledger only. */
  lemma TextDeterminesLedger(s: PeerLedger, a: seq<Bytes>, b: seq<Bytes>, t: PeerLedger, x: seq<Bytes>, y: seq<Bytes>)
    requires Visits(a, s.accountsMap) && Visits(b, s.used) && Visits(x, t.accountsMap) && Visits(y, t.used)
    requires Serialised(s, a, b) == Serialised(t, x, y)
    ensures s == t
  {
    EntriesDetermine(s.accountsMap, a, t.accountsMap, x);
    EntriesDetermine(s.used, b, t.used, y);
  }

  // ---------------------------------------------------------------- when hashes count ledgers

  /** No two different texts that are hashed have one hash. */
  ghost predicate CollisionFree(hash: TextHash, answers: seq<Answer>)
    requires AllValid(answers)
  {
    forall a, b :: a in answers && b in answers ==>
      && (hash(a.CountedText()) == hash(b.CountedText()) ==> a.CountedText() == b.CountedText())
      && (hash(a.CountedText()) == hash(b.SoughtText()) ==> a.CountedText() == b.SoughtText())
  }

  /** The answers with this ledger are serialised alike when they are counted. */
  ghost predicate CountedAlike(answers: seq<Answer>, s: PeerLedger)
    requires AllValid(answers)
  {
    forall a, b :: a in answers && b in answers && a.ledger == s && b.ledger == s ==> a.CountedText() == b.CountedText()
  }

  /** They are serialised alike whenever they are serialised. */
  ghost predicate Steady(answers: seq<Answer>, s: PeerLedger)
    requires AllValid(answers)
  {
    forall a, b :: a in answers && b in answers && a.ledger == s && b.ledger == s ==> a.CountedText() == b.SoughtText()
  }

  ghost predicate Canonical(answers: seq<Answer>)
    requires AllValid(answers)
  {
    forall s :: Steady(answers, s)
  }

  lemma SteadyCountedAlike(answers: seq<Answer>, s: PeerLedger)
    requires AllValid(answers) && Steady(answers, s)
    ensures CountedAlike(answers, s)
  {
    forall a, b | a in answers && b in answers && a.ledger == s && b.ledger == s
      ensures a.CountedText() == b.CountedText()
    {
      assert a.CountedText() == b.SoughtText() && b.CountedText() == b.SoughtText();
    }
  }

  /** Maps of at most one entry leave the order no choice. */
  predicate SmallMaps(s: PeerLedger) {
    |s.accountsMap| <= 1 && |s.used| <= 1
  }

  lemma OneOrder<V>(p: seq<Bytes>, q: seq<Bytes>, m: map<Bytes, V>)
    requires Visits(p, m) && Visits(q, m) && |m| <= 1
    ensures p == q
  {
    VisitsAll(p, m);
    VisitsAll(q, m);
    assert |m| == |m.Keys|;
    if |p| == 1 {
      assert m.Keys == {q[0]} && p[0] in m.Keys;
    }
  }

  lemma {:induction false} DistinctSize(p: seq<Bytes>)
    requires NoDuplicates(p)
    ensures |set k | k in p| == |p|
  {
    if p != [] {
      var last := |p| - 1;
      DistinctSize(p[..last]);
      assert (set k | k in p) == (set k | k in p[..last]) + {p[last]} by {
        assert p == p[..last] + [p[last]];
      }
      assert p[last] !in p[..last];
    }
  }

  lemma VisitsAll<V>(p: seq<Bytes>, m: map<Bytes, V>)
    requires Visits(p, m)
    ensures |p| == |m.Keys|
  {
    DistinctSize(p);
  }

  lemma SmallMapsSteady(answers: seq<Answer>, s: PeerLedger)
    requires AllValid(answers) && SmallMaps(s)
    ensures Steady(answers, s)
  {
    forall a, b | a in answers && b in answers && a.ledger == s && b.ledger == s
      ensures a.CountedText() == b.SoughtText()
    {
      OneOrder(a.counted, b.sought, s.accountsMap);
      OneOrder(a.signers, b.signers, s.used);
    }
  }

  /** A hash belongs to one ledger, whenever it is taken. */
  lemma HashHasOneLedger(hash: TextHash, answers: seq<Answer>, a: Answer, b: Answer)
    requires AllValid(answers) && CollisionFree(hash, answers) && a in answers && b in answers
    ensures hash(a.CountedText()) == hash(b.CountedText()) ==> a.ledger == b.ledger
    ensures hash(a.CountedText()) == hash(b.SoughtText()) ==> a.ledger == b.ledger
  {
    if hash(a.CountedText()) == hash(b.CountedText()) {
      TextDeterminesLedger(a.ledger, a.counted, a.signers, b.ledger, b.counted, b.signers);
    }
    if hash(a.CountedText()) == hash(b.SoughtText()) {
      TextDeterminesLedger(a.ledger, a.counted, a.signers, b.ledger, b.sought, b.signers);
    }
  }

  /** The count of a ledger's hash is the ledger's multiplicity, if its answers are serialised alike. */
  lemma CountsAreMultiplicities(hash: TextHash, answers: seq<Answer>, a: Answer)
    requires AllValid(answers) && CollisionFree(hash, answers) && a in answers && CountedAlike(answers, a.ledger)
    ensures HashCount(hash, answers, hash(a.CountedText())) == Received(answers)[a.ledger]
  {
    CountsOfPrefix(hash, answers, a, |answers|);
    assert answers[..|answers|] == answers;
  }

  lemma {:induction false} CountsOfPrefix(hash: TextHash, answers: seq<Answer>, a: Answer, n: nat)
    requires AllValid(answers) && CollisionFree(hash, answers) && a in answers && CountedAlike(answers, a.ledger)
    requires n <= |answers|
    ensures HashCount(hash, answers[..n], hash(a.CountedText())) == multiset(Ledgers(answers[..n]))[a.ledger]
  {
    if n > 0 {
      CountsOfPrefix(hash, answers, a, n - 1);
      assert answers[..n][..n - 1] == answers[..n - 1];
      assert answers[n - 1] in answers;
      HashHasOneLedger(hash, answers, a, answers[n - 1]);
    }
  }

  /** A hash may be split among equal ledgers, but never counts more than there are of one. */
  lemma CountsNeverExceed(hash: TextHash, answers: seq<Answer>, a: Answer)
    requires AllValid(answers) && CollisionFree(hash, answers) && a in answers
    ensures HashCount(hash, answers, hash(a.CountedText())) <= Received(answers)[a.ledger]
  {
    CountsNeverExceedIn(hash, answers, a, |answers|);
    assert answers[..|answers|] == answers;
  }

  lemma {:induction false} CountsNeverExceedIn(hash: TextHash, answers: seq<Answer>, a: Answer, n: nat)
    requires AllValid(answers) && CollisionFree(hash, answers) && a in answers && n <= |answers|
    ensures HashCount(hash, answers[..n], hash(a.CountedText())) <= multiset(Ledgers(answers[..n]))[a.ledger]
  {
    if n > 0 {
      var b := answers[n - 1];
      CountsNeverExceedIn(hash, answers, a, n - 1);
      assert answers[..n][..n - 1] == answers[..n - 1];
      assert b in answers;
      if hash(b.CountedText()) == hash(a.CountedText()) {
        TextDeterminesLedger(b.ledger, b.counted, b.signers, a.ledger, a.counted, a.signers);
      }
    }
  }

  // ---------------------------------------------------------------- plurality

  /** Nothing received is more common. */
  ghost predicate IsPlurality(received: multiset<PeerLedger>, s: PeerLedger) {
    s in received && forall t :: t in received ==> received[t] <= received[s]
  }

  ghost predicate IsStrictMode(received: multiset<PeerLedger>, s: PeerLedger) {
    s in received && forall t :: t in received && t != s ==> received[t] < received[s]
  }

  lemma {:induction false} LedgersOf(answers: seq<Answer>, s: PeerLedger)
    ensures s in Received(answers) <==> exists a :: a in answers && a.ledger == s
    decreases |answers|
  {
    if answers != [] {
      var last := |answers| - 1;
      assert answers == answers[..last] + [answers[last]];
      LedgersOf(answers[..last], s);
    }
  }

  /** The answer a maximal hash was counted from. */
  lemma MaximalAnswer(hash: TextHash, answers: seq<Answer>, best: Bytes) returns (a: Answer)
    requires AllValid(answers) && MaximalHash(hash, answers, best)
    ensures a in answers && hash(a.CountedText()) == best && a.ledger in Received(answers)
  {
    CountedIffReceived(hash, answers, best);
    a :| a in answers && hash(a.CountedText()) == best;
    LedgersOf(answers, a.ledger);
  }

  /** A hash that counts no less than any ledger's multiplicity is maximal. */
  lemma FullCountMaximal(hash: TextHash, answers: seq<Answer>, h: Bytes)
    requires AllValid(answers) && CollisionFree(hash, answers) && answers != []
    requires forall t :: t in Received(answers) ==> Received(answers)[t] <= HashCount(hash, answers, h)
    ensures MaximalHash(hash, answers, h)
  {
    LedgersOf(answers, answers[0].ledger);
    forall g ensures HashCount(hash, answers, g) <= HashCount(hash, answers, h) {
      CountedIffReceived(hash, answers, g);
      if HashCount(hash, answers, g) > 0 {
        var b :| b in answers && hash(b.CountedText()) == g;
        CountsNeverExceed(hash, answers, b);
        LedgersOf(answers, b.ledger);
      }
    }
  }

  /** A ledger serialised alike is found again under its hash. */
  lemma SteadyFound(hash: TextHash, answers: seq<Answer>, a: Answer)
    requires AllValid(answers) && CollisionFree(hash, answers) && a in answers && a.CountedText() == a.SoughtText()
    ensures Chosen(hash, answers, hash(a.CountedText())) == a.ledger
  {
    forall b | b in answers && hash(b.SoughtText()) == hash(a.CountedText()) ensures b.ledger == a.ledger {
      HashHasOneLedger(hash, answers, a, b);
    }
  }

  lemma MaximalIsPlurality(hash: TextHash, answers: seq<Answer>, a: Answer)
    requires AllValid(answers) && CollisionFree(hash, answers) && Canonical(answers) && a in answers
    ensures MaximalHash(hash, answers, hash(a.CountedText())) <==> IsPlurality(Received(answers), a.ledger)
  {
    var h, received := hash(a.CountedText()), Received(answers);
    SteadyCountedAlike(answers, a.ledger);
    CountsAreMultiplicities(hash, answers, a);
    LedgersOf(answers, a.ledger);
    if MaximalHash(hash, answers, h) {
      forall t | t in received ensures received[t] <= received[a.ledger] {
        LedgersOf(answers, t);
        var b :| b in answers && b.ledger == t;
        SteadyCountedAlike(answers, t);
        CountsAreMultiplicities(hash, answers, b);
      }
    }
    if IsPlurality(received, a.ledger) {
      FullCountMaximal(hash, answers, h);
    }
  }

  /**
   * If equal ledgers are serialised alike, what may be adopted is exactly what is most common among the
   * answers, whatever the order of the hash table.
   */
  lemma CanonicalAdoptsPlurality(hash: TextHash, answers: seq<Answer>, s: PeerLedger)
    requires AllValid(answers) && CollisionFree(hash, answers) && Canonical(answers)
    ensures MayAdopt(hash, answers, s) <==> IsPlurality(Received(answers), s)
  {
    if MayAdopt(hash, answers, s) {
      var best :| MaximalHash(hash, answers, best) && s == Chosen(hash, answers, best);
      var a := MaximalAnswer(hash, answers, best);
      assert Steady(answers, a.ledger);
      SteadyFound(hash, answers, a);
      MaximalIsPlurality(hash, answers, a);
    }
    if IsPlurality(Received(answers), s) {
      LedgersOf(answers, s);
      var a :| a in answers && a.ledger == s;
      assert Steady(answers, s);
      SteadyFound(hash, answers, a);
      MaximalIsPlurality(hash, answers, a);
    }
  }

  /** That is the case when no map received has more than one entry. */
  lemma SmallMapsAdoptPlurality(hash: TextHash, answers: seq<Answer>, s: PeerLedger)
    requires AllValid(answers) && CollisionFree(hash, answers)
    requires forall t :: t in Received(answers) ==> SmallMaps(t)
    ensures MayAdopt(hash, answers, s) <==> IsPlurality(Received(answers), s)
  {
    forall t ensures Steady(answers, t) {
      LedgersOf(answers, t);
      if t in Received(answers) {
        SmallMapsSteady(answers, t);
      }
    }
    CanonicalAdoptsPlurality(hash, answers, s);
  }

  /**
   * A strictly most common ledger is adopted for every order of the answers and of the hash table, if only its
   * own answers are serialised alike.
   */
  lemma UniqueModeAdopted(hash: TextHash, answers: seq<Answer>, mode: PeerLedger, s: PeerLedger)
    requires AllValid(answers) && CollisionFree(hash, answers) && Steady(answers, mode)
    requires IsStrictMode(Received(answers), mode)
    ensures MayAdopt(hash, answers, s) <==> s == mode
  {
    LedgersOf(answers, mode);
    var m :| m in answers && m.ledger == mode;
    var received, h := Received(answers), hash(m.CountedText());
    SteadyCountedAlike(answers, mode);
    CountsAreMultiplicities(hash, answers, m);
    FullCountMaximal(hash, answers, h);
    SteadyFound(hash, answers, m);
    if MayAdopt(hash, answers, s) {
      var best :| MaximalHash(hash, answers, best) && s == Chosen(hash, answers, best);
      var a := MaximalAnswer(hash, answers, best);
      CountsNeverExceed(hash, answers, a);
      SteadyFound(hash, answers, a);
    }
  }
}
