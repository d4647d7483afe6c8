/**
 * Exactly when start-up adopts a most common ledger, whatever the order in which answers arrive, hash maps
 * are visited and the hash table is read: a condition on the ledgers received, and nothing else.
 */
module AdoptionOrders {
  import opened Base
  import opened Adoption

  // ---------------------------------------------------------------- the orders of a key set

  function Factorial(n: nat): nat {
    if n == 0 then 1 else n * Factorial(n - 1)
  }

  /** All orders in which a map with these keys may be visited. */
  ghost function Orders(keys: set<Bytes>): set<seq<Bytes>> {
    if keys == {} then {[]} else OrdersFrom(keys, keys)
  }

  /** Those that start with one of `firsts`. */
  ghost function OrdersFrom(keys: set<Bytes>, firsts: set<Bytes>): set<seq<Bytes>>
    requires firsts <= keys
    decreases keys, 0
  {
    set k, rest | k in firsts && rest in Orders(keys - {k}) :: [k] + rest
  }

  lemma {:induction false} OrdersVisit(order: seq<Bytes>, keys: set<Bytes>)
    ensures order in Orders(keys) <==> NoDuplicates(order) && (set k | k in order) == keys
    decreases |order|
  {
    if order == [] {
      assert keys == {} ==> order in Orders(keys);
      assert keys != {} ==> forall x :: x in OrdersFrom(keys, keys) ==> |x| > 0;
    } else {
      var k, rest := order[0], order[1..];
      assert order == [k] + rest;
      OrdersVisit(rest, keys - {k});
      if order in Orders(keys) {
        OrdersUncons(order, keys);
        Prepended(k, rest);
        assert (set x | x in order) == {k} + set x | x in rest;
      }
      if NoDuplicates(order) && (set x | x in order) == keys {
        assert k !in rest;
        assert (set x | x in rest) == keys - {k};
        assert [k] + rest in OrdersFrom(keys, keys);
      }
    }
  }

  lemma OrdersUncons(order: seq<Bytes>, keys: set<Bytes>)
    requires order != [] && order in Orders(keys)
    ensures order[0] in keys && order[1..] in Orders(keys - {order[0]})
  {
    var k, rest :| k in keys && rest in Orders(keys - {k}) && order == [k] + rest;
    assert order[1..] == rest;
  }

  lemma Prepended(k: Bytes, rest: seq<Bytes>)
    ensures NoDuplicates([k] + rest) <==> NoDuplicates(rest) && k !in rest
  {
    var order := [k] + rest;
    if NoDuplicates(order) {
      assert forall i, j :: 0 <= i < j < |rest| ==> rest[i] == order[i + 1] && rest[j] == order[j + 1];
      forall i | 0 <= i < |rest| ensures rest[i] != k {
        assert order[i + 1] == rest[i] && order[0] == k;
      }
    }
  }

  lemma {:induction false} OrdersCount(keys: set<Bytes>)
    ensures |Orders(keys)| == Factorial(|keys|)
    decreases keys
  {
    if keys != {} {
      var each := Factorial(|keys| - 1);
      forall k | k in keys ensures |Orders(keys - {k})| == each {
        OrdersCount(keys - {k});
        OneLess(keys, k);
      }
      OrdersFromCount(keys, keys, each);
    }
  }

  lemma OneLess(keys: set<Bytes>, k: Bytes)
    requires k in keys
    ensures |keys - {k}| == |keys| - 1
  {
  }

  lemma OrdersFromSplit(keys: set<Bytes>, firsts: set<Bytes>, k: Bytes)
    requires firsts <= keys && k in firsts
    ensures OrdersFrom(keys, firsts) == OrdersFrom(keys, firsts - {k}) + Prefixed(k, Orders(keys - {k}))
    ensures OrdersFrom(keys, firsts - {k}) !! Prefixed(k, Orders(keys - {k}))
  {
    assert forall x :: x in OrdersFrom(keys, firsts - {k}) ==> |x| > 0 && x[0] != k;
    assert forall x :: x in Prefixed(k, Orders(keys - {k})) ==> |x| > 0 && x[0] == k;
  }

  lemma {:induction false} OrdersFromCount(keys: set<Bytes>, firsts: set<Bytes>, each: nat)
    requires firsts <= keys && forall k :: k in firsts ==> |Orders(keys - {k})| == each
    ensures |OrdersFrom(keys, firsts)| == |firsts| * each
    decreases firsts
  {
    if firsts == {} {
      assert OrdersFrom(keys, firsts) == {};
    } else {
      var k :| k in firsts;
      OrdersFromCount(keys, firsts - {k}, each);
      OneLess(firsts, k);
      OrdersFromSplit(keys, firsts, k);
      PrefixedCount(k, Orders(keys - {k}));
      DisjointSize(OrdersFrom(keys, firsts - {k}), Prefixed(k, Orders(keys - {k})));
      OneMoreTimes(|firsts|, each);
    }
  }

  lemma DisjointSize<T>(a: set<T>, b: set<T>)
    requires a !! b
    ensures |a + b| == |a| + |b|
  {
  }

  lemma OneMoreTimes(n: nat, m: nat)
    requires n > 0
    ensures (n - 1) * m + m == n * m
  {
  }

  ghost function Prefixed(k: Bytes, orders: set<seq<Bytes>>): set<seq<Bytes>> {
    set rest | rest in orders :: [k] + rest
  }

  lemma {:induction false} PrefixedCount(k: Bytes, orders: set<seq<Bytes>>)
    ensures |Prefixed(k, orders)| == |orders|
    decreases orders
  {
    if orders != {} {
      var rest :| rest in orders;
      PrefixedCount(k, orders - {rest});
      assert Prefixed(k, orders) == Prefixed(k, orders - {rest}) + {[k] + rest};
      assert [k] + rest !in Prefixed(k, orders - {rest}) by {
        forall x | x in orders && [k] + x == [k] + rest ensures x == rest {
          assert ([k] + x)[1..] == x && ([k] + rest)[1..] == rest;
        }
      }
    }
  }

  /** One order of these keys, always the same. */
  ghost function SomeOrder(keys: set<Bytes>): (order: seq<Bytes>)
    ensures order in Orders(keys)
  {
    if keys == {} then []
    else
      var k :| k in keys;
      assert [k] + SomeOrder(keys - {k}) in OrdersFrom(keys, keys);
      [k] + SomeOrder(keys - {k})
  }

  // ---------------------------------------------------------------- what was received

  /** No two texts of received ledgers have one hash. */
  ghost predicate NoCollisions(hash: TextHash, received: multiset<PeerLedger>) {
    forall a: Answer, b: Answer {:trigger a.Valid(), b.Valid()} ::
      a.Valid() && b.Valid() && a.ledger in received && b.ledger in received ==>
        (hash(a.CountedText()) == hash(b.CountedText()) ==> a.CountedText() == b.CountedText())
  }

  lemma NoCollisionsAmong(hash: TextHash, received: multiset<PeerLedger>, answers: seq<Answer>)
    requires NoCollisions(hash, received) && AllValid(answers)
    requires forall a :: a in answers ==> a.ledger in received
    ensures CollisionFree(hash, answers)
  {
    forall a, b | a in answers && b in answers
      ensures hash(a.CountedText()) == hash(b.SoughtText()) ==> a.CountedText() == b.SoughtText()
    {
      var swapped := b.(counted := b.sought);
      assert swapped.Valid() && swapped.CountedText() == b.SoughtText();
    }
  }

  lemma AnswersCollisionFree(hash: TextHash, answers: seq<Answer>)
    requires AllValid(answers) && NoCollisions(hash, Received(answers))
    ensures CollisionFree(hash, answers)
  {
    forall a | a in answers ensures a.ledger in Received(answers) {
      LedgersOf(answers, a.ledger);
    }
    NoCollisionsAmong(hash, Received(answers), answers);
  }

  /** Whatever the orders of arrival, of visiting and of the hash table, a most common ledger is adopted. */
  ghost predicate AlwaysPlurality(hash: TextHash, received: multiset<PeerLedger>) {
    forall answers, s ::
      AllValid(answers) && Received(answers) == received && MayAdopt(hash, answers, s) ==> IsPlurality(received, s)
  }

  /** Even if its count is spread over all orders of its signers, no less common ledger counts as much. */
  ghost predicate Outnumbers(received: multiset<PeerLedger>, s: PeerLedger) {
    forall t :: t in received && !IsPlurality(received, t) ==> received[t] * Factorial(|s.used|) < received[s]
  }

  /**
   * All ledgers received are equally common; or no most common one has more than one account, and one of them
   * outnumbers the others even if its count is spread.
   */
  ghost predicate Dependable(received: multiset<PeerLedger>) {
    || (forall t :: t in received ==> IsPlurality(received, t))
    || (&& (forall s :: IsPlurality(received, s) ==> |s.accountsMap| <= 1)
        && exists s :: IsPlurality(received, s) && Outnumbers(received, s))
  }

  // ---------------------------------------------------------------- dependable ledgers are adopted

  /** The answers with ledger `s` whose signers are visited in one of `orders`. */
  ghost function Signed(answers: seq<Answer>, s: PeerLedger, orders: set<seq<Bytes>>): nat {
    if answers == [] then 0
    else
      var last := answers[|answers| - 1];
      Signed(answers[..|answers| - 1], s, orders) + if last.ledger == s && last.signers in orders then 1 else 0
  }

  lemma {:induction false} SignedSplit(answers: seq<Answer>, s: PeerLedger, orders: set<seq<Bytes>>, o: seq<Bytes>)
    requires o in orders
    ensures Signed(answers, s, orders) == Signed(answers, s, orders - {o}) + Signed(answers, s, {o})
    decreases |answers|
  {
    if answers != [] {
      SignedSplit(answers[..|answers| - 1], s, orders, o);
    }
  }

  lemma {:induction false} SignedNone(answers: seq<Answer>, s: PeerLedger)
    ensures Signed(answers, s, {}) == 0
    decreases |answers|
  {
    if answers != [] {
      SignedNone(answers[..|answers| - 1], s);
    }
  }

  lemma {:induction false} SignedAll(answers: seq<Answer>, s: PeerLedger)
    requires AllValid(answers)
    ensures Signed(answers, s, Orders(s.used.Keys)) == Received(answers)[s]
    decreases |answers|
  {
    if answers != [] {
      var last := answers[|answers| - 1];
      assert answers == answers[..|answers| - 1] + [last];
      SignedAll(answers[..|answers| - 1], s);
      assert last in answers;
      OrdersVisit(last.signers, last.ledger.used.Keys);
    }
  }

  /** With one account at most, answers that agree in ledger and signers are counted together. */
  lemma {:induction false} SignedCounted(hash: TextHash, answers: seq<Answer>, a: Answer)
    requires AllValid(answers) && a.Valid() && |a.ledger.accountsMap| <= 1
    ensures Signed(answers, a.ledger, {a.signers}) <= HashCount(hash, answers, hash(a.CountedText()))
    decreases |answers|
  {
    if answers != [] {
      var last := answers[|answers| - 1];
      assert answers == answers[..|answers| - 1] + [last];
      SignedCounted(hash, answers[..|answers| - 1], a);
      assert last in answers;
      if last.ledger == a.ledger && last.signers == a.signers {
        OneOrder(last.counted, a.counted, a.ledger.accountsMap);
      }
    }
  }

  lemma {:induction false} SignedOne(answers: seq<Answer>, s: PeerLedger, o: seq<Bytes>) returns (a: Answer)
    requires Signed(answers, s, {o}) > 0
    ensures a in answers && a.ledger == s && a.signers == o
    decreases |answers|
  {
    a := answers[|answers| - 1];
    if a.ledger != s || a.signers != o {
      a := SignedOne(answers[..|answers| - 1], s, o);
    }
  }

  lemma SignedAtMost(hash: TextHash, answers: seq<Answer>, s: PeerLedger, o: seq<Bytes>, most: nat)
    requires AllValid(answers) && |s.accountsMap| <= 1
    requires forall g :: HashCount(hash, answers, g) <= most
    ensures Signed(answers, s, {o}) <= most
  {
    if Signed(answers, s, {o}) > 0 {
      var a := SignedOne(answers, s, o);
      SignedCounted(hash, answers, a);
    }
  }

  /** If no hash counts more than `most`, a ledger is received at most that often for each order of its signers. */
  lemma {:induction false} SpreadBound(hash: TextHash, answers: seq<Answer>, s: PeerLedger,
                                       orders: set<seq<Bytes>>, most: nat)
    requires AllValid(answers) && |s.accountsMap| <= 1
    requires forall g :: HashCount(hash, answers, g) <= most
    ensures Signed(answers, s, orders) <= |orders| * most
    decreases orders
  {
    if orders == {} {
      SignedNone(answers, s);
    } else {
      var o :| o in orders;
      SignedSplit(answers, s, orders, o);
      SpreadBound(hash, answers, s, orders - {o}, most);
      SignedAtMost(hash, answers, s, o, most);
      assert |orders - {o}| == |orders| - 1;
      BoundedSum(Signed(answers, s, orders - {o}), Signed(answers, s, {o}), |orders - {o}|, most);
    }
  }

  lemma BoundedSum(x: nat, y: nat, n: nat, m: nat)
    requires x <= n * m && y <= m
    ensures x + y <= (n + 1) * m
  {
  }

  lemma MaximalCountsEnough(hash: TextHash, answers: seq<Answer>, s: PeerLedger, best: Bytes)
    requires AllValid(answers) && |s.accountsMap| <= 1 && MaximalHash(hash, answers, best)
    ensures Received(answers)[s] <= Factorial(|s.used|) * HashCount(hash, answers, best)
  {
    SignedAll(answers, s);
    OrdersCount(s.used.Keys);
    assert |s.used.Keys| == |s.used|;
    SpreadBound(hash, answers, s, Orders(s.used.Keys), HashCount(hash, answers, best));
  }

  lemma TimesMonotone(a: nat, b: nat, n: nat)
    requires a <= b
    ensures n * a <= n * b
  {
  }

  /** A maximal hash was counted from a most common ledger, if some such ledger outnumbers the others. */
  lemma BestIsCommon(hash: TextHash, answers: seq<Answer>, many: PeerLedger, a: Answer)
    requires AllValid(answers) && CollisionFree(hash, answers)
    requires a in answers && a.ledger in Received(answers) && MaximalHash(hash, answers, hash(a.CountedText()))
    requires |many.accountsMap| <= 1 && Outnumbers(Received(answers), many)
    ensures IsPlurality(Received(answers), a.ledger)
  {
    var received, count := Received(answers), HashCount(hash, answers, hash(a.CountedText()));
    MaximalCountsEnough(hash, answers, many, hash(a.CountedText()));
    CountsNeverExceed(hash, answers, a);
    TimesMonotone(count, received[a.ledger], Factorial(|many.used|));
  }

  lemma SmallFound(hash: TextHash, answers: seq<Answer>, a: Answer)
    requires AllValid(answers) && CollisionFree(hash, answers) && a in answers && |a.ledger.accountsMap| <= 1
    ensures Chosen(hash, answers, hash(a.CountedText())) == a.ledger
  {
    OneOrder(a.counted, a.sought, a.ledger.accountsMap);
    SteadyFound(hash, answers, a);
  }

  lemma DependableAdopts(hash: TextHash, answers: seq<Answer>, s: PeerLedger)
    requires AllValid(answers) && NoCollisions(hash, Received(answers)) && Dependable(Received(answers))
    requires MayAdopt(hash, answers, s)
    ensures IsPlurality(Received(answers), s)
  {
    var received := Received(answers);
    AdoptedWasReceived(hash, answers, s);
    AnswersCollisionFree(hash, answers);
    if !(forall t :: t in received ==> IsPlurality(received, t)) {
      var best :| MaximalHash(hash, answers, best) && s == Chosen(hash, answers, best);
      var a := MaximalAnswer(hash, answers, best);
      var many :| IsPlurality(received, many) && Outnumbers(received, many);
      BestIsCommon(hash, answers, many, a);
      SmallFound(hash, answers, a);
    }
  }

  // ---------------------------------------------------------------- building answers

  /** An answer visited alike when it is counted and when it is sought. */
  ghost function Plain(s: PeerLedger, signers: seq<Bytes>): Answer {
    Answer(s, SomeOrder(s.accountsMap.Keys), SomeOrder(s.accountsMap.Keys), signers)
  }

  lemma PlainValid(s: PeerLedger, signers: seq<Bytes>)
    requires signers in Orders(s.used.Keys)
    ensures Plain(s, signers).Valid() && Plain(s, signers).CountedText() == Plain(s, signers).SoughtText()
  {
    OrdersVisit(signers, s.used.Keys);
    OrdersVisit(SomeOrder(s.accountsMap.Keys), s.accountsMap.Keys);
  }

  /** An answer whose first two accounts change places between counting and seeking. */
  ghost function Crossed(s: PeerLedger): Answer {
    var order := SomeOrder(s.accountsMap.Keys);
    Answer(s, order, if |order| < 2 then order else [order[1], order[0]] + order[2..], SomeOrder(s.used.Keys))
  }

  lemma SwappedDistinct(order: seq<Bytes>)
    requires NoDuplicates(order) && |order| >= 2
    ensures NoDuplicates([order[1], order[0]] + order[2..])
  {
    var swapped := [order[1], order[0]] + order[2..];
    assert forall i :: 2 <= i < |order| ==> swapped[i] == order[i];
  }

  lemma CrossedValid(s: PeerLedger)
    requires |s.accountsMap| >= 2
    ensures Crossed(s).Valid() && Crossed(s).CountedText() != Crossed(s).SoughtText()
  {
    var order, a := SomeOrder(s.accountsMap.Keys), Crossed(s);
    OrdersVisit(order, s.accountsMap.Keys);
    OrdersVisit(SomeOrder(s.used.Keys), s.used.Keys);
    VisitsAll(order, s.accountsMap);
    assert |s.accountsMap.Keys| == |s.accountsMap|;
    assert order == [order[0], order[1]] + order[2..];
    assert (set k | k in a.sought) == set k | k in order;
    SwappedDistinct(order);
    assert a.CountedText().accounts[0].0 == order[0] && a.SoughtText().accounts[0].0 == order[1];
  }

  lemma {:induction false} CountConcat(hash: TextHash, front: seq<Answer>, back: seq<Answer>, g: Bytes)
    requires AllValid(front) && AllValid(back)
    ensures AllValid(front + back)
    ensures HashCount(hash, front + back, g) == HashCount(hash, front, g) + HashCount(hash, back, g)
    decreases |back|
  {
    if back == [] {
      assert front + back == front;
    } else {
      var last := |back| - 1;
      assert back == back[..last] + [back[last]];
      CountConcat(hash, front, back[..last], g);
      assert (front + back)[..|front + back| - 1] == front + back[..last];
    }
  }

  lemma {:induction false} LedgersConcat(front: seq<Answer>, back: seq<Answer>)
    ensures Ledgers(front + back) == Ledgers(front) + Ledgers(back)
    decreases |back|
  {
    if back == [] {
      assert front + back == front;
    } else {
      var last := |back| - 1;
      LedgersConcat(front, back[..last]);
      assert (front + back)[..|front + back| - 1] == front + back[..last];
    }
  }

  lemma ReceivedConcat(front: seq<Answer>, back: seq<Answer>)
    ensures Received(front + back) == Received(front) + Received(back)
  {
    LedgersConcat(front, back);
  }

  /** Every received ledger answered in a way of its own. */
  ghost function AnswersTo(ledgers: seq<PeerLedger>, way: PeerLedger -> Answer): seq<Answer> {
    if ledgers == [] then []
    else AnswersTo(ledgers[..|ledgers| - 1], way) + [way(ledgers[|ledgers| - 1])]
  }

  lemma {:induction false} AnswersToAt(ledgers: seq<PeerLedger>, way: PeerLedger -> Answer)
    ensures |AnswersTo(ledgers, way)| == |ledgers|
    ensures forall i :: 0 <= i < |ledgers| ==> AnswersTo(ledgers, way)[i] == way(ledgers[i])
    decreases |ledgers|
  {
    if ledgers != [] {
      AnswersToAt(ledgers[..|ledgers| - 1], way);
    }
  }

  lemma {:induction false} LedgersAt(answers: seq<Answer>)
    ensures |Ledgers(answers)| == |answers|
    ensures forall i :: 0 <= i < |answers| ==> Ledgers(answers)[i] == answers[i].ledger
    decreases |answers|
  {
    if answers != [] {
      LedgersAt(answers[..|answers| - 1]);
    }
  }

  lemma AnswersToLedgers(ledgers: seq<PeerLedger>, way: PeerLedger -> Answer)
    requires forall s :: s in ledgers ==> way(s).ledger == s && way(s).Valid()
    ensures Ledgers(AnswersTo(ledgers, way)) == ledgers && |AnswersTo(ledgers, way)| == |ledgers|
    ensures forall a :: a in AnswersTo(ledgers, way) ==> a.Valid() && a == way(a.ledger)
    ensures ledgers != [] ==> AnswersTo(ledgers, way)[0] == way(ledgers[0])
  {
    AnswersToAt(ledgers, way);
    LedgersAt(AnswersTo(ledgers, way));
  }

  // ---------------------------------------------------------------- two accounts are enough to fail

  ghost function CrossedOnly(crossed: PeerLedger): PeerLedger -> Answer {
    s => if s == crossed then Crossed(s) else Plain(s, SomeOrder(s.used.Keys))
  }

  /** The answers of `ledgers` in which only the ledger `s` is visited differently when it is sought. */
  ghost function CrossedAnswers(ledgers: seq<PeerLedger>, s: PeerLedger): seq<Answer> {
    AnswersTo(ledgers, CrossedOnly(s))
  }

  lemma CrossedAnswersValid(ledgers: seq<PeerLedger>, s: PeerLedger)
    requires |s.accountsMap| >= 2
    ensures AllValid(CrossedAnswers(ledgers, s)) && Ledgers(CrossedAnswers(ledgers, s)) == ledgers
    ensures forall a :: a in CrossedAnswers(ledgers, s) ==> a == CrossedOnly(s)(a.ledger)
    ensures ledgers != [] ==> CrossedAnswers(ledgers, s) != [] && CrossedAnswers(ledgers, s)[0].ledger == ledgers[0]
  {
    forall t ensures CrossedOnly(s)(t).ledger == t && CrossedOnly(s)(t).Valid() {
      if t == s {
        CrossedValid(s);
      } else {
        PlainValid(t, SomeOrder(t.used.Keys));
      }
    }
    AnswersToLedgers(ledgers, CrossedOnly(s));
  }

  lemma CrossedPresent(hash: TextHash, ledgers: seq<PeerLedger>, s: PeerLedger)
    requires s in multiset(ledgers) && |s.accountsMap| >= 2 && NoCollisions(hash, multiset(ledgers))
    ensures AllValid(CrossedAnswers(ledgers, s)) && Ledgers(CrossedAnswers(ledgers, s)) == ledgers
    ensures CollisionFree(hash, CrossedAnswers(ledgers, s))
    ensures Crossed(s) in CrossedAnswers(ledgers, s) && Crossed(s).Valid()
    ensures forall b :: b in CrossedAnswers(ledgers, s) && b.ledger == s ==> b == Crossed(s)
  {
    var answers := CrossedAnswers(ledgers, s);
    CrossedAnswersValid(ledgers, s);
    CrossedValid(s);
    AnswersCollisionFree(hash, answers);
    LedgersOf(answers, s);
    var found: Answer :| found in answers && found.ledger == s;
    assert found == Crossed(s);
  }

  /** The count of the crossed ledger is its multiplicity, and no answer hashes to it when it is sought. */
  lemma CrossedCount(hash: TextHash, ledgers: seq<PeerLedger>, s: PeerLedger)
    requires s in multiset(ledgers) && |s.accountsMap| >= 2 && NoCollisions(hash, multiset(ledgers))
    ensures AllValid(CrossedAnswers(ledgers, s)) && Ledgers(CrossedAnswers(ledgers, s)) == ledgers
    ensures CollisionFree(hash, CrossedAnswers(ledgers, s))
    ensures Crossed(s) in CrossedAnswers(ledgers, s) && Crossed(s).Valid()
    ensures var h := hash(Crossed(s).CountedText());
            && HashCount(hash, CrossedAnswers(ledgers, s), h) == multiset(ledgers)[s]
            && Chosen(hash, CrossedAnswers(ledgers, s), h) == ledgers[0]
  {
    var answers, a := CrossedAnswers(ledgers, s), Crossed(s);
    CrossedPresent(hash, ledgers, s);
    assert CountedAlike(answers, s);
    CountsAreMultiplicities(hash, answers, a);
    forall b | b in answers ensures hash(b.SoughtText()) != hash(a.CountedText()) {
      NotFound(hash, answers, s, b);
    }
    CrossedAnswersValid(ledgers, s);
  }

  lemma NotFound(hash: TextHash, answers: seq<Answer>, s: PeerLedger, b: Answer)
    requires AllValid(answers) && CollisionFree(hash, answers) && b in answers && |s.accountsMap| >= 2
    requires Crossed(s) in answers && (b.ledger == s ==> b == Crossed(s))
    ensures hash(b.SoughtText()) != hash(Crossed(s).CountedText())
  {
    CrossedValid(s);
    HashHasOneLedger(hash, answers, Crossed(s), b);
  }

  lemma OnlyFirstAdopted(hash: TextHash, ledgers: seq<PeerLedger>, s: PeerLedger, r: PeerLedger)
    requires IsStrictMode(multiset(ledgers), s) && |s.accountsMap| >= 2 && NoCollisions(hash, multiset(ledgers))
    requires AllValid(CrossedAnswers(ledgers, s)) && MayAdopt(hash, CrossedAnswers(ledgers, s), r)
    ensures r == ledgers[0]
  {
    var answers, a := CrossedAnswers(ledgers, s), Crossed(s);
    CrossedCount(hash, ledgers, s);
    var best :| MaximalHash(hash, answers, best) && r == Chosen(hash, answers, best);
    var b := MaximalAnswer(hash, answers, best);
    CountsNeverExceed(hash, answers, b);
    CrossedAnswersValid(ledgers, s);
    assert b == CrossedOnly(s)(b.ledger);
    assert b == a;
  }

  /**
   * From two accounts on the promise fails, whatever else is received: a most common ledger with two accounts or
   * more is counted in full, but not found again, so the first answer may be adopted, and if that ledger is
   * strictly most common, nothing else can be, whatever the order of the hash table.
   */
  lemma FirstAdoptedOverMode(hash: TextHash, ledgers: seq<PeerLedger>, s: PeerLedger, r: PeerLedger)
    requires IsPlurality(multiset(ledgers), s) && |s.accountsMap| >= 2 && NoCollisions(hash, multiset(ledgers))
    ensures AllValid(CrossedAnswers(ledgers, s)) && Ledgers(CrossedAnswers(ledgers, s)) == ledgers
    ensures MayAdopt(hash, CrossedAnswers(ledgers, s), ledgers[0])
    ensures IsStrictMode(multiset(ledgers), s) ==> (MayAdopt(hash, CrossedAnswers(ledgers, s), r) <==> r == ledgers[0])
  {
    CrossedCount(hash, ledgers, s);
    FullCountMaximal(hash, CrossedAnswers(ledgers, s), hash(Crossed(s).CountedText()));
    if IsStrictMode(multiset(ledgers), s) && MayAdopt(hash, CrossedAnswers(ledgers, s), r) {
      OnlyFirstAdopted(hash, ledgers, s, r);
    }
  }

  lemma {:induction false} ListOf(received: multiset<PeerLedger>) returns (ledgers: seq<PeerLedger>)
    ensures multiset(ledgers) == received
    decreases |received|
  {
    if received == multiset{} {
      ledgers := [];
    } else {
      var t :| t in received;
      var rest := ListOf(received - multiset{t});
      ledgers := [t] + rest;
    }
  }

  lemma CrossedFails(hash: TextHash, received: multiset<PeerLedger>, s: PeerLedger, t: PeerLedger)
    requires NoCollisions(hash, received) && IsPlurality(received, s) && |s.accountsMap| >= 2
    requires t in received && !IsPlurality(received, t)
    ensures !AlwaysPlurality(hash, received)
  {
    var rest := ListOf(received - multiset{t});
    var ledgers := [t] + rest;
    assert multiset(ledgers) == received;
    FirstAdoptedOverMode(hash, ledgers, s, t);
    assert Received(CrossedAnswers(ledgers, s)) == received;
  }

  // ---------------------------------------------------------------- spread over many orders

  /** `n` visiting orders, none of them more than `most` times. */
  lemma {:induction false} Dealt(orders: set<seq<Bytes>>, n: nat, most: nat) returns (list: seq<seq<Bytes>>)
    requires n <= |orders| * most
    ensures |list| == n && forall o :: o in list ==> o in orders
    ensures forall o :: multiset(list)[o] <= most
    decreases orders
  {
    if orders == {} {
      list := [];
    } else {
      var o :| o in orders;
      var here := if n <= most then n else most;
      OneMoreTimes(|orders|, most);
      var rest := Dealt(orders - {o}, n - here, most);
      var same := seq(here, i => o);
      SameCount(o, here);
      list := same + rest;
      assert multiset(list) == multiset(same) + multiset(rest);
      assert multiset(rest)[o] == 0;
    }
  }

  lemma {:induction false} SameCount<T>(o: T, n: nat)
    ensures multiset(seq(n, i => o)) == multiset{}[o := n]
  {
    if n > 0 {
      SameCount(o, n - 1);
      assert seq(n, i => o) == seq(n - 1, i => o) + [o];
    }
  }

  ghost function SpreadAnswers(s: PeerLedger, list: seq<seq<Bytes>>): seq<Answer> {
    if list == [] then [] else SpreadAnswers(s, list[..|list| - 1]) + [Plain(s, list[|list| - 1])]
  }

  /** All visited alike, with ledgers from `who`, and no hash counts more than its ledger's cap. */
  ghost predicate Capped(hash: TextHash, answers: seq<Answer>, who: set<PeerLedger>, cap: PeerLedger -> nat) {
    && AllValid(answers)
    && (forall a :: a in answers ==> a.CountedText() == a.SoughtText() && a.ledger in who)
    && (forall a :: a in answers ==> HashCount(hash, answers, hash(a.CountedText())) <= cap(a.ledger))
  }

  lemma {:induction false} SpreadAnswersReceived(s: PeerLedger, list: seq<seq<Bytes>>)
    ensures Ledgers(SpreadAnswers(s, list)) == seq(|list|, i => s)
    ensures forall a :: a in SpreadAnswers(s, list) ==> a.signers in list && a == Plain(s, a.signers)
    decreases |list|
  {
    if list != [] {
      SpreadAnswersReceived(s, list[..|list| - 1]);
    }
  }

  lemma SpreadAnswersValid(s: PeerLedger, list: seq<seq<Bytes>>)
    requires forall x :: x in list ==> x in Orders(s.used.Keys)
    ensures var answers := SpreadAnswers(s, list);
            && AllValid(answers) && Received(answers) == multiset{}[s := |list|]
            && forall a :: a in answers ==>
                 a.CountedText() == a.SoughtText() && a.ledger == s && a.signers in list && a == Plain(s, a.signers)
  {
    SpreadAnswersReceived(s, list);
    SameCount(s, |list|);
    forall a | a in SpreadAnswers(s, list) ensures a.Valid() && a.CountedText() == a.SoughtText() {
      PlainValid(s, a.signers);
    }
  }

  lemma PlainTextsDiffer(hash: TextHash, received: multiset<PeerLedger>, s: PeerLedger, o: seq<Bytes>, p: seq<Bytes>)
    requires NoCollisions(hash, received) && s in received
    requires o in Orders(s.used.Keys) && p in Orders(s.used.Keys)
    ensures Plain(s, o).Valid() && Plain(s, p).Valid()
    ensures hash(Plain(s, o).CountedText()) == hash(Plain(s, p).CountedText()) <==> o == p
  {
    PlainValid(s, o);
    PlainValid(s, p);
    if hash(Plain(s, o).CountedText()) == hash(Plain(s, p).CountedText()) {
      EntriesDetermine(s.used, o, s.used, p);
    }
  }

  /** Each order's hash counts as often as the order was dealt. */
  lemma {:induction false} SpreadAnswersCount(hash: TextHash, received: multiset<PeerLedger>, s: PeerLedger,
                                              list: seq<seq<Bytes>>, o: seq<Bytes>)
    requires NoCollisions(hash, received) && s in received
    requires o in Orders(s.used.Keys) && forall x :: x in list ==> x in Orders(s.used.Keys)
    requires AllValid(SpreadAnswers(s, list)) && Plain(s, o).Valid()
    ensures HashCount(hash, SpreadAnswers(s, list), hash(Plain(s, o).CountedText())) == multiset(list)[o]
    decreases |list|
  {
    if list != [] {
      var front, last := list[..|list| - 1], list[|list| - 1];
      assert list == front + [last];
      assert last in list;
      SpreadAnswersValid(s, front);
      SpreadAnswersCount(hash, received, s, front, o);
      PlainTextsDiffer(hash, received, s, o, last);
    }
  }

  /** All answers of one ledger, so visited that no hash counts more than its cap. */
  lemma SpreadOne(hash: TextHash, received: multiset<PeerLedger>, s: PeerLedger, cap: PeerLedger -> nat)
    returns (answers: seq<Answer>)
    requires NoCollisions(hash, received) && s in received
    requires received[s] <= cap(s) * Factorial(|s.used|)
    ensures Capped(hash, answers, {s}, cap) && Received(answers) == multiset{}[s := received[s]]
  {
    OrdersCount(s.used.Keys);
    assert |s.used.Keys| == |s.used|;
    var list := Dealt(Orders(s.used.Keys), received[s], cap(s));
    answers := SpreadAnswers(s, list);
    SpreadAnswersValid(s, list);
    forall a | a in answers ensures HashCount(hash, answers, hash(a.CountedText())) <= cap(a.ledger) {
      SpreadAnswersCount(hash, received, s, list, a.signers);
    }
  }

  lemma {:induction false} CountedLedgers(hash: TextHash, received: multiset<PeerLedger>, answers: seq<Answer>,
                                          a: Answer)
    requires NoCollisions(hash, received) && AllValid(answers) && a.Valid() && a.ledger in received
    requires forall b :: b in answers ==> b.ledger in received && b.ledger != a.ledger
    ensures HashCount(hash, answers, hash(a.CountedText())) == 0
    decreases |answers|
  {
    if answers != [] {
      var last := |answers| - 1;
      assert answers == answers[..last] + [answers[last]];
      CountedLedgers(hash, received, answers[..last], a);
      var b := answers[last];
      assert b in answers && b.Valid();
      if hash(a.CountedText()) == hash(b.CountedText()) {
        TextDeterminesLedger(a.ledger, a.counted, a.signers, b.ledger, b.counted, b.signers);
      }
    }
  }

  ghost function Only(received: multiset<PeerLedger>, who: set<PeerLedger>): multiset<PeerLedger>
    decreases who
  {
    if who == {} then multiset{}
    else
      var s :| s in who;
      Only(received, who - {s})[s := received[s]]
  }

  lemma {:induction false} OnlyCounts(received: multiset<PeerLedger>, who: set<PeerLedger>, t: PeerLedger)
    ensures Only(received, who)[t] == if t in who then received[t] else 0
    decreases who
  {
    if who != {} {
      var s :| s in who && Only(received, who) == Only(received, who - {s})[s := received[s]];
      OnlyCounts(received, who - {s}, t);
    }
  }

  lemma {:induction false} SpreadAll(hash: TextHash, received: multiset<PeerLedger>, who: set<PeerLedger>,
                                     cap: PeerLedger -> nat)
    returns (answers: seq<Answer>)
    requires NoCollisions(hash, received)
    requires forall s :: s in who ==> s in received && received[s] <= cap(s) * Factorial(|s.used|)
    ensures Capped(hash, answers, who, cap)
    ensures forall t :: Received(answers)[t] == if t in who then received[t] else 0
    decreases who
  {
    if who == {} {
      answers := [];
    } else {
      var s :| s in who;
      var others := SpreadAll(hash, received, who - {s}, cap);
      var mine := SpreadOne(hash, received, s, cap);
      answers := others + mine;
      ReceivedConcat(others, mine);
      CappedConcat(hash, received, others, who - {s}, mine, {s}, cap);
    }
  }

  lemma CappedConcat(hash: TextHash, received: multiset<PeerLedger>, front: seq<Answer>, who: set<PeerLedger>,
                     back: seq<Answer>, others: set<PeerLedger>, cap: PeerLedger -> nat)
    requires NoCollisions(hash, received) && who !! others && forall s :: s in who + others ==> s in received
    requires Capped(hash, front, who, cap) && Capped(hash, back, others, cap)
    ensures Capped(hash, front + back, who + others, cap)
  {
    var answers := front + back;
    forall a | a in answers ensures HashCount(hash, answers, hash(a.CountedText())) <= cap(a.ledger) {
      CountConcat(hash, front, back, hash(a.CountedText()));
      if a in front {
        CountedLedgers(hash, received, back, a);
      } else {
        CountedLedgers(hash, received, front, a);
      }
    }
  }

  // ---------------------------------------------------------------- undependable ledgers may lose

  /** A less common ledger that counts as much as `s` when the count of `s` is spread. */
  ghost function Rival(received: multiset<PeerLedger>, s: PeerLedger): PeerLedger
    requires !Outnumbers(received, s)
  {
    var t :| t in received && !IsPlurality(received, t) && received[t] * Factorial(|s.used|) >= received[s];
    t
  }

  /** Most common ledgers may count as much as their rivals, others as often as they were received. */
  ghost function Caps(received: multiset<PeerLedger>): PeerLedger -> nat {
    s => if IsPlurality(received, s) && !Outnumbers(received, s) then received[Rival(received, s)] else received[s]
  }

  lemma FactorialPositive(n: nat)
    ensures Factorial(n) >= 1
  {
    if n > 0 {
      FactorialPositive(n - 1);
      TimesMonotone(1, Factorial(n - 1), n);
    }
  }

  lemma CapsSuffice(received: multiset<PeerLedger>, s: PeerLedger)
    requires s in received && (IsPlurality(received, s) ==> !Outnumbers(received, s))
    ensures received[s] <= Caps(received)(s) * Factorial(|s.used|)
  {
    if !IsPlurality(received, s) {
      FactorialPositive(|s.used|);
      TimesMonotone(1, Factorial(|s.used|), received[s]);
    }
  }

  /** Plain answers of the ledgers `who`, each counted in full. */
  lemma PlainAll(hash: TextHash, received: multiset<PeerLedger>, who: set<PeerLedger>) returns (answers: seq<Answer>)
    requires NoCollisions(hash, received) && forall t :: t in who ==> t in received
    ensures AllValid(answers)
    ensures forall a :: a in answers ==> a.CountedText() == a.SoughtText() && a.ledger in who
    ensures forall t :: Received(answers)[t] == if t in who then received[t] else 0
    ensures forall a :: a in answers ==> HashCount(hash, answers, hash(a.CountedText())) == received[a.ledger]
  {
    var way := (s: PeerLedger) => Plain(s, SomeOrder(s.used.Keys));
    forall s ensures way(s).ledger == s && way(s).Valid() && way(s).CountedText() == way(s).SoughtText() {
      PlainValid(s, SomeOrder(s.used.Keys));
    }
    var ledgers := ListOf(Only(received, who));
    answers := AnswersTo(ledgers, way);
    AnswersToLedgers(ledgers, way);
    forall t ensures Received(answers)[t] == if t in who then received[t] else 0 {
      OnlyCounts(received, who, t);
    }
    forall a | a in answers ensures a.ledger in who {
      LedgersOf(answers, a.ledger);
    }
    NoCollisionsAmong(hash, received, answers);
    forall a | a in answers ensures HashCount(hash, answers, hash(a.CountedText())) == received[a.ledger] {
      CountsAreMultiplicities(hash, answers, a);
    }
  }

  /** Some hash is maximal. */
  lemma {:induction false} SomeMaximal(hash: TextHash, answers: seq<Answer>, n: nat) returns (best: Bytes)
    requires AllValid(answers) && 0 < n <= |answers|
    ensures HashCount(hash, answers, best) > 0
    ensures forall i :: 0 <= i < n ==>
              HashCount(hash, answers, hash(answers[i].CountedText())) <= HashCount(hash, answers, best)
    ensures n == |answers| ==> MaximalHash(hash, answers, best)
  {
    var a := answers[n - 1];
    assert a in answers;
    CountedIffReceived(hash, answers, hash(a.CountedText()));
    best := hash(a.CountedText());
    if n > 1 {
      var before := SomeMaximal(hash, answers, n - 1);
      if HashCount(hash, answers, before) > HashCount(hash, answers, best) {
        best := before;
      }
    }
    if n == |answers| {
      forall g ensures HashCount(hash, answers, g) <= HashCount(hash, answers, best) {
        CountedIffReceived(hash, answers, g);
      }
    }
  }

  ghost function Common(received: multiset<PeerLedger>): set<PeerLedger> {
    set s | s in received && IsPlurality(received, s)
  }

  ghost function Rare(received: multiset<PeerLedger>): set<PeerLedger> {
    set s | s in received && !IsPlurality(received, s)
  }

  lemma RivalsCounted(hash: TextHash, received: multiset<PeerLedger>, front: seq<Answer>, back: seq<Answer>,
                      t: PeerLedger)
    requires AllValid(front) && AllValid(back) && t in received && Received(back)[t] == received[t]
    requires forall a :: a in back ==> HashCount(hash, back, hash(a.CountedText())) == received[a.ledger]
    ensures AllValid(front + back)
    ensures exists a :: a in front + back && a.ledger == t
                        && HashCount(hash, front + back, hash(a.CountedText())) >= received[t]
  {
    LedgersOf(back, t);
    var a: Answer :| a in back && a.ledger == t;
    CountConcat(hash, front, back, hash(a.CountedText()));
    assert a in front + back;
  }

  lemma SplitReceived(received: multiset<PeerLedger>, front: seq<Answer>, back: seq<Answer>)
    requires forall t :: Received(front)[t] == if t in Common(received) then received[t] else 0
    requires forall t :: Received(back)[t] == if t in Rare(received) then received[t] else 0
    ensures Received(front + back) == received
  {
    ReceivedConcat(front, back);
    forall t ensures Received(front + back)[t] == received[t] {
      assert t in received <==> t in Common(received) || t in Rare(received);
    }
  }

  /** All answers of `received`, the most common ledgers spread so far that none counts more than a rival. */
  lemma RivalAnswers(hash: TextHash, received: multiset<PeerLedger>) returns (answers: seq<Answer>)
    requires NoCollisions(hash, received)
    requires forall s :: IsPlurality(received, s) ==> !Outnumbers(received, s)
    ensures Capped(hash, answers, Common(received) + Rare(received), Caps(received)) && Received(answers) == received
    ensures forall t :: t in Rare(received) ==>
              exists a :: && a in answers && a.ledger == t
                          && HashCount(hash, answers, hash(a.CountedText())) >= received[t]
  {
    forall s | s in Common(received) ensures received[s] <= Caps(received)(s) * Factorial(|s.used|) {
      CapsSuffice(received, s);
    }
    var front := SpreadAll(hash, received, Common(received), Caps(received));
    var back := PlainAll(hash, received, Rare(received));
    answers := front + back;
    SplitReceived(received, front, back);
    CappedConcat(hash, received, front, Common(received), back, Rare(received), Caps(received));
    forall t | t in Rare(received)
      ensures exists a :: && a in answers && a.ledger == t
                          && HashCount(hash, answers, hash(a.CountedText())) >= received[t]
    {
      RivalsCounted(hash, received, front, back, t);
    }
  }

  lemma SpreadFails(hash: TextHash, received: multiset<PeerLedger>)
    requires NoCollisions(hash, received) && received != multiset{}
    requires forall s :: IsPlurality(received, s) ==> !Outnumbers(received, s)
    ensures !AlwaysPlurality(hash, received)
  {
    var answers := RivalAnswers(hash, received);
    AnswersCollisionFree(hash, answers);
    assert answers != [];
    var best := SomeMaximal(hash, answers, |answers|);
    var a := MaximalAnswer(hash, answers, best);
    if IsPlurality(received, a.ledger) {
      var t := Rival(received, a.ledger);
      assert t in Rare(received);
      a :| a in answers && a.ledger == t && HashCount(hash, answers, hash(a.CountedText())) >= received[t];
    }
    assert MaximalHash(hash, answers, hash(a.CountedText()));
    SteadyFound(hash, answers, a);
    assert MayAdopt(hash, answers, a.ledger);
  }

  // ---------------------------------------------------------------- main results

  /**
   * Start-up adopts a most common ledger whatever the order of arrival, of visiting hash maps and of the hash
   * table, if and only if what was received is dependable.
   */
  lemma PluralityAdoptedIff(hash: TextHash, received: multiset<PeerLedger>)
    requires NoCollisions(hash, received)
    ensures AlwaysPlurality(hash, received) <==> Dependable(received)
  {
    if Dependable(received) {
      forall answers, s | AllValid(answers) && Received(answers) == received && MayAdopt(hash, answers, s)
        ensures IsPlurality(received, s)
      {
        DependableAdopts(hash, answers, s);
      }
    } else {
      var t :| t in received && !IsPlurality(received, t);
      if s :| IsPlurality(received, s) && |s.accountsMap| >= 2 {
        CrossedFails(hash, received, s, t);
      } else {
        SpreadFails(hash, received);
      }
    }
  }

  /** Whatever the orders, exactly this ledger is adopted. */
  ghost predicate AlwaysAdopted(hash: TextHash, received: multiset<PeerLedger>, mode: PeerLedger) {
    forall answers, s ::
      AllValid(answers) && Received(answers) == received && MayAdopt(hash, answers, s) ==> s == mode
  }

  /**
   * A strictly most common ledger is adopted whatever the orders, if and only if nothing else was received, or
   * it has at most one account and outnumbers each other ledger by more than the factorial of its signers.
   */
  lemma ModeAdoptedIff(hash: TextHash, received: multiset<PeerLedger>, mode: PeerLedger)
    requires NoCollisions(hash, received) && IsStrictMode(received, mode)
    ensures AlwaysAdopted(hash, received, mode)
       <==> forall t :: t in received && t != mode ==>
              |mode.accountsMap| <= 1 && received[t] * Factorial(|mode.used|) < received[mode]
  {
    OnlyPlurality(received, mode);
    PluralityAdoptedIff(hash, received);
    StrictDependable(received, mode);
    assert AlwaysAdopted(hash, received, mode) <==> AlwaysPlurality(hash, received);
  }

  lemma OnlyPlurality(received: multiset<PeerLedger>, mode: PeerLedger)
    requires IsStrictMode(received, mode)
    ensures forall s :: IsPlurality(received, s) <==> s == mode
  {
  }

  lemma StrictDependable(received: multiset<PeerLedger>, mode: PeerLedger)
    requires forall s :: IsPlurality(received, s) <==> s == mode
    ensures Dependable(received)
       <==> forall t :: t in received && t != mode ==>
              |mode.accountsMap| <= 1 && received[t] * Factorial(|mode.used|) < received[mode]
  {
    assert IsPlurality(received, mode);
    if t :| t in received && t != mode {
      assert !IsPlurality(received, t);
      assert Dependable(received) <==> |mode.accountsMap| <= 1 && Outnumbers(received, mode);
    } else {
      assert Dependable(received);
    }
  }

  /** With at most one signer, and something else received, it takes at most one account. */
  lemma OneSignerModeAdoptedIff(hash: TextHash, received: multiset<PeerLedger>, mode: PeerLedger, other: PeerLedger)
    requires NoCollisions(hash, received) && IsStrictMode(received, mode) && |mode.used| <= 1
    requires other in received && other != mode
    ensures AlwaysAdopted(hash, received, mode) <==> |mode.accountsMap| <= 1
  {
    ModeAdoptedIff(hash, received, mode);
    assert Factorial(0) == 1 && Factorial(1) == 1;
  }
}
