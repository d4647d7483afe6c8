/**
 * The Merkle root builder (src/modules/merkle_tree.rs): accounts become leaves, each level is
 * paired up in chunks of two with a lone last node paired with itself, until one node remains.
 */
module MerkleRoot {
  import opened Base
  import opened Encodings

  datatype Account = Account(publicKey: Bytes, publicKeyHash: Bytes, balance: U64, nonce: nat)

  datatype Node =
    | Leaf(hash: Bytes)
    | Branch(hash: Bytes, left: Node, right: Node)

  // ---------------------------------------------------------------- encoding and hashing

  function AccountPreimage(a: Account): Bytes {
    a.publicKey + BigEndian(a.balance, 8) + BigEndian(a.nonce, 8) + a.publicKeyHash
  }

  function HashAccount(sha: Digest, a: Account): Bytes {
    sha(AccountPreimage(a))
  }

  function Leaves(sha: Digest, accounts: seq<Account>): (leaves: seq<Node>)
    ensures |leaves| == |accounts|
    ensures forall i :: 0 <= i < |accounts| ==> leaves[i] == Leaf(HashAccount(sha, accounts[i]))
  {
    seq(|accounts|, i requires 0 <= i < |accounts| => Leaf(HashAccount(sha, accounts[i])))
  }

  function PairAndHash(sha: Digest, left: Node, right: Node): Node {
    Branch(sha(left.hash + right.hash), left, right)
  }

  /** The index of the right partner of node 2*i on a level of `n` nodes: itself when it is the lone last one. */
  function Partner(n: nat, i: nat): nat {
    if 2 * i + 1 < n then 2 * i + 1 else 2 * i
  }

  /** One round of `chunks(2)`. */
  function PairLevel(sha: Digest, nodes: seq<Node>): (above: seq<Node>)
    ensures |above| == (|nodes| + 1) / 2
    ensures forall i :: 0 <= i < |above| ==>
              above[i] == PairAndHash(sha, nodes[2 * i], nodes[Partner(|nodes|, i)])
    decreases |nodes|
  {
    if nodes == [] then []
    else if |nodes| == 1 then [PairAndHash(sha, nodes[0], nodes[0])]
    else
      var rest := PairLevel(sha, nodes[2..]);
      assert forall i :: 0 <= i < |rest| ==> Partner(|nodes[2..]|, i) + 2 == Partner(|nodes|, i + 1);
      [PairAndHash(sha, nodes[0], nodes[1])] + rest
  }

  // ---------------------------------------------------------------- top-down specification

  /** How many nodes stand `level` rounds above `n` leaves. */
  function LevelSize(n: nat, level: nat): nat {
    if level == 0 then n else (LevelSize(n, level - 1) + 1) / 2
  }

  /** How many rounds of pairing `n` leaves need. */
  function Height(n: nat): nat {
    if n <= 1 then 0 else 1 + Height((n + 1) / 2)
  }

  /** Node `i` of a level, described from the top down without building any level. */
  function TopDown(sha: Digest, leaves: seq<Node>, level: nat, i: nat): Node
    requires i < LevelSize(|leaves|, level)
  {
    if level == 0 then leaves[i]
    else
      PairAndHash(sha,
                  TopDown(sha, leaves, level - 1, 2 * i),
                  TopDown(sha, leaves, level - 1, Partner(LevelSize(|leaves|, level - 1), i)))
  }

  lemma {:induction false} LevelSizeAtHeight(n: nat)
    requires n >= 1
    ensures LevelSize(n, Height(n)) == 1
  {
    if n > 1 {
      LevelSizeAtHeight((n + 1) / 2);
      LevelSizeShift(n, Height((n + 1) / 2));
    }
  }

  lemma {:induction false} LevelSizeShift(n: nat, level: nat)
    ensures LevelSize((n + 1) / 2, level) == LevelSize(n, level + 1)
  {
    if level > 0 {
      LevelSizeShift(n, level - 1);
    }
  }

  /** The tree the source promises over at least one leaf. */
  function Root(sha: Digest, leaves: seq<Node>): Node
    requires |leaves| >= 1
  {
    LevelSizeAtHeight(|leaves|);
    TopDown(sha, leaves, Height(|leaves|), 0)
  }

  function RootOf(sha: Digest, accounts: seq<Account>): Option<Node> {
    if accounts == [] then None else Some(Root(sha, Leaves(sha, accounts)))
  }

  /** The loop of `generate_merkle_root`: pairing level by level yields the top-down tree. */
  method BuildRoot(sha: Digest, accounts: seq<Account>) returns (root: Option<Node>)
    ensures root == RootOf(sha, accounts)
  {
    var leaves := Leaves(sha, accounts);
    var nodes := leaves;
    ghost var level := 0;
    while |nodes| > 1
      invariant |nodes| == LevelSize(|leaves|, level)
      invariant |leaves| >= 1 ==> |nodes| >= 1
      invariant |leaves| == 0 ==> |nodes| == 0
      invariant level + Height(|nodes|) == Height(|leaves|)
      invariant forall i :: 0 <= i < |nodes| ==> nodes[i] == TopDown(sha, leaves, level, i)
      decreases |nodes|
    {
      nodes := PairLevel(sha, nodes);
      level := level + 1;
    }
    root := if |nodes| == 0 then None else Some(nodes[0]);
  }

  // ---------------------------------------------------------------- shape

  function Pow2(k: nat): (p: nat)
    ensures p >= 1
  {
    if k == 0 then 1 else 2 * Pow2(k - 1)
  }

  /** The height is the ceiling of the binary logarithm: n fits in 2^height but not in half of it. */
  lemma {:induction false} HeightIsCeilLog2(n: nat)
    requires n >= 1
    ensures n <= Pow2(Height(n))
    ensures n >= 2 ==> Pow2(Height(n) - 1) < n
  {
    if n >= 2 {
      HeightIsCeilLog2((n + 1) / 2);
    }
  }

  /** Every path from the root has length `depth`, and every branch hash is the hash of its children's hashes. */
  ghost predicate WellHashed(sha: Digest, t: Node, depth: nat) {
    if depth == 0 then t.Leaf?
    else
      && t.Branch?
      && t.hash == sha(t.left.hash + t.right.hash)
      && WellHashed(sha, t.left, depth - 1)
      && WellHashed(sha, t.right, depth - 1)
  }

  lemma {:induction false} TopDownWellHashed(sha: Digest, leaves: seq<Node>, level: nat, i: nat)
    requires i < LevelSize(|leaves|, level)
    requires forall k :: 0 <= k < |leaves| ==> leaves[k].Leaf?
    ensures WellHashed(sha, TopDown(sha, leaves, level, i), level)
  {
    if level > 0 {
      TopDownWellHashed(sha, leaves, level - 1, 2 * i);
      TopDownWellHashed(sha, leaves, level - 1, Partner(LevelSize(|leaves|, level - 1), i));
    }
  }

  lemma RootWellHashed(sha: Digest, accounts: seq<Account>)
    requires accounts != []
    ensures WellHashed(sha, RootOf(sha, accounts).value, Height(|accounts|))
  {
    LevelSizeAtHeight(|accounts|);
    TopDownWellHashed(sha, Leaves(sha, accounts), Height(|accounts|), 0);
  }

  // ---------------------------------------------------------------- paths

  /** Walk down a tree; `true` turns right. */
  function Follow(t: Node, path: seq<bool>): Option<Node> {
    if path == [] then Some(t)
    else if t.Leaf? then None
    else Follow(if path[0] then t.right else t.left, path[1..])
  }

  /** `k` with its `level` low bits dropped. */
  function Halved(k: nat, level: nat): nat {
    if level == 0 then k else Halved(k, level - 1) / 2
  }

  /** The `level` low bits of `k`, most significant first. */
  function IndexBits(k: nat, level: nat): seq<bool> {
    if level == 0 then [] else [Halved(k, level - 1) % 2 == 1] + IndexBits(k, level - 1)
  }

  lemma {:induction false} HalvedIsShift(k: nat, level: nat)
    ensures Halved(k, level) == k / Pow2(level)
  {
    if level > 0 {
      HalvedIsShift(k, level - 1);
      DivideTwice(k, Pow2(level - 1));
    }
  }

  lemma DivideTwice(k: nat, p: nat)
    requires p >= 1
    ensures (k / p) / 2 == k / (2 * p)
  {
    var q, r := k / p, k % p;
    var h, b := q / 2, q % 2;
    assert k == (2 * p) * h + (p * b + r) by {
      assert k == p * q + r;
      assert q == 2 * h + b;
      assert p * q == p * (2 * h) + p * b;
      assert p * (2 * h) == (2 * p) * h;
    }
    assert 0 <= p * b + r < 2 * p by {
      assert b == 0 || b == 1;
      assert p * b == 0 || p * b == p;
    }
    QuotientUnique(k, 2 * p, h, p * b + r);
  }

  lemma QuotientUnique(k: nat, d: nat, q: nat, r: nat)
    requires d >= 1 && k == d * q + r && r < d
    ensures k / d == q
  {
    var p := k / d;
    assert d * p <= k < d * p + d;
    if p < q {
      Scale(d, p + 1, q);
    } else if q < p {
      Scale(d, q + 1, p);
    }
  }

  lemma Scale(d: nat, low: nat, high: nat)
    requires low <= high
    ensures d * (low - 1) + d == d * low <= d * high
  {
    assert d * high == d * low + d * (high - low);
  }

  lemma {:induction false} HalvedInLevel(n: nat, k: nat, level: nat)
    requires k < n
    ensures Halved(k, level) < LevelSize(n, level)
  {
    if level > 0 {
      HalvedInLevel(n, k, level - 1);
    }
  }

  lemma {:induction false} PathToLeaf(sha: Digest, leaves: seq<Node>, level: nat, k: nat)
    requires k < |leaves|
    ensures Halved(k, level) < LevelSize(|leaves|, level)
    ensures Follow(TopDown(sha, leaves, level, Halved(k, level)), IndexBits(k, level)) == Some(leaves[k])
  {
    HalvedInLevel(|leaves|, k, level);
    if level > 0 {
      HalvedInLevel(|leaves|, k, level - 1);
      PathToLeaf(sha, leaves, level - 1, k);
      var here, below := Halved(k, level), Halved(k, level - 1);
      assert below == 2 * here + (if below % 2 == 1 then 1 else 0);
      assert IndexBits(k, level)[1..] == IndexBits(k, level - 1);
    }
  }

  /** From the root, the bits of an account's index lead to that account's leaf. */
  lemma IndexBitsReachAccount(sha: Digest, accounts: seq<Account>, k: nat)
    requires k < |accounts|
    ensures Follow(RootOf(sha, accounts).value, IndexBits(k, Height(|accounts|)))
         == Some(Leaf(HashAccount(sha, accounts[k])))
  {
    var n := |accounts|;
    var leaves := Leaves(sha, accounts);
    LevelSizeAtHeight(n);
    HalvedInLevel(n, k, Height(n));
    PathToLeaf(sha, leaves, Height(n), k);
  }

  // ---------------------------------------------------------------- binding

  /** Everything that was hashed to make the branches of `t`. */
  ghost function BranchPreimages(t: Node): set<Bytes> {
    match t
    case Leaf(_) => {}
    case Branch(_, l, r) => {l.hash + r.hash} + BranchPreimages(l) + BranchPreimages(r)
  }

  ghost predicate LeavesHaveDigestLength(t: Node) {
    match t
    case Leaf(h) => |h| == DIGEST_LENGTH
    case Branch(_, l, r) => LeavesHaveDigestLength(l) && LeavesHaveDigestLength(r)
  }

  /** Two trees of one depth have the same root hash exactly when they are the same tree. */
  lemma {:induction false} TreeBinding(sha: Digest, t: Node, u: Node, depth: nat)
    requires HasDigestLength(sha)
    requires WellHashed(sha, t, depth) && WellHashed(sha, u, depth)
    requires LeavesHaveDigestLength(t) && LeavesHaveDigestLength(u)
    requires CollisionFreeOn(sha, BranchPreimages(t) + BranchPreimages(u))
    ensures t.hash == u.hash <==> t == u
    decreases depth
  {
    if depth > 0 && t.hash == u.hash {
      DigestLengths(sha, t.left, depth - 1);
      DigestLengths(sha, u.left, depth - 1);
      assert t.left.hash + t.right.hash == u.left.hash + u.right.hash;
      SplitAt(t.left.hash, t.right.hash, u.left.hash, u.right.hash);
      TreeBinding(sha, t.left, u.left, depth - 1);
      TreeBinding(sha, t.right, u.right, depth - 1);
    }
  }

  lemma SplitAt(a: Bytes, b: Bytes, c: Bytes, d: Bytes)
    requires |a| == |c| && a + b == c + d
    ensures a == c && b == d
  {
    assert a == (a + b)[..|a|] && c == (c + d)[..|c|];
    assert b == (a + b)[|a|..] && d == (c + d)[|c|..];
  }

  lemma DigestLengths(sha: Digest, t: Node, depth: nat)
    requires HasDigestLength(sha) && WellHashed(sha, t, depth) && LeavesHaveDigestLength(t)
    ensures |t.hash| == DIGEST_LENGTH
  {
  }

  lemma {:induction false} TopDownLeafLengths(sha: Digest, leaves: seq<Node>, level: nat, i: nat)
    requires i < LevelSize(|leaves|, level)
    requires forall k :: 0 <= k < |leaves| ==> leaves[k].Leaf? && |leaves[k].hash| == DIGEST_LENGTH
    ensures LeavesHaveDigestLength(TopDown(sha, leaves, level, i))
  {
    if level > 0 {
      TopDownLeafLengths(sha, leaves, level - 1, 2 * i);
      TopDownLeafLengths(sha, leaves, level - 1, Partner(LevelSize(|leaves|, level - 1), i));
    }
  }

  /** Everything hashed while a root is generated: the account encodings and the branch contents. */
  ghost function CoveredData(sha: Digest, accounts: seq<Account>): set<Bytes>
    requires accounts != []
  {
    (set a | a in accounts :: AccountPreimage(a)) + BranchPreimages(RootOf(sha, accounts).value)
  }

  /** Among vectors of one height the root hash is equal exactly when the whole tree is. */
  lemma RootBindsTree(sha: Digest, a: seq<Account>, b: seq<Account>)
    requires HasDigestLength(sha)
    requires a != [] && b != [] && Height(|a|) == Height(|b|)
    requires CollisionFreeOn(sha, CoveredData(sha, a) + CoveredData(sha, b))
    ensures RootOf(sha, a).value.hash == RootOf(sha, b).value.hash <==> RootOf(sha, a) == RootOf(sha, b)
  {
    RootWellHashed(sha, a);
    RootWellHashed(sha, b);
    LevelSizeAtHeight(|a|);
    LevelSizeAtHeight(|b|);
    TopDownLeafLengths(sha, Leaves(sha, a), Height(|a|), 0);
    TopDownLeafLengths(sha, Leaves(sha, b), Height(|b|), 0);
    TreeBinding(sha, RootOf(sha, a).value, RootOf(sha, b).value, Height(|a|));
  }

  /** Equal roots over equally many accounts commit to the same account hash at every index. */
  lemma RootBindsLeaves(sha: Digest, a: seq<Account>, b: seq<Account>)
    requires HasDigestLength(sha)
    requires |a| == |b| >= 1
    requires CollisionFreeOn(sha, CoveredData(sha, a) + CoveredData(sha, b))
    ensures RootOf(sha, a).value.hash == RootOf(sha, b).value.hash
       <==> forall k :: 0 <= k < |a| ==> HashAccount(sha, a[k]) == HashAccount(sha, b[k])
  {
    if forall k :: 0 <= k < |a| ==> HashAccount(sha, a[k]) == HashAccount(sha, b[k]) {
      assert Leaves(sha, a) == Leaves(sha, b);
    }
    RootBindsTree(sha, a, b);
    if RootOf(sha, a) == RootOf(sha, b) {
      forall k | 0 <= k < |a| ensures HashAccount(sha, a[k]) == HashAccount(sha, b[k]) {
        IndexBitsReachAccount(sha, a, k);
        IndexBitsReachAccount(sha, b, k);
      }
    }
  }

  /**
   * What an account hash covers, read back from the bytes hashed: the public key, the balance and the nonce as
   * 64-bit integers with the most significant byte first, and the key hash.
   */
  lemma AccountLayout(a: Account)
    requires a.nonce < U64_LIMIT
    ensures var bytes, n := AccountPreimage(a), |a.publicKey|;
            && |bytes| == n + 16 + |a.publicKeyHash|
            && bytes[..n] == a.publicKey
            && ReadBigEndian(bytes[n..n + 8]) == a.balance
            && ReadBigEndian(bytes[n + 8..n + 16]) == a.nonce
            && bytes[n + 16..] == a.publicKeyHash
  {
    var bytes, n := AccountPreimage(a), |a.publicKey|;
    assert bytes[n..n + 8] == BigEndian(a.balance, 8);
    assert bytes[n + 8..n + 16] == BigEndian(a.nonce, 8);
    WordsHold();
    BigEndianRead(a.balance, 8);
    BigEndianRead(a.nonce, 8);
  }

  /** The account encoding is injective once public keys have one length, because the two integers have fixed width. */
  lemma AccountEncodingInjective(a: Account, b: Account)
    requires |a.publicKey| == |b.publicKey|
    requires a.nonce < U64_LIMIT && b.nonce < U64_LIMIT
    requires AccountPreimage(a) == AccountPreimage(b)
    ensures a == b
  {
    AccountLayout(a);
    AccountLayout(b);
  }

  /** The root commits to the whole account vector. */
  lemma RootBindsAccounts(sha: Digest, a: seq<Account>, b: seq<Account>)
    requires HasDigestLength(sha)
    requires |a| == |b| >= 1
    requires CollisionFreeOn(sha, CoveredData(sha, a) + CoveredData(sha, b))
    requires forall k :: 0 <= k < |a| ==>
               |a[k].publicKey| == |b[k].publicKey| && a[k].nonce < U64_LIMIT && b[k].nonce < U64_LIMIT
    ensures RootOf(sha, a).value.hash == RootOf(sha, b).value.hash <==> a == b
  {
    if RootOf(sha, a).value.hash == RootOf(sha, b).value.hash {
      RootBindsLeaves(sha, a, b);
      forall k | 0 <= k < |a| ensures a[k] == b[k] {
        assert HashAccount(sha, a[k]) == HashAccount(sha, b[k]);
        assert AccountPreimage(a[k]) in CoveredData(sha, a);
        assert AccountPreimage(b[k]) in CoveredData(sha, b);
        AccountEncodingInjective(a[k], b[k]);
      }
    }
  }

  // ---------------------------------------------------------------- why equal length is needed

  /** An odd vector of three or more accounts has the very same tree as itself with the last account repeated. */
  lemma OddLengthIsAmbiguous(sha: Digest, accounts: seq<Account>)
    requires |accounts| >= 3 && |accounts| % 2 == 1
    ensures RootOf(sha, accounts) == RootOf(sha, accounts + [accounts[|accounts| - 1]])
  {
    var n := |accounts|;
    var longer := accounts + [accounts[n - 1]];
    LevelSizeAtHeight(n);
    LevelSizeAtHeight(n + 1);
    assert (n + 1) / 2 == (n + 2) / 2;
    SameAboveLeaves(sha, Leaves(sha, accounts), Leaves(sha, longer), Height(n), 0);
  }

  lemma {:induction false} SameAboveLeaves(sha: Digest, a: seq<Node>, b: seq<Node>, level: nat, i: nat)
    requires |a| % 2 == 1 && b == a + [a[|a| - 1]]
    requires level >= 1
    requires i < LevelSize(|a|, level)
    ensures LevelSize(|a|, level) == LevelSize(|b|, level)
    ensures TopDown(sha, a, level, i) == TopDown(sha, b, level, i)
  {
    if level > 1 {
      SameAboveLeaves(sha, a, b, level - 1, 2 * i);
      SameAboveLeaves(sha, a, b, level - 1, Partner(LevelSize(|a|, level - 1), i));
    } else {
      assert LevelSize(|a|, 0) == |a| && LevelSize(|b|, 0) == |b|;
      assert TopDown(sha, a, 0, 2 * i) == TopDown(sha, b, 0, 2 * i);
      assert TopDown(sha, a, 0, Partner(|a|, i)) == a[Partner(|a|, i)];
      assert TopDown(sha, b, 0, Partner(|b|, i)) == b[Partner(|b|, i)];
    }
  }
}
