/** What the hash of a block covers (`set_block_hash` in src/modules/blockchain.rs), told by reading the bytes back. */
module BlockHashes {
  import opened Base
  import opened Encodings
  import opened UtxoSets
  import opened Blockchains

  /** Times, nonces and heights are 64-bit integers in the source. */
  predicate WordSized(b: Block) {
    match b
    case Genesis(time) => time < U64_LIMIT
    case Transfer(_, _, _, _, _, time, nonce, _) => time < U64_LIMIT && nonce < U64_LIMIT
    case NewAccount(_, _, time, _) => time < U64_LIMIT
    case Faucet(_, _, time, _) => time < U64_LIMIT
    case Spend(_, height, _) => height < U64_LIMIT
    case Mint(_, _) => true
  }

  /** The 64-bit integer written at `i`, least significant byte first. */
  function Word(bytes: Bytes, i: nat): nat
    requires i + 8 <= |bytes|
  {
    ReadLittleEndian(bytes[i..i + 8])
  }

  /** These bytes, field by field, are those of the block `b`: neither its kind nor its hash is among them. */
  ghost predicate ReadsAs(bytes: Bytes, b: Block) {
    match b
    case Genesis(time) => |bytes| == 8 && Word(bytes, 0) == time
    case Transfer(sender, senderBalance, recipient, recipientBalance, amount, time, nonce, _) =>
      var i, j := |sender|, |sender| + 8 + |recipient|;
      && |bytes| == j + 32
      && bytes[..i] == sender && Word(bytes, i) == senderBalance
      && bytes[i + 8..j] == recipient && Word(bytes, j) == recipientBalance
      && Word(bytes, j + 8) == amount && Word(bytes, j + 16) == time && Word(bytes, j + 24) == nonce
    case NewAccount(address, balance, time, _) => ReadsAsAccount(bytes, address, balance, time)
    case Faucet(address, balance, time, _) => ReadsAsAccount(bytes, address, balance, time)
    case Spend(tx, height, _) =>
      |bytes| == |tx.hash| + 8 && bytes[..|tx.hash|] == tx.hash && Word(bytes, |tx.hash|) == height
    case Mint(tx, _) => bytes == tx.hash
  }

  ghost predicate ReadsAsAccount(bytes: Bytes, address: Bytes, balance: nat, time: nat) {
    var i := |address|;
    |bytes| == i + 16 && bytes[..i] == address && Word(bytes, i) == balance && Word(bytes, i + 8) == time
  }

  lemma WordAt(front: Bytes, value: nat, back: Bytes)
    requires value < U64_LIMIT
    ensures Word(front + LittleEndian(value, 8) + back, |front|) == value
  {
    assert (front + LittleEndian(value, 8) + back)[|front|..|front| + 8] == LittleEndian(value, 8);
    WordsHold();
    LittleEndianRead(value, 8);
  }

  lemma AccountRead(address: Bytes, balance: U64, time: nat)
    requires time < U64_LIMIT
    ensures ReadsAsAccount(address + LittleEndian(balance, 8) + LittleEndian(time, 8), address, balance, time)
  {
    var bytes := address + LittleEndian(balance, 8) + LittleEndian(time, 8);
    WordAt(address, balance, LittleEndian(time, 8));
    WordAt(address + LittleEndian(balance, 8), time, []);
    assert bytes == address + LittleEndian(balance, 8) + LittleEndian(time, 8) + [];
  }

  lemma TransferRead(b: Block)
    requires b.Transfer? && WordSized(b)
    ensures ReadsAs(BlockPreimage(b), b)
  {
    var s, sb, r := b.sender, LittleEndian(b.senderBalance, 8), b.recipient;
    var rb, a, t, n := LittleEndian(b.recipientBalance, 8), LittleEndian(b.amount, 8),
                       LittleEndian(b.time, 8), LittleEndian(b.senderNonce, 8);
    var bytes := BlockPreimage(b);
    assert bytes == s + sb + (r + rb + a + t + n);
    WordAt(s, b.senderBalance, r + rb + a + t + n);
    assert bytes == (s + sb + r) + rb + (a + t + n);
    WordAt(s + sb + r, b.recipientBalance, a + t + n);
    assert bytes == (s + sb + r + rb) + a + (t + n);
    WordAt(s + sb + r + rb, b.amount, t + n);
    assert bytes == (s + sb + r + rb + a) + t + n;
    WordAt(s + sb + r + rb + a, b.time, n);
    assert bytes == (s + sb + r + rb + a + t) + n + [];
    WordAt(s + sb + r + rb + a + t, b.senderNonce, []);
  }

  /** What is hashed reads back as exactly the block's fields. */
  lemma BlockRead(b: Block)
    requires WordSized(b)
    ensures ReadsAs(BlockPreimage(b), b)
  {
    match b
    case Genesis(time) =>
      WordAt([], time, []);
      assert [] + LittleEndian(time, 8) + [] == LittleEndian(time, 8);
    case Transfer(_, _, _, _, _, _, _, _) => TransferRead(b);
    case NewAccount(address, balance, time, _) => AccountRead(address, balance, time);
    case Faucet(address, balance, time, _) => AccountRead(address, balance, time);
    case Spend(tx, height, _) =>
      WordAt(tx.hash, height, []);
      assert tx.hash + LittleEndian(height, 8) + [] == tx.hash + LittleEndian(height, 8);
    case Mint(_, _) =>
  }

  /** Blocks of one kind whose addresses and transaction hashes have equal lengths. */
  predicate SameShape(a: Block, b: Block) {
    match (a, b)
    case (Transfer(s, _, r, _, _, _, _, _), Transfer(t, _, q, _, _, _, _, _)) => |s| == |t| && |r| == |q|
    case (NewAccount(x, _, _, _), NewAccount(y, _, _, _)) => |x| == |y|
    case (Faucet(x, _, _, _), Faucet(y, _, _, _)) => |x| == |y|
    case (Spend(t, _, _), Spend(u, _, _)) => |t.hash| == |u.hash|
    case (Mint(_, _), Mint(_, _)) => true
    case _ => false
  }

  /** Equal in all but their own hashes; of a UTXO transaction its hash stands for the rest. */
  predicate SameRecord(a: Block, b: Block) {
    match (a, b)
    case (Transfer(s, sb, r, rb, x, time, n, _), Transfer(t, tb, q, qb, y, when, m, _)) =>
      s == t && sb == tb && r == q && rb == qb && x == y && time == when && n == m
    case (NewAccount(x, m, time, _), NewAccount(y, n, when, _)) => x == y && m == n && time == when
    case (Faucet(x, m, time, _), Faucet(y, n, when, _)) => x == y && m == n && time == when
    case (Spend(t, i, _), Spend(u, j, _)) => t.hash == u.hash && i == j
    case (Mint(t, _), Mint(u, _)) => t.hash == u.hash
    case _ => false
  }

  lemma SameBytesSameRecord(a: Block, b: Block)
    requires SameShape(a, b) && WordSized(a) && WordSized(b) && BlockPreimage(a) == BlockPreimage(b)
    ensures SameRecord(a, b)
  {
    BlockRead(a);
    BlockRead(b);
  }

  /** Two blocks of one shape get one hash if and only if they record the same, unless SHA-256 collides on them. */
  lemma BlockHashIff(sha: Digest, a: Block, b: Block)
    requires SameShape(a, b) && WordSized(a) && WordSized(b)
    requires CollisionFreeOn(sha, {BlockPreimage(a), BlockPreimage(b)})
    ensures !Hashed(sha, a).Genesis? && !Hashed(sha, b).Genesis?
    ensures Hashed(sha, a).hash == Hashed(sha, b).hash <==> SameRecord(a, b)
  {
    if Hashed(sha, a).hash == Hashed(sha, b).hash {
      assert BlockPreimage(a) == BlockPreimage(b);
      SameBytesSameRecord(a, b);
    }
  }

  /** Hashing changes nothing but the hash. */
  lemma HashedKeepsRecord(sha: Digest, b: Block)
    requires !b.Genesis?
    ensures SameRecord(Hashed(sha, b), b) && !Hashed(sha, b).Genesis?
    ensures b.Spend? ==> Hashed(sha, b).transaction == b.transaction
    ensures b.Mint? ==> Hashed(sha, b).coinbase == b.coinbase
  {
  }

  /** The kind of a block is not covered: creating an account and using the faucet may leave one hash. */
  lemma KindNotCovered(sha: Digest, address: Bytes, balance: U64, time: nat)
    ensures Hashed(sha, NewAccount(address, balance, time, [])).hash
         == Hashed(sha, Faucet(address, balance, time, [])).hash
  {
  }
}
