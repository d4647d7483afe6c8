/**
 * The chain of recorded blocks (src/modules/blockchain.rs) with its queue of pending requesters and
 * its map of stored requests.
 */
module Blockchains {
  import opened Base
  import opened Encodings
  import opened UtxoSets

  datatype Block =
    | Genesis(time: nat)
    | Transfer(sender: Bytes, senderBalance: U64, recipient: Bytes, recipientBalance: U64,
               amount: U64, time: nat, senderNonce: nat, hash: Bytes)
    | NewAccount(address: Bytes, accountBalance: U64, time: nat, hash: Bytes)
    | Faucet(address: Bytes, accountBalance: U64, time: nat, hash: Bytes)
    | Spend(transaction: Transaction, blockHeight: nat, hash: Bytes)
    | Mint(coinbase: Coinbase, hash: Bytes)

  /** What a blockchain object holds. */
  datatype Chain = Chain(blocks: seq<Block>, queue: seq<Bytes>, requests: map<Bytes, seq<Block>>)

  /** The address a request is filed under; `None` where the source panics. */
  function Requester(b: Block): Option<Bytes> {
    match b
    case Genesis(_) => None
    case Transfer(sender, _, _, _, _, _, _, _) => Some(sender)
    case NewAccount(address, _, _, _) => Some(address)
    case Faucet(address, _, _, _) => Some(address)
    case Spend(tx, _, _) => if tx.inputs == [] then None else Some(tx.inputs[0].publicKey)
    case Mint(tx, _) => if tx.outputs == [] then None else Some(tx.outputs[0].recipient)
  }

  function BlockPreimage(b: Block): Bytes {
    match b
    case Genesis(time) => LittleEndian(time, 8)
    case Transfer(s, sb, r, rb, a, time, n, _) =>
      s + LittleEndian(sb, 8) + r + LittleEndian(rb, 8) + LittleEndian(a, 8)
      + LittleEndian(time, 8) + LittleEndian(n, 8)
    case NewAccount(address, balance, time, _) => address + LittleEndian(balance, 8) + LittleEndian(time, 8)
    case Faucet(address, balance, time, _) => address + LittleEndian(balance, 8) + LittleEndian(time, 8)
    case Spend(tx, height, _) => tx.hash + LittleEndian(height, 8)
    case Mint(tx, _) => tx.hash
  }

  /** `set_block_hash`: a genesis block has no hash field to set. */
  function Hashed(sha: Digest, b: Block): Block {
    var h := sha(BlockPreimage(b));
    match b
    case Genesis(_) => b
    case Transfer(s, sb, r, rb, a, time, n, _) => Transfer(s, sb, r, rb, a, time, n, h)
    case NewAccount(address, balance, time, _) => NewAccount(address, balance, time, h)
    case Faucet(address, balance, time, _) => Faucet(address, balance, time, h)
    case Spend(tx, height, _) => Spend(tx, height, h)
    case Mint(tx, _) => Mint(tx, h)
  }

  function Stored(c: Chain, b: Block): Option<Chain> {
    match Requester(b)
    case None => None
    case Some(who) =>
      Some(Chain(c.blocks, c.queue + [who],
                 c.requests[who := (if who in c.requests then c.requests[who] else []) + [b]]))
  }

  /** Remove the first occurrence. */
  function WithoutFirst(blocks: seq<Block>, b: Block): (rest: seq<Block>)
    ensures b !in blocks ==> rest == blocks
    ensures b in blocks ==> multiset(rest) == multiset(blocks) - multiset{b}
  {
    if blocks == [] then []
    else
      assert blocks == [blocks[0]] + blocks[1..];
      if blocks[0] == b then blocks[1..] else [blocks[0]] + WithoutFirst(blocks[1..], b)
  }

  function Pushed(sha: Digest, c: Chain, b: Block): Option<Chain> {
    match Requester(b)
    case None => None
    case Some(who) =>
      var h := Hashed(sha, b);
      Some(Chain(c.blocks + [h],
                 if c.queue == [] then [] else c.queue[1..],
                 if who in c.requests then c.requests[who := WithoutFirst(c.requests[who], h)] else c.requests))
  }

  /**
   * A push takes the oldest requester off the queue and, of the requests filed under the block's requester, one
   * equal to the hashed block, if there is one; everything else stays filed.
   */
  lemma PushDrains(sha: Digest, c: Chain, b: Block, who: Bytes)
    requires Requester(b) == Some(who)
    ensures Pushed(sha, c, b).Some?
    ensures var after, h := Pushed(sha, c, b).value, Hashed(sha, b);
            && after.blocks == c.blocks + [h]
            && (c.queue == [] ==> after.queue == [])
            && (c.queue != [] ==> [c.queue[0]] + after.queue == c.queue)
            && after.requests.Keys == c.requests.Keys
            && (forall k :: k in c.requests && k != who ==> after.requests[k] == c.requests[k])
            && (who in c.requests && h !in c.requests[who] ==> after.requests[who] == c.requests[who])
            && (who in c.requests && h in c.requests[who] ==>
                  multiset(after.requests[who]) + multiset{h} == multiset(c.requests[who]))
  {
    if who in c.requests {
      FirstRemoved(c.requests[who], Hashed(sha, b));
    }
  }

  lemma FirstRemoved(list: seq<Block>, b: Block)
    ensures b !in list ==> WithoutFirst(list, b) == list
    ensures b in list ==> multiset(WithoutFirst(list, b)) + multiset{b} == multiset(list)
  {
    assert b in list ==> b in multiset(list);
  }

  // ---------------------------------------------------------------- stored requests never leave

  ghost predicate RequestsUnhashed(c: Chain) {
    forall who, b :: who in c.requests && b in c.requests[who] ==> !b.Genesis? && b.hash == []
  }

  /**
   * The documentation says a stored request leaves the map once its block is on the chain. The block
   * pushed carries a digest and the one stored does not, so the comparison never matches: storing and
   * pushing a request leaves it filed for good, while the queue of requesters is drained.
   */
  lemma StoredRequestStays(sha: Digest, c: Chain, b: Block)
    requires HasDigestLength(sha)
    requires RequestsUnhashed(c) && c.queue == []
    requires Requester(b).Some? && b.hash == []
    ensures Stored(c, b).Some? && Pushed(sha, Stored(c, b).value, b).Some?
    ensures var after := Pushed(sha, Stored(c, b).value, b).value;
            && RequestsUnhashed(after)
            && after.queue == []
            && after.requests == Stored(c, b).value.requests
            && b in after.requests[Requester(b).value]
            && after.blocks == c.blocks + [Hashed(sha, b)]
  {
    var who, stored, h := Requester(b).value, Stored(c, b).value, Hashed(sha, b);
    assert |h.hash| == DIGEST_LENGTH;
    assert RequestsUnhashed(stored);
    assert h !in stored.requests[who];
    assert stored.requests[who := stored.requests[who]] == stored.requests;
    var list := stored.requests[who];
    assert list[|list| - 1] == b;
  }

  // ---------------------------------------------------------------- the object

  class BlockChain {
    var chain: seq<Block>
    var pendingQueue: seq<Bytes>
    var requestMap: map<Bytes, seq<Block>>

    ghost function Contents(): Chain
      reads this
    {
      Chain(chain, pendingQueue, requestMap)
    }

    constructor (now: nat)
      ensures Contents() == Chain([Genesis(now)], [], map[])
    {
      chain, pendingQueue, requestMap := [Genesis(now)], [], map[];
    }

    /** `false` stands for the panic on a block nobody requested. */
    method StoreIncomingRequest(b: Block) returns (ok: bool)
      modifies this
      ensures ok <==> Stored(old(Contents()), b).Some?
      ensures Contents() == if ok then Stored(old(Contents()), b).value else old(Contents())
    {
      var who := Requester(b);
      if who.None? {
        return false;
      }
      pendingQueue := pendingQueue + [who.value];
      requestMap := requestMap[who.value := (if who.value in requestMap then requestMap[who.value] else []) + [b]];
      ok := true;
    }

    method PushBlockToChain(sha: Digest, b: Block) returns (ok: bool)
      modifies this
      ensures ok <==> Pushed(sha, old(Contents()), b).Some?
      ensures Contents() == if ok then Pushed(sha, old(Contents()), b).value else old(Contents())
    {
      var who := Requester(b);
      if who.None? {
        return false;
      }
      var block := Hashed(sha, b);
      chain := chain + [block];
      if pendingQueue != [] {
        pendingQueue := pendingQueue[1..];
      }
      if who.value in requestMap {
        requestMap := requestMap[who.value := WithoutFirst(requestMap[who.value], block)];
      }
      ok := true;
    }
  }
}
