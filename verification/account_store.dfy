/**
 * The account store (src/modules/merkle_tree.rs): every account is kept twice, as a record in
 * `accounts_vec` and as a balance in `accounts_map`. Updates find the first matching record.
 */
module AccountStore {
  import opened Base
  import opened MerkleRoot

  /** The value a MerkleTree object holds, without its cached root. */
  datatype Store = Store(vec: seq<Account>, balances: map<Bytes, U64>)

  const EMPTY_STORE := Store([], map[])

  /** The index of the first record with this key, searching from `start`. */
  function FindFrom(vec: seq<Account>, key: Bytes, start: nat): (found: Option<nat>)
    requires start <= |vec|
    ensures found.Some? ==> start <= found.value < |vec| && vec[found.value].publicKey == key
    ensures found.Some? ==> forall i :: start <= i < found.value ==> vec[i].publicKey != key
    ensures found.None? ==> forall i :: start <= i < |vec| ==> vec[i].publicKey != key
    decreases |vec| - start
  {
    if start == |vec| then None
    else if vec[start].publicKey == key then Some(start)
    else FindFrom(vec, key, start + 1)
  }

  function FindFirst(vec: seq<Account>, key: Bytes): Option<nat> {
    FindFrom(vec, key, 0)
  }

  function Insert(s: Store, a: Account): Store {
    Store(s.vec + [a], s.balances[a.publicKey := a.balance])
  }

  function GetBalance(s: Store, key: Bytes): Option<U64> {
    if key in s.balances then Some(s.balances[key]) else None
  }

  function GetNonce(s: Store, key: Bytes): Option<nat> {
    match FindFirst(s.vec, key)
    case Some(i) => Some(s.vec[i].nonce)
    case None => None
  }

  function ChangeBalance(s: Store, key: Bytes, balance: U64): Store {
    Store(
      match FindFirst(s.vec, key)
      case Some(i) => s.vec[i := s.vec[i].(balance := balance)]
      case None => s.vec,
      if key in s.balances then s.balances[key := balance] else s.balances)
  }

  function IncrementNonce(s: Store, key: Bytes): Store {
    match FindFirst(s.vec, key)
    case Some(i) => s.(vec := s.vec[i := s.vec[i].(nonce := s.vec[i].nonce + 1)])
    case None => s
  }

  // ---------------------------------------------------------------- agreement of the two copies

  ghost predicate DistinctKeys(vec: seq<Account>) {
    forall i, j :: 0 <= i < j < |vec| ==> vec[i].publicKey != vec[j].publicKey
  }

  /** The vector has one record per key, the map the same keys, and both the same balances. */
  ghost predicate Agreed(s: Store) {
    && DistinctKeys(s.vec)
    && (forall i :: 0 <= i < |s.vec| ==>
          s.vec[i].publicKey in s.balances && s.balances[s.vec[i].publicKey] == s.vec[i].balance)
    && (forall k {:trigger FindFirst(s.vec, k)} :: k in s.balances ==> FindFirst(s.vec, k).Some?)
  }

  lemma FindFirstOfDistinct(vec: seq<Account>, i: nat)
    requires DistinctKeys(vec) && i < |vec|
    ensures FindFirst(vec, vec[i].publicKey) == Some(i)
  {
  }

  lemma FindFirstKeyed(vec: seq<Account>, other: seq<Account>, key: Bytes)
    requires |vec| <= |other|
    requires forall i :: 0 <= i < |vec| ==> vec[i].publicKey == other[i].publicKey
    ensures FindFirst(vec, key).Some? ==> FindFirst(other, key) == FindFirst(vec, key)
    ensures |vec| == |other| ==> FindFirst(other, key) == FindFirst(vec, key)
  {
  }

  /** Creating an account keeps the two copies in agreement exactly when the key is new. */
  lemma InsertKeepsAgreement(s: Store, a: Account)
    requires Agreed(s)
    ensures Agreed(Insert(s, a)) <==> a.publicKey !in s.balances
  {
    var t := Insert(s, a);
    if a.publicKey in s.balances {
      var i := FindFirst(s.vec, a.publicKey).value;
      assert t.vec[i].publicKey == t.vec[|s.vec|].publicKey;
    } else {
      forall i | 0 <= i < |t.vec|
        ensures t.vec[i].publicKey in t.balances && t.balances[t.vec[i].publicKey] == t.vec[i].balance
      {
        if i < |s.vec| {
          assert t.vec[i] == s.vec[i];
        }
      }
      forall i, j | 0 <= i < j < |t.vec| ensures t.vec[i].publicKey != t.vec[j].publicKey {
        assert t.vec[i] == s.vec[i];
        if j < |s.vec| {
          assert t.vec[j] == s.vec[j];
        }
      }
      forall k | k in t.balances ensures FindFirst(t.vec, k).Some? {
        if k in s.balances {
          FindFirstKeyed(s.vec, t.vec, k);
        } else {
          assert t.vec[|s.vec|].publicKey == k;
        }
      }
    }
  }

  /** Rewriting a record without touching its key leaves every search result alone. */
  lemma UpdateRecord(vec: seq<Account>, i: nat, record: Account, key: Bytes)
    requires i < |vec| && record.publicKey == vec[i].publicKey
    ensures FindFirst(vec[i := record], key) == FindFirst(vec, key)
  {
    FindFirstKeyed(vec, vec[i := record], key);
  }

  /** A balance update reaches both copies of one account and nothing else. */
  lemma ChangeBalanceKeepsAgreement(s: Store, key: Bytes, balance: U64)
    requires Agreed(s)
    ensures Agreed(ChangeBalance(s, key, balance))
  {
    if FindFirst(s.vec, key).Some? {
      var i := FindFirst(s.vec, key).value;
      var t := ChangeBalance(s, key, balance);
      forall j | 0 <= j < |t.vec|
        ensures t.vec[j].publicKey in t.balances && t.balances[t.vec[j].publicKey] == t.vec[j].balance
      {
        assert t.vec[j].publicKey == s.vec[j].publicKey;
        if j != i {
          assert s.vec[j].publicKey != key by {
            FindFirstOfDistinct(s.vec, j);
          }
        }
      }
      forall k | k in t.balances ensures FindFirst(t.vec, k).Some? {
        UpdateRecord(s.vec, i, t.vec[i], k);
      }
    }
  }

  /** The first record of a key. */
  ghost predicate IsFirst(vec: seq<Account>, i: nat, key: Bytes) {
    i < |vec| && vec[i].publicKey == key && forall j :: 0 <= j < i ==> vec[j].publicKey != key
  }

  /** A balance update rewrites the balance in the first record of the key, and no other field or record. */
  lemma ChangeBalanceRecords(s: Store, key: Bytes, balance: U64)
    ensures var t := ChangeBalance(s, key, balance);
            && |t.vec| == |s.vec|
            && forall i :: 0 <= i < |s.vec| ==>
                 && t.vec[i].publicKey == s.vec[i].publicKey && t.vec[i].publicKeyHash == s.vec[i].publicKeyHash
                 && t.vec[i].nonce == s.vec[i].nonce
                 && t.vec[i].balance == if IsFirst(s.vec, i, key) then balance else s.vec[i].balance
  {
  }

  /** A nonce update counts up in the first record of the key, and changes no other field or record. */
  lemma IncrementNonceRecords(s: Store, key: Bytes)
    ensures var t := IncrementNonce(s, key);
            && |t.vec| == |s.vec|
            && forall i :: 0 <= i < |s.vec| ==>
                 && t.vec[i].publicKey == s.vec[i].publicKey && t.vec[i].publicKeyHash == s.vec[i].publicKeyHash
                 && t.vec[i].balance == s.vec[i].balance
                 && t.vec[i].nonce == s.vec[i].nonce + if IsFirst(s.vec, i, key) then 1 else 0
  {
  }

  lemma ChangeBalanceReads(s: Store, key: Bytes, balance: U64, k: Bytes)
    ensures GetNonce(ChangeBalance(s, key, balance), k) == GetNonce(s, k)
    ensures GetBalance(ChangeBalance(s, key, balance), k)
         == if k == key && k in s.balances then Some(balance) else GetBalance(s, k)
  {
    if FindFirst(s.vec, key).Some? {
      var i := FindFirst(s.vec, key).value;
      UpdateRecord(s.vec, i, s.vec[i].(balance := balance), k);
    }
  }

  lemma IncrementNonceKeepsAgreement(s: Store, key: Bytes)
    requires Agreed(s)
    ensures Agreed(IncrementNonce(s, key))
  {
    if FindFirst(s.vec, key).Some? {
      var i := FindFirst(s.vec, key).value;
      var t := IncrementNonce(s, key);
      forall j | 0 <= j < |t.vec|
        ensures t.vec[j].publicKey in t.balances && t.balances[t.vec[j].publicKey] == t.vec[j].balance
      {
        assert t.vec[j].publicKey == s.vec[j].publicKey && t.vec[j].balance == s.vec[j].balance;
      }
      forall k | k in t.balances ensures FindFirst(t.vec, k).Some? {
        UpdateRecord(s.vec, i, t.vec[i], k);
      }
    }
  }

  lemma IncrementNonceReads(s: Store, key: Bytes, k: Bytes)
    ensures GetBalance(IncrementNonce(s, key), k) == GetBalance(s, k)
    ensures GetNonce(IncrementNonce(s, key), k)
         == if k == key && GetNonce(s, k).Some? then Some(GetNonce(s, k).value + 1) else GetNonce(s, k)
  {
    if FindFirst(s.vec, key).Some? {
      var i := FindFirst(s.vec, key).value;
      UpdateRecord(s.vec, i, s.vec[i].(nonce := s.vec[i].nonce + 1), k);
    }
  }

  /** The three updates of a transfer, in the source's order: pay, count, receive. */
  function Transferred(s: Store, sender: Bytes, left: U64, recipient: Bytes, received: U64): Store {
    ChangeBalance(IncrementNonce(ChangeBalance(s, sender, left), sender), recipient, received)
  }

  lemma TransferredKeepsAgreement(s: Store, sender: Bytes, left: U64, recipient: Bytes, received: U64)
    requires Agreed(s)
    ensures Agreed(Transferred(s, sender, left, recipient, received))
  {
    ChangeBalanceKeepsAgreement(s, sender, left);
    IncrementNonceKeepsAgreement(ChangeBalance(s, sender, left), sender);
    ChangeBalanceKeepsAgreement(IncrementNonce(ChangeBalance(s, sender, left), sender), recipient, received);
  }

  lemma TransferredBalances(s: Store, sender: Bytes, left: U64, recipient: Bytes, received: U64)
    requires sender in s.balances && recipient in s.balances
    ensures Transferred(s, sender, left, recipient, received).balances
         == s.balances[sender := left][recipient := received]
  {
  }

  /** A transfer raises the sender's nonce by one and nobody else's. */
  lemma TransferredNonce(s: Store, sender: Bytes, left: U64, recipient: Bytes, received: U64, k: Bytes)
    ensures GetNonce(Transferred(s, sender, left, recipient, received), k)
         == if k == sender && GetNonce(s, k).Some? then Some(GetNonce(s, k).value + 1) else GetNonce(s, k)
  {
    var paid := ChangeBalance(s, sender, left);
    ChangeBalanceReads(s, sender, left, k);
    IncrementNonceReads(paid, sender, k);
    ChangeBalanceReads(IncrementNonce(paid, sender), recipient, received, k);
  }

  // ---------------------------------------------------------------- what survives a repeated creation

  /** Both copies know the same keys, though the vector may list one twice. */
  ghost predicate KeysMatch(s: Store) {
    forall k {:trigger FindFirst(s.vec, k)} :: k in s.balances <==> FindFirst(s.vec, k).Some?
  }

  lemma AgreedKeysMatch(s: Store)
    requires Agreed(s)
    ensures KeysMatch(s)
  {
    forall k | FindFirst(s.vec, k).Some? ensures k in s.balances {
      assert s.vec[FindFirst(s.vec, k).value].publicKey == k;
    }
  }

  /** A repeated creation leaves the first record, and with it the nonce, in place. */
  lemma InsertReads(s: Store, a: Account, k: Bytes)
    ensures FindFirst(Insert(s, a).vec, k).Some? <==> FindFirst(s.vec, k).Some? || k == a.publicKey
    ensures GetNonce(Insert(s, a), k)
         == if GetNonce(s, k).None? && k == a.publicKey then Some(a.nonce) else GetNonce(s, k)
  {
    var t := Insert(s, a);
    assert forall i :: 0 <= i < |s.vec| ==> t.vec[i] == s.vec[i];
    FindFirstKeyed(s.vec, t.vec, k);
    if k == a.publicKey {
      assert t.vec[|s.vec|].publicKey == k;
    }
  }

  /** An insertion keeps the keys matching, and keeps them distinct exactly when the key is new. */
  lemma InsertKeys(s: Store, a: Account)
    requires KeysMatch(s)
    ensures KeysMatch(Insert(s, a))
    ensures DistinctKeys(Insert(s, a).vec) <==> DistinctKeys(s.vec) && a.publicKey !in s.balances
  {
    var t := Insert(s, a);
    forall k ensures k in t.balances <==> FindFirst(t.vec, k).Some? {
      InsertReads(s, a, k);
      assert k in s.balances <==> FindFirst(s.vec, k).Some?;
    }
    assert a.publicKey in s.balances <==> FindFirst(s.vec, a.publicKey).Some?;
    if a.publicKey in s.balances {
      assert t.vec[FindFirst(s.vec, a.publicKey).value].publicKey == t.vec[|s.vec|].publicKey;
    }
    assert forall i :: 0 <= i < |s.vec| ==> t.vec[i] == s.vec[i];
    if !DistinctKeys(s.vec) {
      var i, j :| 0 <= i < j < |s.vec| && s.vec[i].publicKey == s.vec[j].publicKey;
      assert t.vec[i].publicKey == t.vec[j].publicKey;
    }
  }

  /** What a balance or nonce update leaves alone: the list of keys and the set of accounts. */
  ghost predicate SameKeys(s: Store, t: Store) {
    && |t.vec| == |s.vec|
    && (forall i :: 0 <= i < |s.vec| ==> t.vec[i].publicKey == s.vec[i].publicKey)
    && t.balances.Keys == s.balances.Keys
  }

  lemma SameKeysMatch(s: Store, t: Store)
    requires SameKeys(s, t) && KeysMatch(s)
    ensures KeysMatch(t) && (DistinctKeys(t.vec) <==> DistinctKeys(s.vec))
  {
    forall k ensures k in t.balances <==> FindFirst(t.vec, k).Some? {
      FindFirstKeyed(s.vec, t.vec, k);
      assert k in s.balances <==> FindFirst(s.vec, k).Some?;
    }
  }

  lemma TransferredSameKeys(s: Store, sender: Bytes, left: U64, recipient: Bytes, received: U64)
    ensures SameKeys(s, Transferred(s, sender, left, recipient, received))
  {
    var paid := ChangeBalance(s, sender, left);
    assert SameKeys(s, paid);
    assert SameKeys(paid, IncrementNonce(paid, sender));
    assert SameKeys(IncrementNonce(paid, sender), Transferred(s, sender, left, recipient, received));
  }

  // ---------------------------------------------------------------- the object

  class MerkleTree {
    var root: Option<Node>
    var accountsVec: seq<Account>
    var accountsMap: map<Bytes, U64>

    ghost function Contents(): Store
      reads this
    {
      Store(accountsVec, accountsMap)
    }

    constructor ()
      ensures Contents() == EMPTY_STORE && root == None
    {
      root, accountsVec, accountsMap := None, [], map[];
    }

    method InsertAccount(account: Account)
      modifies this`accountsVec, this`accountsMap
      ensures Contents() == Insert(old(Contents()), account)
    {
      accountsVec := accountsVec + [account];
      accountsMap := accountsMap[account.publicKey := account.balance];
    }

    method GetAccountBalance(key: Bytes) returns (balance: Option<U64>)
      ensures balance == GetBalance(Contents(), key)
    {
      balance := if key in accountsMap then Some(accountsMap[key]) else None;
    }

    method AccountExists(key: Bytes) returns (known: bool)
      ensures known <==> GetBalance(Contents(), key).Some?
    {
      known := key in accountsMap;
    }

    method GetAccountNonce(key: Bytes) returns (nonce: Option<nat>)
      ensures nonce == GetNonce(Contents(), key)
    {
      match FindFirst(accountsVec, key) {
        case Some(i) => nonce := Some(accountsVec[i].nonce);
        case None => nonce := None;
      }
    }

    method ChangeAccountBalance(key: Bytes, balance: U64)
      modifies this`accountsVec, this`accountsMap
      ensures Contents() == ChangeBalance(old(Contents()), key, balance)
    {
      if key in accountsMap {
        accountsMap := accountsMap[key := balance];
      }
      match FindFirst(accountsVec, key) {
        case Some(i) => accountsVec := accountsVec[i := accountsVec[i].(balance := balance)];
        case None =>
      }
    }

    method IncrementAccountNonce(key: Bytes)
      modifies this`accountsVec
      ensures Contents() == IncrementNonce(old(Contents()), key)
    {
      match FindFirst(accountsVec, key) {
        case Some(i) => accountsVec := accountsVec[i := accountsVec[i].(nonce := accountsVec[i].nonce + 1)];
        case None =>
      }
    }

    /** Level by level pairing leaves exactly the top-down tree of the current accounts in `root`. */
    method GenerateMerkleRoot(sha: Digest)
      modifies this`root
      ensures root == RootOf(sha, accountsVec)
    {
      root := BuildRoot(sha, accountsVec);
    }
  }
}
