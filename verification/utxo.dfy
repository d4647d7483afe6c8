/**
 * The UTXO set (src/modules/utxo.rs): a primary map from outpoints to unspent outputs, a recipient
 * index beside it and a cached count.
 */
module UtxoSets {
  import opened Base
  import opened Encodings

  type U32 = x: int | 0 <= x < 0x1_0000_0000

  datatype OutPoint = OutPoint(txid: Bytes, vout: U32)

  datatype Utxo = Utxo(amount: U64, recipient: Bytes, blockHeight: nat, timestamp: U64)

  datatype TxInput = TxInput(outpoint: OutPoint, signature: string, publicKey: Bytes)

  datatype TxOutput = TxOutput(amount: U64, recipient: Bytes)

  datatype Transaction = Transaction(inputs: seq<TxInput>, outputs: seq<TxOutput>, timestamp: U64, hash: Bytes)

  datatype Coinbase = Coinbase(outputs: seq<TxOutput>, blockHeight: nat, timestamp: U64, hash: Bytes)

  type UtxoMap = map<OutPoint, Utxo>

  type Index = map<Bytes, seq<OutPoint>>

  // ---------------------------------------------------------------- transactions

  function InputBytes(inputs: seq<TxInput>): Bytes {
    if inputs == [] then []
    else
      inputs[0].outpoint.txid + LittleEndian(inputs[0].outpoint.vout, 4) + inputs[0].publicKey
      + InputBytes(inputs[1..])
  }

  function OutputBytes(outputs: seq<TxOutput>): Bytes {
    if outputs == [] then []
    else LittleEndian(outputs[0].amount, 8) + outputs[0].recipient + OutputBytes(outputs[1..])
  }

  /** What the hash of a transaction is taken of; signatures are not covered. */
  function TransactionPreimage(inputs: seq<TxInput>, outputs: seq<TxOutput>, timestamp: U64): Bytes {
    InputBytes(inputs) + OutputBytes(outputs) + LittleEndian(timestamp, 8)
  }

  /** `UTXOTransaction::new`. */
  function NewTransaction(sha: Digest, inputs: seq<TxInput>, outputs: seq<TxOutput>, timestamp: U64): Transaction {
    Transaction(inputs, outputs, timestamp, sha(TransactionPreimage(inputs, outputs, timestamp)))
  }

  function Outpoints(inputs: seq<TxInput>): set<OutPoint> {
    set input | input in inputs :: input.outpoint
  }

  lemma OutpointsSnoc(m: UtxoMap, inputs: seq<TxInput>, i: nat)
    requires i < |inputs|
    ensures Outpoints(inputs[..i + 1]) == Outpoints(inputs[..i]) + {inputs[i].outpoint}
    ensures m - Outpoints(inputs[..i + 1]) == m - Outpoints(inputs[..i]) - {inputs[i].outpoint}
  {
    assert inputs[..i + 1] == inputs[..i] + [inputs[i]];
  }

  predicate AllPresent(m: UtxoMap, inputs: seq<TxInput>) {
    forall i :: 0 <= i < |inputs| ==> inputs[i].outpoint in m
  }

  predicate DistinctInputs(inputs: seq<TxInput>) {
    forall i, j :: 0 <= i < j < |inputs| ==> inputs[i].outpoint != inputs[j].outpoint
  }

  // ---------------------------------------------------------------- what applying a transaction means

  /** `index as u32` truncates. */
  function OutputName(txid: Bytes, index: nat): OutPoint {
    OutPoint(txid, index % U32_LIMIT)
  }

  /** The map after the first `n` outputs of a transaction were added, one at a time. */
  function WithOutputs(m: UtxoMap, txid: Bytes, outputs: seq<TxOutput>, height: nat, time: U64, n: nat): UtxoMap
    requires n <= |outputs|
  {
    if n == 0 then m
    else
      var o := outputs[n - 1];
      WithOutputs(m, txid, outputs, height, time, n - 1)
      [OutputName(txid, n - 1) := Utxo(o.amount, o.recipient, height, time)]
  }

  /** `None` stands for the error "UTXO not found". */
  function Applied(m: UtxoMap, tx: Transaction, height: nat): Option<UtxoMap> {
    if AllPresent(m, tx.inputs)
    then Some(WithOutputs(m - Outpoints(tx.inputs), tx.hash, tx.outputs, height, tx.timestamp, |tx.outputs|))
    else None
  }

  // ---------------------------------------------------------------- the recipient index

  /** Every list is non-empty, duplicate-free, and holds exactly the outpoints its recipient owns. */
  ghost predicate IndexExact(m: UtxoMap, index: Index) {
    && (forall r :: r in index ==> index[r] != [])
    && (forall r {:trigger NoDuplicates(index[r])} :: r in index ==> NoDuplicates(index[r]))
    && (forall r, op :: r in index && op in index[r] ==> op in m && m[op].recipient == r)
    && (forall op {:trigger m[op].recipient} :: op in m ==> m[op].recipient in index && op in index[m[op].recipient])
  }

  /** `retain(|op| op != outpoint)`. */
  function Retain(list: seq<OutPoint>, drop: OutPoint): (kept: seq<OutPoint>)
    ensures forall op :: op in kept <==> op in list && op != drop
    ensures NoDuplicates(list) ==> NoDuplicates(kept)
  {
    if list == [] then []
    else
      var rest := Retain(list[1..], drop);
      assert NoDuplicates(list) ==> NoDuplicates(list[1..]) && list[0] !in list[1..];
      if list[0] == drop then rest
      else
        Prepended(list[0], rest);
        [list[0]] + rest
  }

  lemma Prepended<T>(x: T, s: seq<T>)
    ensures NoDuplicates(s) && x !in s ==> NoDuplicates([x] + s)
  {
    assert forall i :: 1 <= i < |[x] + s| ==> ([x] + s)[i] == s[i - 1];
  }

  /** Index upkeep when `outpoint` stops belonging to `recipient`. */
  function Unlisted(index: Index, recipient: Bytes, outpoint: OutPoint): Index {
    if recipient !in index then index
    else
      var kept := Retain(index[recipient], outpoint);
      if kept == [] then index - {recipient} else index[recipient := kept]
  }

  /** Index upkeep when `outpoint` is pushed to its owner's list. */
  function Listed(index: Index, recipient: Bytes, outpoint: OutPoint): Index {
    index[recipient := (if recipient in index then index[recipient] else []) + [outpoint]]
  }

  /** Exactly `outpoint` leaves exactly `recipient`'s list. */
  lemma UnlistedMembers(index: Index, recipient: Bytes, outpoint: OutPoint, r: Bytes, op: OutPoint)
    ensures var after := Unlisted(index, recipient, outpoint);
      (r in after && op in after[r]) <==> (r in index && op in index[r] && !(r == recipient && op == outpoint))
  {
  }

  lemma UnlistedExact(m: UtxoMap, index: Index, op: OutPoint)
    requires IndexExact(m, index) && op in m
    ensures IndexExact(m - {op}, Unlisted(index, m[op].recipient, op))
  {
    var owner, rest := m[op].recipient, m - {op};
    var after := Unlisted(index, owner, op);
    forall r | r in after ensures after[r] != [] && NoDuplicates(after[r]) {
      assert r in index && NoDuplicates(index[r]);
    }
    forall r, x | r in after && x in after[r] ensures x in rest && rest[x].recipient == r {
      UnlistedMembers(index, owner, op, r, x);
    }
    forall x | x in rest ensures rest[x].recipient in after && x in after[rest[x].recipient] {
      assert rest[x] == m[x];
      UnlistedMembers(index, owner, op, m[x].recipient, x);
    }
  }

  lemma ListedExact(m: UtxoMap, index: Index, op: OutPoint, utxo: Utxo)
    requires IndexExact(m, index) && op !in m
    ensures IndexExact(m[op := utxo], Listed(index, utxo.recipient, op))
  {
    var r := utxo.recipient;
    var after := Listed(index, r, op);
    forall q | q in after ensures NoDuplicates(after[q]) {
      assert q in index ==> NoDuplicates(index[q]);
    }
    assert op in after[r] by {
      assert after[r][|after[r]| - 1] == op;
    }
    assert forall x :: r in index && x in index[r] ==> x in after[r];
  }

  /** Index upkeep of `add_utxo`: drop the replaced entry, then list the new one. */
  function IndexAfterAdd(m: UtxoMap, index: Index, op: OutPoint, utxo: Utxo): Index {
    Listed(if op in m then Unlisted(index, m[op].recipient, op) else index, utxo.recipient, op)
  }

  lemma RemoveThenAdd(m: UtxoMap, op: OutPoint, utxo: Utxo)
    ensures (m - {op})[op := utxo] == m[op := utxo]
    ensures op !in m ==> m - {op} == m
    ensures |m[op := utxo]| == if op in m then |m| else |m| + 1
  {
    assert m[op := utxo].Keys == m.Keys + {op};
  }

  lemma AddExact(m: UtxoMap, index: Index, op: OutPoint, utxo: Utxo)
    requires IndexExact(m, index)
    ensures IndexExact(m[op := utxo], IndexAfterAdd(m, index, op, utxo))
  {
    RemoveThenAdd(m, op, utxo);
    if op in m {
      UnlistedExact(m, index, op);
      ListedExact(m - {op}, Unlisted(index, m[op].recipient, op), op, utxo);
    } else {
      ListedExact(m, index, op, utxo);
    }
  }

  lemma RemoveExact(m: UtxoMap, index: Index, op: OutPoint)
    requires IndexExact(m, index) && op in m
    ensures IndexExact(m - {op}, Unlisted(index, m[op].recipient, op))
    ensures |m - {op}| == |m| - 1
  {
    UnlistedExact(m, index, op);
    assert (m - {op}).Keys == m.Keys - {op};
  }

  /** The entries `get_utxos_for_recipient` collects from one index list. */
  function Entries(m: UtxoMap, list: seq<OutPoint>): (entries: seq<(OutPoint, Utxo)>)
    ensures forall e :: e in entries <==> e.0 in list && e.0 in m && m[e.0] == e.1
    ensures NoDuplicates(list) ==> NoDuplicates(entries)
  {
    if list == [] then []
    else if list[0] in m then [(list[0], m[list[0]])] + Entries(m, list[1..])
    else Entries(m, list[1..])
  }

  function UtxosFor(m: UtxoMap, index: Index, recipient: Bytes): seq<(OutPoint, Utxo)> {
    if recipient in index then Entries(m, index[recipient]) else []
  }

  function AmountSum(entries: seq<(OutPoint, Utxo)>): nat {
    if entries == [] then 0 else entries[0].1.amount + AmountSum(entries[1..])
  }

  function IndexedBalance(m: UtxoMap, index: Index, recipient: Bytes): nat {
    AmountSum(UtxosFor(m, index, recipient))
  }

  // ---------------------------------------------------------------- value held, by a full scan

  /** `who` is one recipient, or everybody. */
  predicate Owns(who: Option<Bytes>, utxo: Utxo) {
    who.None? || utxo.recipient == who.value
  }

  function Share(who: Option<Bytes>, utxo: Utxo): nat {
    if Owns(who, utxo) then utxo.amount else 0
  }

  ghost function Owned(m: UtxoMap, who: Option<Bytes>): UtxoMap {
    map op | op in m && Owns(who, m[op]) :: m[op]
  }

  function Amount(utxo: Utxo): nat {
    utxo.amount
  }

  ghost function Total(m: UtxoMap): nat {
    SumBy(m, Amount)
  }

  /** The value held by `who` in the whole map, the recipient index unseen. */
  ghost function Holdings(m: UtxoMap, who: Option<Bytes>): nat {
    Total(Owned(m, who))
  }

  lemma HoldingsRemove(m: UtxoMap, op: OutPoint, who: Option<Bytes>)
    requires op in m
    ensures Holdings(m, who) == Holdings(m - {op}, who) + Share(who, m[op])
  {
    if Owns(who, m[op]) {
      SumPick(Owned(m, who), Amount, op);
      assert Owned(m, who) - {op} == Owned(m - {op}, who);
    } else {
      assert Owned(m, who) == Owned(m - {op}, who);
    }
  }

  lemma HoldingsAdd(m: UtxoMap, op: OutPoint, utxo: Utxo, who: Option<Bytes>)
    ensures Holdings(m[op := utxo], who) + (if op in m then Share(who, m[op]) else 0)
         == Holdings(m, who) + Share(who, utxo)
  {
    HoldingsRemove(m[op := utxo], op, who);
    if op in m {
      HoldingsRemove(m, op, who);
      assert m[op := utxo] - {op} == m - {op};
    } else {
      assert m[op := utxo] - {op} == m;
    }
  }

  // ---------------------------------------------------------------- the index answers like a full scan

  lemma {:induction false} EntriesSum(m: UtxoMap, list: seq<OutPoint>, owned: UtxoMap)
    requires NoDuplicates(list)
    requires owned.Keys == (set op | op in list)
    requires forall op :: op in owned ==> op in m && m[op] == owned[op]
    ensures AmountSum(Entries(m, list)) == Total(owned)
    decreases |list|
  {
    if list != [] {
      assert list[0] in owned;
      assert (owned - {list[0]}).Keys == (set op | op in list[1..]) by {
        assert forall op :: op in list <==> op == list[0] || op in list[1..];
        assert list[0] !in list[1..];
      }
      EntriesSum(m, list[1..], owned - {list[0]});
      SumPick(owned, Amount, list[0]);
    }
  }

  lemma IndexedBalanceIsScan(m: UtxoMap, index: Index, recipient: Bytes)
    requires IndexExact(m, index)
    ensures IndexedBalance(m, index, recipient) == Holdings(m, Some(recipient))
  {
    var owned := Owned(m, Some(recipient));
    if recipient in index {
      assert owned.Keys == (set op | op in index[recipient]);
      EntriesSum(m, index[recipient], owned);
    } else {
      assert owned == map[];
    }
  }

  lemma UtxosForIsScan(m: UtxoMap, index: Index, recipient: Bytes)
    requires IndexExact(m, index)
    ensures NoDuplicates(UtxosFor(m, index, recipient))
    ensures forall e :: e in UtxosFor(m, index, recipient)
                   <==> e.0 in m && m[e.0] == e.1 && e.1.recipient == recipient
  {
  }

  lemma {:induction false} SameMembersSameMultiset<T>(a: seq<T>, b: seq<T>)
    requires NoDuplicates(a) && NoDuplicates(b)
    requires forall x :: x in a <==> x in b
    ensures multiset(a) == multiset(b)
  {
    forall x ensures multiset(a)[x] == multiset(b)[x] {
      CountInDistinct(a, x);
      CountInDistinct(b, x);
    }
  }

  lemma {:induction false} CountInDistinct<T>(s: seq<T>, x: T)
    requires NoDuplicates(s)
    ensures multiset(s)[x] == if x in s then 1 else 0
  {
    if s != [] {
      assert s == [s[0]] + s[1..];
      CountInDistinct(s[1..], x);
    }
  }

  /**
   * Two indexes that are exact for one map, such as the incrementally kept one and the one rebuilt after
   * deserialisation, answer every query alike: same balance, same multiset of UTXOs.
   */
  lemma ExactIndexesAgree(m: UtxoMap, a: Index, b: Index, recipient: Bytes)
    requires IndexExact(m, a) && IndexExact(m, b)
    ensures a.Keys == b.Keys
    ensures IndexedBalance(m, a, recipient) == IndexedBalance(m, b, recipient)
    ensures multiset(UtxosFor(m, a, recipient)) == multiset(UtxosFor(m, b, recipient))
  {
    IndexedBalanceIsScan(m, a, recipient);
    IndexedBalanceIsScan(m, b, recipient);
    UtxosForIsScan(m, a, recipient);
    UtxosForIsScan(m, b, recipient);
    SameMembersSameMultiset(UtxosFor(m, a, recipient), UtxosFor(m, b, recipient));
    forall r | r in a ensures r in b {
      assert m[a[r][0]].recipient == r;
    }
    forall r | r in b ensures r in a {
      assert m[b[r][0]].recipient == r;
    }
  }

  // ---------------------------------------------------------------- the object

  class UtxoSet {
    var utxos: UtxoMap
    var recipientIndex: Index
    var count: nat

    ghost predicate Valid()
      reads this
    {
      IndexExact(utxos, recipientIndex) && count == |utxos|
    }

    constructor ()
      ensures Valid() && utxos == map[]
    {
      utxos, recipientIndex, count := map[], map[], 0;
    }

    /** The state of a set read back from storage: the index is skipped, the count is whatever was stored. */
    constructor Deserialised(utxos: UtxoMap, count: nat)
      ensures this.utxos == utxos && this.count == count && recipientIndex == map[]
    {
      this.utxos, this.recipientIndex, this.count := utxos, map[], count;
    }

    method AddUtxo(outpoint: OutPoint, utxo: Utxo)
      requires Valid()
      modifies this
      ensures Valid()
      ensures utxos == old(utxos)[outpoint := utxo]
    {
      AddExact(utxos, recipientIndex, outpoint, utxo);
      RemoveThenAdd(utxos, outpoint, utxo);
      if outpoint in utxos {
        recipientIndex := Unlisted(recipientIndex, utxos[outpoint].recipient, outpoint);
      } else {
        count := count + 1;
      }
      utxos := utxos[outpoint := utxo];
      recipientIndex := Listed(recipientIndex, utxo.recipient, outpoint);
    }

    method RemoveUtxo(outpoint: OutPoint) returns (removed: Option<Utxo>)
      requires Valid()
      modifies this
      ensures Valid()
      ensures utxos == old(utxos) - {outpoint}
      ensures removed == if outpoint in old(utxos) then Some(old(utxos)[outpoint]) else None
    {
      if outpoint in utxos {
        RemoveExact(utxos, recipientIndex, outpoint);
        var utxo := utxos[outpoint];
        utxos := utxos - {outpoint};
        count := count - 1;
        recipientIndex := Unlisted(recipientIndex, utxo.recipient, outpoint);
        removed := Some(utxo);
      } else {
        assert utxos - {outpoint} == utxos;
        removed := None;
      }
    }

    method HasInputs(inputs: seq<TxInput>) returns (present: bool)
      ensures present <==> AllPresent(utxos, inputs)
    {
      for i := 0 to |inputs|
        invariant AllPresent(utxos, inputs[..i])
      {
        if inputs[i].outpoint !in utxos {
          return false;
        }
      }
      assert inputs[..|inputs|] == inputs;
      present := true;
    }

    method SpendInputs(inputs: seq<TxInput>)
      requires Valid()
      modifies this
      ensures Valid()
      ensures utxos == old(utxos) - Outpoints(inputs)
    {
      for i := 0 to |inputs|
        invariant Valid()
        invariant utxos == old(utxos) - Outpoints(inputs[..i])
      {
        OutpointsSnoc(old(utxos), inputs, i);
        var _ := RemoveUtxo(inputs[i].outpoint);
      }
      assert inputs[..|inputs|] == inputs;
    }

    method CreateOutputs(txid: Bytes, outputs: seq<TxOutput>, height: nat, time: U64)
      requires Valid()
      modifies this
      ensures Valid()
      ensures utxos == WithOutputs(old(utxos), txid, outputs, height, time, |outputs|)
    {
      for i := 0 to |outputs|
        invariant Valid()
        invariant utxos == WithOutputs(old(utxos), txid, outputs, height, time, i)
      {
        AddUtxo(OutputName(txid, i), Utxo(outputs[i].amount, outputs[i].recipient, height, time));
      }
    }

    /** Errors, leaving everything as it was, unless every input is present. */
    method ApplyTransaction(tx: Transaction, height: nat) returns (ok: bool)
      requires Valid()
      modifies this
      ensures Valid()
      ensures ok <==> Applied(old(utxos), tx, height).Some?
      ensures ok ==> utxos == Applied(old(utxos), tx, height).value
      ensures !ok ==> unchanged(this)
    {
      ok := HasInputs(tx.inputs);
      if ok {
        SpendInputs(tx.inputs);
        CreateOutputs(tx.hash, tx.outputs, height, tx.timestamp);
      }
    }

    method ApplyCoinbase(tx: Coinbase)
      requires Valid()
      modifies this
      ensures Valid()
      ensures utxos == WithOutputs(old(utxos), tx.hash, tx.outputs, tx.blockHeight, tx.timestamp, |tx.outputs|)
    {
      CreateOutputs(tx.hash, tx.outputs, tx.blockHeight, tx.timestamp);
    }

    /** Balance through the index, proved to be the balance a scan of the primary map finds. */
    function GetBalance(recipient: Bytes): (balance: nat)
      requires Valid()
      reads this
      ensures balance == Holdings(utxos, Some(recipient))
    {
      IndexedBalanceIsScan(utxos, recipientIndex, recipient);
      IndexedBalance(utxos, recipientIndex, recipient)
    }

    /** The recipient's entries through the index: each exactly once, and no others. */
    function GetUtxosForRecipient(recipient: Bytes): (entries: seq<(OutPoint, Utxo)>)
      requires Valid()
      reads this
      ensures NoDuplicates(entries)
      ensures forall e :: e in entries <==> e.0 in utxos && utxos[e.0] == e.1 && e.1.recipient == recipient
    {
      UtxosForIsScan(utxos, recipientIndex, recipient);
      UtxosFor(utxos, recipientIndex, recipient)
    }

    function Len(): (n: nat)
      requires Valid()
      reads this
      ensures n == |utxos|
    {
      count
    }

    /** From any index and any count, restores the full invariant and leaves the primary map alone. */
    method RebuildIndex()
      modifies this
      ensures Valid()
      ensures utxos == old(utxos)
    {
      recipientIndex := map[];
      count := |utxos|;
      var left := utxos.Keys;
      ghost var done: UtxoMap := map[];
      while left != {}
        invariant utxos == old(utxos) && count == |utxos|
        invariant left <= utxos.Keys
        invariant done == utxos - left
        invariant IndexExact(done, recipientIndex)
        decreases left
      {
        var outpoint :| outpoint in left;
        ListedExact(done, recipientIndex, outpoint, utxos[outpoint]);
        recipientIndex := Listed(recipientIndex, utxos[outpoint].recipient, outpoint);
        done := done[outpoint := utxos[outpoint]];
        left := left - {outpoint};
      }
      assert done == utxos;
    }
  }
}
