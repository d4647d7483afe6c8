/**
 * The table of used signatures (src/modules/zk_proof.rs). Parsing and elliptic-curve verification are
 * one abstract predicate; what is modelled is which valid signatures are accepted.
 */
module Signatures {
  import opened Base

  /** signature, sender, recipient, amount text, nonce: parses and verifies. */
  type Ecdsa = (string, Bytes, Bytes, Bytes, nat) -> bool

  type SignatureTable = map<Bytes, seq<string>>

  datatype Call = Call(signature: string, sender: Bytes, recipient: Bytes, amount: Bytes, nonce: nat)

  function UsedBy(table: SignatureTable, sender: Bytes): seq<string> {
    if sender in table then table[sender] else []
  }

  predicate Accepts(ecdsa: Ecdsa, table: SignatureTable, c: Call) {
    && ecdsa(c.signature, c.sender, c.recipient, c.amount, c.nonce)
    && c.signature !in UsedBy(table, c.sender)
  }

  function TableAfter(ecdsa: Ecdsa, table: SignatureTable, c: Call): SignatureTable {
    if Accepts(ecdsa, table, c) then table[c.sender := UsedBy(table, c.sender) + [c.signature]] else table
  }

  // ---------------------------------------------------------------- runs of calls

  /** The table a run of verification calls leaves behind, starting from an empty one. */
  function TableOf(ecdsa: Ecdsa, calls: seq<Call>): SignatureTable {
    if calls == [] then map[]
    else
      var last := |calls| - 1;
      TableAfter(ecdsa, TableOf(ecdsa, calls[..last]), calls[last])
  }

  predicate Accepted(ecdsa: Ecdsa, calls: seq<Call>, i: nat)
    requires i < |calls|
  {
    Accepts(ecdsa, TableOf(ecdsa, calls[..i]), calls[i])
  }

  /** The signatures of one sender that a run accepted, in acceptance order. */
  function AcceptedFrom(ecdsa: Ecdsa, calls: seq<Call>, sender: Bytes): seq<string> {
    if calls == [] then []
    else
      var last := |calls| - 1;
      AcceptedFrom(ecdsa, calls[..last], sender)
      + if calls[last].sender == sender && Accepted(ecdsa, calls, last) then [calls[last].signature] else []
  }

  /** Each sender's list is its accepted signatures in order, without repetition. */
  lemma {:induction false} TableIsHistory(ecdsa: Ecdsa, calls: seq<Call>, sender: Bytes)
    ensures UsedBy(TableOf(ecdsa, calls), sender) == AcceptedFrom(ecdsa, calls, sender)
    ensures NoDuplicates(AcceptedFrom(ecdsa, calls, sender))
    decreases |calls|
  {
    if calls != [] {
      TableIsHistory(ecdsa, calls[..|calls| - 1], sender);
    }
  }

  lemma {:induction false} UsedIffAccepted(ecdsa: Ecdsa, calls: seq<Call>, sender: Bytes, signature: string)
    ensures signature in UsedBy(TableOf(ecdsa, calls), sender)
       <==> exists j :: 0 <= j < |calls| && Accepted(ecdsa, calls, j)
                        && calls[j].sender == sender && calls[j].signature == signature
    decreases |calls|
  {
    if calls != [] {
      var last := |calls| - 1;
      var front := calls[..last];
      UsedIffAccepted(ecdsa, front, sender, signature);
      forall j | 0 <= j < last ensures Accepted(ecdsa, front, j) <==> Accepted(ecdsa, calls, j) {
        assert front[..j] == calls[..j];
      }
    }
  }

  /** A call is accepted exactly when its signature is valid and no earlier call of that sender used it. */
  lemma AcceptedIffValidAndNew(ecdsa: Ecdsa, calls: seq<Call>, i: nat)
    requires i < |calls|
    ensures Accepted(ecdsa, calls, i)
       <==> (&& ecdsa(calls[i].signature, calls[i].sender, calls[i].recipient, calls[i].amount, calls[i].nonce)
             && !exists j :: 0 <= j < i && Accepted(ecdsa, calls, j)
                             && calls[j].sender == calls[i].sender && calls[j].signature == calls[i].signature)
  {
    var front := calls[..i];
    UsedIffAccepted(ecdsa, front, calls[i].sender, calls[i].signature);
    forall j | 0 <= j < i ensures Accepted(ecdsa, front, j) <==> Accepted(ecdsa, calls, j) {
      assert front[..j] == calls[..j];
    }
  }

  /** No (sender, signature) pair is ever accepted twice. */
  lemma SignatureSingleUse(ecdsa: Ecdsa, calls: seq<Call>, i: nat, j: nat)
    requires i < j < |calls|
    requires Accepted(ecdsa, calls, i) && Accepted(ecdsa, calls, j)
    ensures calls[i].sender != calls[j].sender || calls[i].signature != calls[j].signature
  {
    AcceptedIffValidAndNew(ecdsa, calls, j);
  }
}
