/**
 * What the hash of a UTXO transaction covers (`compute_hash` in src/modules/utxo.rs), told by reading the
 * hashed bytes back. Fields are concatenated without their lengths, so the reader is told those.
 */
module TransactionHashes {
  import opened Base
  import opened Encodings
  import opened UtxoSets

  /** The lengths of the txid and key of every input, and of the recipient of every output. */
  datatype Shape = Shape(inputs: seq<(nat, nat)>, recipients: seq<nat>)

  /** All a hash covers: for each input txid, index and key, for each output amount and recipient, and the time. */
  datatype Covered = Covered(spent: seq<(Bytes, nat, Bytes)>, created: seq<(nat, Bytes)>, timestamp: nat)

  function ShapeOf(inputs: seq<TxInput>, outputs: seq<TxOutput>): Shape {
    Shape(seq(|inputs|, i requires 0 <= i < |inputs| => (|inputs[i].outpoint.txid|, |inputs[i].publicKey|)),
          seq(|outputs|, j requires 0 <= j < |outputs| => |outputs[j].recipient|))
  }

  function CoveredBy(inputs: seq<TxInput>, outputs: seq<TxOutput>, timestamp: U64): Covered {
    Covered(
      seq(|inputs|, i requires 0 <= i < |inputs| =>
        (inputs[i].outpoint.txid, inputs[i].outpoint.vout, inputs[i].publicKey)),
      seq(|outputs|, j requires 0 <= j < |outputs| => (outputs[j].amount, outputs[j].recipient)),
      timestamp)
  }

  // ---------------------------------------------------------------- reading the bytes back

  /** The inputs written at the front of `bytes`, and what follows them. */
  function ReadInputs(bytes: Bytes, lengths: seq<(nat, nat)>): (seq<(Bytes, nat, Bytes)>, Bytes)
    decreases |lengths|
  {
    if lengths == [] then ([], bytes)
    else
      var (t, k) := lengths[0];
      if |bytes| < t + 4 + k then ([], [])
      else
        var (rest, tail) := ReadInputs(bytes[t + 4 + k..], lengths[1..]);
        ([(bytes[..t], ReadLittleEndian(bytes[t..t + 4]), bytes[t + 4..t + 4 + k])] + rest, tail)
  }

  function ReadOutputs(bytes: Bytes, lengths: seq<nat>): (seq<(nat, Bytes)>, Bytes)
    decreases |lengths|
  {
    if lengths == [] then ([], bytes)
    else if |bytes| < 8 + lengths[0] then ([], [])
    else
      var (rest, tail) := ReadOutputs(bytes[8 + lengths[0]..], lengths[1..]);
      ([(ReadLittleEndian(bytes[..8]), bytes[8..8 + lengths[0]])] + rest, tail)
  }

  function ReadTransaction(bytes: Bytes, shape: Shape): Covered {
    var (spent, tail) := ReadInputs(bytes, shape.inputs);
    var (created, time) := ReadOutputs(tail, shape.recipients);
    Covered(spent, created, ReadLittleEndian(time))
  }

  lemma {:induction false} InputsRead(inputs: seq<TxInput>, outputs: seq<TxOutput>, tail: Bytes)
    ensures ReadInputs(InputBytes(inputs) + tail, ShapeOf(inputs, outputs).inputs)
         == (CoveredBy(inputs, outputs, 0).spent, tail)
    decreases |inputs|
  {
    if inputs == [] {
      assert InputBytes(inputs) + tail == tail;
      assert ShapeOf(inputs, outputs).inputs == [] && CoveredBy(inputs, outputs, 0).spent == [];
    } else {
      var x, rest := inputs[0], InputBytes(inputs[1..]) + tail;
      InputsRead(inputs[1..], outputs, tail);
      ShapeUncons(inputs, outputs);
      assert InputBytes(inputs) + tail == x.outpoint.txid + (LittleEndian(x.outpoint.vout, 4) + (x.publicKey + rest));
      ReadFirst(x, rest, ShapeOf(inputs[1..], outputs).inputs);
    }
  }

  lemma ShapeUncons(inputs: seq<TxInput>, outputs: seq<TxOutput>)
    requires inputs != []
    ensures var x := inputs[0];
            && ShapeOf(inputs, outputs).inputs
               == [(|x.outpoint.txid|, |x.publicKey|)] + ShapeOf(inputs[1..], outputs).inputs
            && CoveredBy(inputs, outputs, 0).spent
               == [(x.outpoint.txid, x.outpoint.vout as nat, x.publicKey)] + CoveredBy(inputs[1..], outputs, 0).spent
  {
  }

  lemma ReadFirst(x: TxInput, rest: Bytes, lengths: seq<(nat, nat)>)
    ensures var bytes := x.outpoint.txid + (LittleEndian(x.outpoint.vout, 4) + (x.publicKey + rest));
            var more := ReadInputs(rest, lengths);
            ReadInputs(bytes, [(|x.outpoint.txid|, |x.publicKey|)] + lengths)
            == ([(x.outpoint.txid, x.outpoint.vout as nat, x.publicKey)] + more.0, more.1)
  {
    FirstInput(x, rest);
    assert ([(|x.outpoint.txid|, |x.publicKey|)] + lengths)[1..] == lengths;
  }

  lemma FirstInput(x: TxInput, rest: Bytes)
    ensures var bytes := x.outpoint.txid + (LittleEndian(x.outpoint.vout, 4) + (x.publicKey + rest));
            var t, k := |x.outpoint.txid|, |x.publicKey|;
            && |bytes| == t + 4 + k + |rest|
            && bytes[..t] == x.outpoint.txid
            && ReadLittleEndian(bytes[t..t + 4]) == x.outpoint.vout
            && bytes[t + 4..t + 4 + k] == x.publicKey && bytes[t + 4 + k..] == rest
  {
    var bytes := x.outpoint.txid + (LittleEndian(x.outpoint.vout, 4) + (x.publicKey + rest));
    var t, k := |x.outpoint.txid|, |x.publicKey|;
    assert bytes[t + 4..] == x.publicKey + rest;
    assert bytes[t + 4..t + 4 + k] == (x.publicKey + rest)[..k];
    assert bytes[t + 4 + k..] == (x.publicKey + rest)[k..];
    assert bytes[t..t + 4] == LittleEndian(x.outpoint.vout, 4);
    WordsHold();
    LittleEndianRead(x.outpoint.vout, 4);
  }

  lemma {:induction false} OutputsRead(inputs: seq<TxInput>, outputs: seq<TxOutput>, tail: Bytes)
    ensures ReadOutputs(OutputBytes(outputs) + tail, ShapeOf(inputs, outputs).recipients)
         == (CoveredBy(inputs, outputs, 0).created, tail)
    decreases |outputs|
  {
    if outputs == [] {
      assert OutputBytes(outputs) + tail == tail;
    } else {
      var o, n := outputs[0], |outputs[0].recipient|;
      var bytes := OutputBytes(outputs) + tail;
      assert bytes == LittleEndian(o.amount, 8) + (o.recipient + (OutputBytes(outputs[1..]) + tail));
      FirstOutput(o, OutputBytes(outputs[1..]) + tail);
      OutputsRead(inputs, outputs[1..], tail);
      assert ShapeOf(inputs, outputs).recipients[0] == n;
      assert ShapeOf(inputs, outputs).recipients[1..] == ShapeOf(inputs, outputs[1..]).recipients;
      assert CoveredBy(inputs, outputs, 0).created
          == [(o.amount as nat, o.recipient)] + CoveredBy(inputs, outputs[1..], 0).created;
    }
  }

  lemma FirstOutput(o: TxOutput, rest: Bytes)
    ensures var bytes := LittleEndian(o.amount, 8) + (o.recipient + rest);
            && |bytes| == 8 + |o.recipient| + |rest|
            && ReadLittleEndian(bytes[..8]) == o.amount
            && bytes[8..8 + |o.recipient|] == o.recipient && bytes[8 + |o.recipient|..] == rest
  {
    var bytes := LittleEndian(o.amount, 8) + (o.recipient + rest);
    assert bytes[..8] == LittleEndian(o.amount, 8);
    WordsHold();
    LittleEndianRead(o.amount, 8);
  }

  /** The hashed bytes read back as exactly the outpoints, keys, outputs and timestamp. */
  lemma TransactionRead(inputs: seq<TxInput>, outputs: seq<TxOutput>, timestamp: U64)
    ensures ReadTransaction(TransactionPreimage(inputs, outputs, timestamp), ShapeOf(inputs, outputs))
         == CoveredBy(inputs, outputs, timestamp)
  {
    var time := LittleEndian(timestamp, 8);
    assert TransactionPreimage(inputs, outputs, timestamp) == InputBytes(inputs) + (OutputBytes(outputs) + time);
    InputsRead(inputs, outputs, OutputBytes(outputs) + time);
    OutputsRead(inputs, outputs, time);
    WordsHold();
    LittleEndianRead(timestamp, 8);
  }

  // ---------------------------------------------------------------- which transactions share a hash

  /** The same outpoints presented under the same keys; signatures may differ. */
  predicate SameSpends(a: seq<TxInput>, b: seq<TxInput>) {
    |a| == |b| && forall i :: 0 <= i < |a| ==> a[i].outpoint == b[i].outpoint && a[i].publicKey == b[i].publicKey
  }

  lemma CoveredIff(a: seq<TxInput>, o: seq<TxOutput>, s: U64, b: seq<TxInput>, p: seq<TxOutput>, t: U64)
    ensures CoveredBy(a, o, s) == CoveredBy(b, p, t) <==> SameSpends(a, b) && o == p && s == t
  {
    var x, y := CoveredBy(a, o, s), CoveredBy(b, p, t);
    if x == y {
      forall i | 0 <= i < |a| ensures a[i].outpoint == b[i].outpoint && a[i].publicKey == b[i].publicKey {
        assert x.spent[i] == y.spent[i];
      }
      forall j | 0 <= j < |o| ensures o[j] == p[j] {
        assert x.created[j] == y.created[j];
      }
    }
  }

  lemma {:induction false} SameSpendsSameBytes(a: seq<TxInput>, b: seq<TxInput>)
    requires SameSpends(a, b)
    ensures InputBytes(a) == InputBytes(b)
    decreases |a|
  {
    if a != [] {
      SameSpendsSameBytes(a[1..], b[1..]);
    }
  }

  /** Of one shape, or at least not run together to the same bytes. */
  predicate Unambiguous(a: seq<TxInput>, o: seq<TxOutput>, s: U64, b: seq<TxInput>, p: seq<TxOutput>, t: U64) {
    ShapeOf(a, o) == ShapeOf(b, p) || TransactionPreimage(a, o, s) != TransactionPreimage(b, p, t)
  }

  lemma SameContentsSameShape(a: seq<TxInput>, o: seq<TxOutput>, b: seq<TxInput>, p: seq<TxOutput>)
    requires SameSpends(a, b) && o == p
    ensures ShapeOf(a, o) == ShapeOf(b, p)
  {
  }

  /**
   * Two transactions have one hash if and only if they spend the same outpoints under the same keys and agree in
   * outputs and timestamp, unless their bytes run together or SHA-256 collides on them; signatures do not matter.
   */
  lemma TransactionHashIff(sha: Digest, a: seq<TxInput>, o: seq<TxOutput>, s: U64,
                           b: seq<TxInput>, p: seq<TxOutput>, t: U64)
    requires Unambiguous(a, o, s, b, p, t)
    requires CollisionFreeOn(sha, {TransactionPreimage(a, o, s), TransactionPreimage(b, p, t)})
    ensures NewTransaction(sha, a, o, s).hash == NewTransaction(sha, b, p, t).hash
       <==> SameSpends(a, b) && o == p && s == t
  {
    TransactionRead(a, o, s);
    TransactionRead(b, p, t);
    CoveredIff(a, o, s, b, p, t);
    if SameSpends(a, b) {
      SameSpendsSameBytes(a, b);
      if o == p {
        SameContentsSameShape(a, o, b, p);
      }
    }
  }

  /** Without equal lengths two different transactions may have one hash: a byte moves from one field to the next. */
  lemma ShapeMatters(sha: Digest)
    ensures var a, b := TxInput(OutPoint([], 0), "", [0, 1]), TxInput(OutPoint([0], 0), "", [1]);
            && NewTransaction(sha, [a], [], 0).hash == NewTransaction(sha, [b], [], 0).hash
            && !SameSpends([a], [b])
  {
    var a, b := TxInput(OutPoint([], 0), "", [0, 1]), TxInput(OutPoint([0], 0), "", [1]);
    assert InputBytes([a][1..]) == [] && InputBytes([b][1..]) == [];
    assert LittleEndian(0, 4) == [0, 0, 0, 0] by {
      assert LittleEndian(0, 1) == [0] && LittleEndian(0, 2) == [0, 0] && LittleEndian(0, 3) == [0, 0, 0];
    }
    assert InputBytes([a]) == [0, 0, 0, 0, 0, 1] && InputBytes([b]) == [0, 0, 0, 0, 0, 1];
  }
}
