/** A reader of serialized transactions that knows nothing of how the pool writes them. */
module CoinbaseReader {
  import opened Bytes
  import opened Script
  import opened Coinbase

  /** Bytes behind their length, and what follows them. */
  function ReadBytes(b: seq<byte>): Option<(seq<byte>, seq<byte>)> {
    match ReadCompactSize(b)
    case None => None
    case Some((len, width)) => if width + len > |b| then None else Some((b[width..width + len], b[width + len..]))
  }

  /** An eight-byte value and a script, `n` times. */
  function ReadOutputs(b: seq<byte>, n: nat): Option<(seq<Output>, seq<byte>)>
    decreases n
  {
    if n == 0 then Some(([], b))
    else if |b| < 8 then None
    else
      match ReadBytes(b[8..])
      case None => None
      case Some((script, rest)) => PrependOutput(Output(LeValue(b[..8]), script), ReadOutputs(rest, n - 1))
  }

  function PrependOutput(o: Output, more: Option<(seq<Output>, seq<byte>)>): Option<(seq<Output>, seq<byte>)> {
    match more
    case None => None
    case Some((outs, rest)) => Some(([o] + outs, rest))
  }

  function ReadItems(b: seq<byte>, n: nat): Option<(seq<seq<byte>>, seq<byte>)>
    decreases n
  {
    if n == 0 then Some(([], b))
    else
      match ReadBytes(b)
      case None => None
      case Some((item, rest)) => PrependItem(item, ReadItems(rest, n - 1))
  }

  function PrependItem(item: seq<byte>, more: Option<(seq<seq<byte>>, seq<byte>)>): Option<(seq<seq<byte>>, seq<byte>)> {
    match more
    case None => None
    case Some((items, rest)) => Some(([item] + items, rest))
  }

  /** The input count and the null outpoint. */
  function Front(): (f: seq<byte>)
    ensures |f| == 37
  {
    [1] + Zeros(32) + [0xff, 0xff, 0xff, 0xff]
  }

  /** One null input with its script and a final sequence number, and the outputs. */
  function ReadBody(b: seq<byte>): Option<(seq<byte>, seq<Output>, seq<byte>)> {
    if |b| < 37 || b[..37] != Front() then None
    else
      match ReadBytes(b[37..])
      case None => None
      case Some((script, rest)) => ReadTail(script, rest)
  }

  function ReadTail(script: seq<byte>, rest: seq<byte>): Option<(seq<byte>, seq<Output>, seq<byte>)> {
    if |rest| < 4 || rest[..4] != [0xff, 0xff, 0xff, 0xff] then None
    else
      match ReadCompactSize(rest[4..])
      case None => None
      case Some((n, width)) =>
        match ReadOutputs(rest[4 + width..], n)
        case None => None
        case Some((outs, more)) => Some((script, outs, more))
  }

  /** A whole transaction of version 2, with or without a witness, and no lock time. */
  function ReadTx(b: seq<byte>): Option<CoinbaseTx> {
    if |b| < 6 || b[..4] != [2, 0, 0, 0] then None
    else if b[4..6] == [0, 1] then
      match ReadBody(b[6..])
      case None => None
      case Some((script, outs, rest)) =>
        match ReadCompactSize(rest)
        case None => None
        case Some((n, width)) =>
          match ReadItems(rest[width..], n)
          case None => None
          case Some((items, more)) => if more == Zeros(4) then Some(CoinbaseTx(script, outs, items)) else None
    else
      match ReadBody(b[4..])
      case None => None
      case Some((script, outs, rest)) => if rest == Zeros(4) then Some(CoinbaseTx(script, outs, [])) else None
  }

  // ---------- it reads what the pool writes ----------

  ghost predicate Writable(tx: CoinbaseTx) {
    && |tx.script| <= 0xffffffff && |tx.outs| <= 0xffffffff && |tx.witnessStack| <= 0xffffffff
    && (forall i :: 0 <= i < |tx.outs| ==> WritableOutput(tx.outs[i]))
    && (forall i :: 0 <= i < |tx.witnessStack| ==> |tx.witnessStack[i]| <= 0xffffffff)
  }

  ghost predicate WritableOutput(o: Output) {
    0 <= o.value < 0x1_0000_0000_0000_0000 && |o.script| <= 0xffffffff
  }

  lemma Fields(a: seq<byte>, rest: seq<byte>)
    ensures (a + rest)[..|a|] == a && (a + rest)[|a|..] == rest
  {
  }

  lemma ReadBytesOf(data: seq<byte>, rest: seq<byte>)
    requires |data| <= 0xffffffff
    ensures ReadBytes(CompactSize(|data|) + data + rest) == Some((data, rest))
  {
    var head := CompactSize(|data|);
    ThreeStrings(head, data, rest);
    ReadCompactSizeRoundTrip(|data|, data + rest);
    Fields(head, data + rest);
    Fields(head + data, rest);
    assert (head + data + rest)[|head|..|head| + |data|] == data;
  }

  lemma EightBytes(value: nat)
    requires value < 0x1_0000_0000_0000_0000
    ensures LeValue(Le(value, 8)) == value
  {
    Pow256Values();
    assert Pow256(5) == 256 * Pow256(4) && Pow256(6) == 256 * Pow256(5) && Pow256(7) == 256 * Pow256(6) && Pow256(8) == 256 * Pow256(7);
    LeRoundTrip(value, 8);
  }

  lemma ReadOutputStep(o: Output, rest: seq<byte>, n: nat)
    requires WritableOutput(o)
    ensures ReadOutputs(Le(o.value, 8) + (CompactSize(|o.script|) + o.script + rest), n + 1) == PrependOutput(o, ReadOutputs(rest, n))
  {
    EightBytes(o.value);
    Fields(Le(o.value, 8), CompactSize(|o.script|) + o.script + rest);
    ReadBytesOf(o.script, rest);
  }

  lemma FourParts(a: seq<byte>, b: seq<byte>, c: seq<byte>, d: seq<byte>, rest: seq<byte>)
    ensures a + b + c + d + rest == a + (b + c + (d + rest))
  {
  }

  lemma FirstOutput(outs: seq<Output>, rest: seq<byte>)
    requires outs != [] && WritableOutput(outs[0])
    ensures OutputsBytes(outs) + rest
            == Le(outs[0].value, 8) + (CompactSize(|outs[0].script|) + outs[0].script + (OutputsBytes(outs[1..]) + rest))
  {
    FourParts(Le(outs[0].value, 8), CompactSize(|outs[0].script|), outs[0].script, OutputsBytes(outs[1..]), rest);
  }

  lemma {:induction false} ReadOutputsOf(outs: seq<Output>, rest: seq<byte>)
    requires forall i :: 0 <= i < |outs| ==> WritableOutput(outs[i])
    ensures ReadOutputs(OutputsBytes(outs) + rest, |outs|) == Some((outs, rest))
  {
    if outs == [] {
      assert OutputsBytes(outs) + rest == rest;
    } else {
      var o, more := outs[0], OutputsBytes(outs[1..]) + rest;
      ReadOutputsOf(outs[1..], rest);
      ReadOutputStep(o, more, |outs| - 1);
      FirstOutput(outs, rest);
      assert [o] + outs[1..] == outs;
    }
  }

  lemma {:induction false} ReadItemsOf(items: seq<seq<byte>>, rest: seq<byte>)
    requires forall i :: 0 <= i < |items| ==> |items[i]| <= 0xffffffff
    ensures ReadItems(WitnessBytes(items) + rest, |items|) == Some((items, rest))
  {
    if items == [] {
      assert WitnessBytes(items) + rest == rest;
    } else {
      var item, more := items[0], WitnessBytes(items[1..]) + rest;
      ReadItemsOf(items[1..], rest);
      ReadBytesOf(item, more);
      assert WitnessBytes(items) + rest == CompactSize(|item|) + item + more;
      assert [item] + items[1..] == items;
    }
  }

  lemma ThreeParts(a: seq<byte>, b: seq<byte>, c: seq<byte>, rest: seq<byte>)
    ensures a + b + c + rest == a + (b + (c + rest))
  {
  }

  lemma ReadBehindSequence(script: seq<byte>, b: seq<byte>, n: nat, width: nat, outs: seq<Output>, rest: seq<byte>)
    requires ReadCompactSize(b) == Some((n, width)) && ReadOutputs(b[width..], n) == Some((outs, rest))
    ensures ReadTail(script, [0xff, 0xff, 0xff, 0xff] + b) == Some((script, outs, rest))
  {
    var all: seq<byte> := [0xff, 0xff, 0xff, 0xff] + b;
    Fields([0xff, 0xff, 0xff, 0xff], b);
    assert all[4..] == b && all[4 + width..] == b[width..];
  }

  /** The outputs behind a final sequence number. */
  lemma ReadTailOf(script: seq<byte>, outs: seq<Output>, rest: seq<byte>)
    requires |outs| <= 0xffffffff && forall i :: 0 <= i < |outs| ==> WritableOutput(outs[i])
    ensures ReadTail(script, InputTail(outs) + rest) == Some((script, outs, rest))
  {
    var size, bytes := CompactSize(|outs|), OutputsBytes(outs);
    ThreeParts([0xff, 0xff, 0xff, 0xff], size, bytes, rest);
    ReadCompactSizeRoundTrip(|outs|, bytes + rest);
    Fields(size, bytes + rest);
    ReadOutputsOf(outs, rest);
    ReadBehindSequence(script, size + (bytes + rest), |outs|, |size|, outs, rest);
  }

  function Body(script: seq<byte>, outs: seq<Output>): seq<byte> {
    Prefix(|script|)[4..] + script + InputTail(outs)
  }

  lemma BodyParts(front: seq<byte>, size: seq<byte>, script: seq<byte>, tail: seq<byte>, rest: seq<byte>)
    ensures (front + size) + script + tail + rest == front + (size + script + (tail + rest))
  {
  }

  lemma FrontOfPrefix(n: nat)
    ensures Prefix(n)[4..] == Front() + CompactSize(n)
  {
  }

  lemma ReadBehindFront(b: seq<byte>, script: seq<byte>, tail: seq<byte>)
    requires ReadBytes(b) == Some((script, tail))
    ensures ReadBody(Front() + b) == ReadTail(script, tail)
  {
    Fields(Front(), b);
  }

  lemma ReadBodyOf(script: seq<byte>, outs: seq<Output>, rest: seq<byte>)
    requires |script| <= 0xffffffff && |outs| <= 0xffffffff && forall i :: 0 <= i < |outs| ==> WritableOutput(outs[i])
    ensures ReadBody(Body(script, outs) + rest) == Some((script, outs, rest))
  {
    var tail, size := InputTail(outs) + rest, CompactSize(|script|);
    FrontOfPrefix(|script|);
    BodyParts(Front(), size, script, InputTail(outs), rest);
    ReadBytesOf(script, tail);
    ReadTailOf(script, outs, rest);
    ReadBehindFront(size + script + tail, script, tail);
  }

  lemma ReadPlain(b: seq<byte>, script: seq<byte>, outs: seq<Output>)
    requires b != [] && b[0] != 0 && ReadBody(b) == Some((script, outs, Zeros(4)))
    ensures ReadTx([2, 0, 0, 0] + b) == Some(CoinbaseTx(script, outs, []))
  {
    var all: seq<byte> := [2, 0, 0, 0] + b;
    Fields([2, 0, 0, 0], b);
    assert all[4] != 0;
    assert |all| >= 6 ==> all[4..6] != [0, 1];
    assert |b| >= 37;
  }

  lemma ReadMarked(b: seq<byte>, script: seq<byte>, outs: seq<Output>, rest: seq<byte>, items: seq<seq<byte>>)
    requires ReadBody(b) == Some((script, outs, rest))
    requires var n := ReadCompactSize(rest);
      n.Some? && ReadItems(rest[n.value.1..], n.value.0) == Some((items, Zeros(4)))
    ensures ReadTx([2, 0, 0, 0, 0, 1] + b) == Some(CoinbaseTx(script, outs, items))
  {
    var all: seq<byte> := [2, 0, 0, 0, 0, 1] + b;
    Fields([2, 0, 0, 0, 0, 1], b);
    assert all[..4] == [2, 0, 0, 0] && all[4..6] == [0, 1];
  }

  /** The bytes that are hashed are read back as the transaction without its witness. */
  lemma ReadNonWitness(tx: CoinbaseTx)
    requires Writable(tx)
    ensures ReadTx(NonWitness(tx)) == Some(tx.(witnessStack := []))
  {
    var b := Body(tx.script, tx.outs) + Zeros(4);
    ReadBodyOf(tx.script, tx.outs, Zeros(4));
    PlainBytes(tx);
    ReadPlain(b, tx.script, tx.outs);
  }

  lemma PlainBytes(tx: CoinbaseTx)
    ensures NonWitness(tx) == [2, 0, 0, 0] + (Body(tx.script, tx.outs) + Zeros(4))
    ensures var b := Body(tx.script, tx.outs) + Zeros(4); b != [] && b[0] == 1
  {
    var version: seq<byte>, input := [2, 0, 0, 0], Prefix(|tx.script|)[4..];
    assert Prefix(|tx.script|) == version + input && input != [] && input[0] == 1;
    PlainParts(version, input, tx.script, InputTail(tx.outs), Zeros(4));
  }

  lemma PlainParts(version: seq<byte>, input: seq<byte>, script: seq<byte>, tail: seq<byte>, end: seq<byte>)
    ensures version + input + script + (tail + end) == version + (input + script + tail + end)
  {
  }

  lemma MarkedParts(version: seq<byte>, marker: seq<byte>, input: seq<byte>, script: seq<byte>, tail: seq<byte>,
                    size: seq<byte>, items: seq<byte>, end: seq<byte>)
    ensures version + marker + input + script + tail + size + items + end
            == (version + marker) + (input + script + tail + (size + (items + end)))
  {
    var body := input + script + tail;
    assert version + marker + input + script + tail == (version + marker) + body;
    assert (version + marker) + body + size + items + end == (version + marker) + (body + (size + (items + end)));
  }

  lemma MarkedBytes(tx: CoinbaseTx)
    requires tx.witnessStack != []
    ensures WithWitness(tx) == [2, 0, 0, 0, 0, 1]
      + (Body(tx.script, tx.outs) + (CompactSize(|tx.witnessStack|) + (WitnessBytes(tx.witnessStack) + Zeros(4))))
  {
    var a: seq<byte>, m: seq<byte> := [2, 0, 0, 0], [0, 1];
    assert a + m == [2, 0, 0, 0, 0, 1];
    MarkedParts(a, m, Prefix(|tx.script|)[4..], tx.script, InputTail(tx.outs), CompactSize(|tx.witnessStack|),
      WitnessBytes(tx.witnessStack), Zeros(4));
  }

  /** The bytes that go into a block are read back as the whole transaction. */
  lemma ReadWithWitness(tx: CoinbaseTx)
    requires Writable(tx)
    ensures ReadTx(WithWitness(tx)) == Some(tx)
  {
    if tx.witnessStack == [] {
      ReadNonWitness(tx);
    } else {
      var size, items := CompactSize(|tx.witnessStack|), WitnessBytes(tx.witnessStack);
      var rest := size + (items + Zeros(4));
      ReadBodyOf(tx.script, tx.outs, rest);
      ReadCompactSizeRoundTrip(|tx.witnessStack|, items + Zeros(4));
      Fields(size, items + Zeros(4));
      ReadItemsOf(tx.witnessStack, Zeros(4));
      ReadMarked(Body(tx.script, tx.outs) + rest, tx.script, tx.outs, rest, tx.witnessStack);
      MarkedBytes(tx);
    }
  }

  /** Weight as BIP 141 counts it: four a byte, but one a byte of the marker and the witness. */
  lemma WeightCountsWitnessOnce(tx: CoinbaseTx)
    ensures Weight(tx) == 4 * |NonWitness(tx)|
      + (if tx.witnessStack == [] then 0 else 2 + |CompactSize(|tx.witnessStack|)| + |WitnessBytes(tx.witnessStack)|)
  {
  }
}
