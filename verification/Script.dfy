/** Bitcoin script pushes, script numbers and CompactSize lengths, with their readers. */
module Script {
  import opened Bytes

  const OP_RETURN: byte := 0x6a

  // ---------- script numbers (the height of BIP 34) ----------

  /** Bytes a minimally encoded script number needs. */
  function NumberSize(n: nat): nat
    requires n <= 0x7fffffff
  {
    if n > 0x7fffff then 4 else if n > 0x7fff then 3 else if n > 0x7f then 2 else if n > 0 then 1 else 0
  }

  function EncodeNumber(n: nat): (b: seq<byte>)
    requires n <= 0x7fffffff
    ensures |b| == NumberSize(n)
  {
    Le(n, NumberSize(n))
  }

  function HeightPush(height: nat): (b: seq<byte>)
    requires height <= 0x7fffffff
    ensures |b| == 1 + NumberSize(height)
  {
    [NumberSize(height)] + EncodeNumber(height)
  }

  /** A script number as the interpreter reads it: little-endian, the top bit of the last byte is the sign. */
  function SignedNumber(b: seq<byte>): int {
    if b == [] then 0
    else
      var last := b[|b| - 1];
      var magnitude := LeValue(b[..|b| - 1]) + Pow256(|b| - 1) * (last % 0x80);
      if last >= 0x80 then -magnitude else magnitude
  }

  /** What a BIP 34 validator reads back from the front of a coinbase script. */
  function ReadHeight(script: seq<byte>): Option<int> {
    if |script| < 1 || script[0] > 4 || |script| < 1 + script[0] then None
    else Some(SignedNumber(script[1..1 + script[0]]))
  }

  lemma Pow256Values()
    ensures Pow256(0) == 1 && Pow256(1) == 0x100 && Pow256(2) == 0x10000
    ensures Pow256(3) == 0x1000000 && Pow256(4) == 0x100000000
  {
    assert Pow256(1) == 256 * Pow256(0);
    assert Pow256(2) == 256 * Pow256(1);
    assert Pow256(3) == 256 * Pow256(2);
    assert Pow256(4) == 256 * Pow256(3);
  }

  /** The last byte of a little-endian number is what its lower bytes leave. */
  lemma LastByteOf(b: seq<byte>)
    requires b != []
    ensures var low, last := b[..|b| - 1], b[|b| - 1];
      LeValue(b) == LeValue(low) + Pow256(|b| - 1) * last && LeValue(low) < Pow256(|b| - 1)
  {
    var low, last := b[..|b| - 1], b[|b| - 1];
    LeValueSnoc(low, last);
    LeValueBound(low);
    assert low + [last] == b;
  }

  /** Every height is read back with its sign, by a reader that knows nothing of the encoder. */
  lemma NumberReadBack(n: nat)
    requires n <= 0x7fffffff
    ensures SignedNumber(EncodeNumber(n)) == n
  {
    var b := EncodeNumber(n);
    Pow256Values();
    LeRoundTrip(n, NumberSize(n));
    if n > 0 {
      LastByteOf(b);
    }
  }

  /** No byte is wasted: only zero is empty, and a zero last byte only keeps the sign bit of the byte before it clear. */
  lemma EncodingIsMinimal(n: nat)
    requires n <= 0x7fffffff
    ensures var b := EncodeNumber(n);
      && (b == [] <==> n == 0)
      && (b != [] && b[|b| - 1] == 0 ==> |b| >= 2 && b[|b| - 2] >= 0x80)
  {
    var b := EncodeNumber(n);
    Pow256Values();
    LeRoundTrip(n, NumberSize(n));
    if n > 0 {
      LastByteOf(b);
      if |b| >= 2 {
        LastByteOf(b[..|b| - 1]);
      }
    }
  }

  lemma ReadHeightOfPush(height: nat, rest: seq<byte>)
    requires height <= 0x7fffffff
    ensures ReadHeight(HeightPush(height) + rest) == Some(height)
  {
    var size := NumberSize(height);
    NumberReadBack(height);
    assert (HeightPush(height) + rest)[1..1 + size] == EncodeNumber(height);
  }

  /** A minimally encoded positive height never consists of zero bytes only. */
  lemma EncodeNumberNotZero(height: nat)
    requires 0 < height <= 0x7fffffff
    ensures EncodeNumber(height) != Zeros(NumberSize(height))
  {
    var size := NumberSize(height);
    Pow256Values();
    LeRoundTrip(height, size);
    LeValueOfZeros(size);
  }

  lemma {:induction false} LeValueOfZeros(n: nat)
    ensures LeValue(Zeros(n)) == 0
  {
    if n > 0 {
      LeValueOfZeros(n - 1);
      assert Zeros(n)[1..] == Zeros(n - 1);
    }
  }

  // ---------- CompactSize ----------

  function CompactSize(n: nat): (b: seq<byte>)
    ensures |b| >= 1
  {
    if n < 253 then [n]
    else if n <= 0xffff then [253] + Le(n, 2)
    else if n <= 0xffffffff then [254] + Le(n, 4)
    else [255] + Le(n, 8)
  }

  /** Reads a CompactSize of at most four bytes from the front: its value and its width. */
  function ReadCompactSize(b: seq<byte>): (r: Option<(nat, nat)>)
    ensures r.Some? ==> 1 <= r.value.1 <= |b|
  {
    if |b| >= 1 && b[0] < 253 then Some((b[0], 1))
    else if |b| >= 3 && b[0] == 253 then Some((LeValue(b[1..3]), 3))
    else if |b| >= 5 && b[0] == 254 then Some((LeValue(b[1..5]), 5))
    else None
  }

  lemma ReadCompactSizeRoundTrip(n: nat, rest: seq<byte>)
    requires n <= 0xffffffff
    ensures ReadCompactSize(CompactSize(n) + rest) == Some((n, |CompactSize(n)|))
  {
    Pow256Values();
    var b := CompactSize(n) + rest;
    if 253 <= n <= 0xffff {
      LeRoundTrip(n, 2);
      assert b[1..3] == Le(n, 2);
    } else if 0xffff < n {
      LeRoundTrip(n, 4);
      assert b[1..5] == Le(n, 4);
    }
  }

  /** No shorter text of a length is read as that length. */
  lemma CompactSizeIsShortest(b: seq<byte>, n: nat, width: nat)
    requires ReadCompactSize(b) == Some((n, width))
    ensures |CompactSize(n)| <= width
  {
    Pow256Values();
    if |b| >= 3 && b[0] == 253 {
      LeValueBound(b[1..3]);
    } else if |b| >= 5 && b[0] == 254 {
      LeValueBound(b[1..5]);
    }
  }

  // ---------- pushes ----------

  datatype Op = Push(data: seq<byte>) | Code(code: byte)

  /** A data push with the shortest length form. */
  function EncodePush(data: seq<byte>): (b: seq<byte>)
    ensures |b| >= 1
  {
    if |data| < 76 then [|data|] + data
    else if |data| <= 0xff then [76, |data|] + data
    else if |data| <= 0xffff then [77] + Le(|data|, 2) + data
    else [78] + Le(|data|, 4) + data
  }

  /** `bitcoinjs.script.compile([data])`: very short data becomes a constant opcode. */
  function CompilePush(data: seq<byte>): seq<byte> {
    if |data| == 0 then [0]
    else if |data| == 1 && 1 <= data[0] <= 16 then [0x50 + data[0]]
    else if data == [0x81] then [0x4f]
    else EncodePush(data)
  }

  /** Width of the push header at the front of a script and the length it announces. */
  function PushHeader(s: seq<byte>): Option<(nat, nat)>
    requires |s| >= 1
  {
    if 1 <= s[0] < 76 then Some((1, s[0]))
    else if s[0] == 76 && |s| >= 2 then Some((2, s[1]))
    else if s[0] == 77 && |s| >= 3 then Some((3, LeValue(s[1..3])))
    else if s[0] == 78 && |s| >= 5 then Some((5, LeValue(s[1..5])))
    else None
  }

  /** Splits a script into its operations; None when a push runs past the end. */
  function Parse(s: seq<byte>): Option<seq<Op>> {
    if s == [] then Some([])
    else if s[0] == 0 || s[0] > 78 then
      Prepend([Code(s[0])], Parse(s[1..]))
    else
      match PushHeader(s)
      case None => None
      case Some((width, len)) =>
        if width + len > |s| then None
        else Prepend([Push(s[width..width + len])], Parse(s[width + len..]))
  }

  /** Operations whose encoding is canonical: a push is nonempty and an opcode is not a push. */
  ghost predicate Canonical(op: Op) {
    match op
    case Push(data) => 1 <= |data| <= 0xffffffff
    case Code(code) => code == 0 || code > 78
  }

  function EncodeOp(op: Op): (b: seq<byte>)
    ensures |b| >= 1
  {
    match op
    case Push(data) => EncodePush(data)
    case Code(code) => [code]
  }

  function Encode(ops: seq<Op>): seq<byte> {
    if ops == [] then [] else EncodeOp(ops[0]) + Encode(ops[1..])
  }

  lemma PushHeaderOfEncodePush(data: seq<byte>, rest: seq<byte>)
    requires 1 <= |data| <= 0xffffffff
    ensures var s := EncodePush(data) + rest;
      && 1 <= s[0] <= 78
      && var width := |EncodePush(data)| - |data|;
      && PushHeader(s) == Some((width, |data|))
      && s[width..width + |data|] == data && s[width + |data|..] == rest
  {
    var s := EncodePush(data) + rest;
    Pow256Values();
    if 0xff < |data| <= 0xffff {
      LeRoundTrip(|data|, 2);
      assert s[1..3] == Le(|data|, 2);
    } else if 0xffff < |data| {
      LeRoundTrip(|data|, 4);
      assert s[1..5] == Le(|data|, 4);
    }
    var width := |EncodePush(data)| - |data|;
    assert EncodePush(data)[width..] == data;
    assert s[width..width + |data|] == data;
  }

  /** No shorter header announces as many bytes. */
  lemma PushIsShortest(s: seq<byte>, data: seq<byte>, width: nat)
    requires s != [] && data != [] && PushHeader(s) == Some((width, |data|))
    ensures |EncodePush(data)| - |data| <= width
  {
    Pow256Values();
    if s[0] == 77 {
      LeValueBound(s[1..3]);
    }
  }

  function Prepend(ops: seq<Op>, more: Option<seq<Op>>): Option<seq<Op>> {
    match more
    case None => None
    case Some(rest) => Some(ops + rest)
  }

  lemma ParseStep(op: Op, tail: seq<byte>)
    requires Canonical(op)
    ensures Parse(EncodeOp(op) + tail) == Prepend([op], Parse(tail))
  {
    var s := EncodeOp(op) + tail;
    match op
    case Push(data) =>
      PushHeaderOfEncodePush(data, tail);
    case Code(code) =>
      assert s[1..] == tail;
  }

  /** Parsing undoes encoding, whatever bytes follow. */
  lemma {:induction false} ParseOfEncode(ops: seq<Op>, rest: seq<byte>)
    requires forall i :: 0 <= i < |ops| ==> Canonical(ops[i])
    ensures Parse(Encode(ops) + rest) == Prepend(ops, Parse(rest))
  {
    if ops == [] {
      assert Encode(ops) + rest == rest;
      PrependNothing(Parse(rest));
    } else {
      var tail := Encode(ops[1..]) + rest;
      assert Encode(ops) + rest == EncodeOp(ops[0]) + tail;
      ParseStep(ops[0], tail);
      ParseOfEncode(ops[1..], rest);
      PrependTwice([ops[0]], ops[1..], Parse(rest));
      assert [ops[0]] + ops[1..] == ops;
    }
  }

  lemma PrependNothing(more: Option<seq<Op>>)
    ensures Prepend([], more) == more
  {
    if more.Some? {
      assert [] + more.value == more.value;
    }
  }

  lemma PrependTwice(a: seq<Op>, b: seq<Op>, more: Option<seq<Op>>)
    ensures Prepend(a, Prepend(b, more)) == Prepend(a + b, more)
  {
    if more.Some? {
      assert a + (b + more.value) == (a + b) + more.value;
    }
  }

  lemma {:induction false} EncodeConcat(a: seq<Op>, b: seq<Op>)
    ensures Encode(a + b) == Encode(a) + Encode(b)
  {
    if a == [] {
      assert a + b == b;
    } else {
      EncodeConcat(a[1..], b);
      assert (a + b)[1..] == a[1..] + b;
      ThreeStrings(EncodeOp(a[0]), Encode(a[1..]), Encode(b));
    }
  }

  /** What an interpreter puts on the stack for an operation. */
  function Pushed(op: Op): Option<seq<byte>> {
    match op
    case Push(data) => Some(data)
    case Code(code) =>
      if code == 0 then Some([])
      else if code == 0x4f then Some([0x81])
      else if 0x51 <= code <= 0x60 then Some([code - 0x50])
      else None
  }

  /** Exactly the empty string, the numbers 1 to 16 and -1 take one byte; all else takes a shortest push. */
  lemma CompilePushIsShort(data: seq<byte>)
    ensures |CompilePush(data)| == 1 <==> data == [] || data == [0x81] || (|data| == 1 && 1 <= data[0] <= 16)
    ensures |CompilePush(data)| > 1 ==> CompilePush(data) == EncodePush(data)
  {
  }

  /** A compiled push is one operation, and it pushes the data it was compiled from. */
  lemma CompilePushPushes(data: seq<byte>)
    requires |data| <= 0xffffffff
    ensures Parse(CompilePush(data)).Some?
    ensures var ops := Parse(CompilePush(data)).value; |ops| == 1 && Pushed(ops[0]) == Some(data)
  {
    var op := if |data| == 0 then Code(0)
              else if |data| == 1 && 1 <= data[0] <= 16 then Code(0x50 + data[0])
              else if data == [0x81] then Code(0x4f)
              else Push(data);
    ParseStep(op, []);
    assert CompilePush(data) + [] == EncodeOp(op) + [] && CompilePush(data) + [] == CompilePush(data);
    assert [op] + [] == [op];
    assert |data| == 1 ==> data == [data[0]];
  }
}
