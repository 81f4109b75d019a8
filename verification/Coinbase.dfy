/** The coinbase transaction as bytes, and the two pieces of hexadecimal text cut around its extranonces. */
module Coinbase {
  import opened Bytes
  import opened Script

  const MAX_SCRIPT_SIZE := 100

  datatype Output = Output(value: int, script: seq<byte>)

  /** A version 2 transaction with the single null input of a coinbase. */
  datatype CoinbaseTx = CoinbaseTx(script: seq<byte>, outs: seq<Output>, witnessStack: seq<seq<byte>>)

  /** Everything in front of the input script. */
  function Prefix(scriptLength: nat): seq<byte> {
    [2, 0, 0, 0] + [1] + Zeros(32) + [255, 255, 255, 255] + CompactSize(scriptLength)
  }

  function OutputsBytes(outs: seq<Output>): seq<byte> {
    if outs == [] then []
    else Le(outs[0].value % 0x1_0000_0000_0000_0000, 8) + CompactSize(|outs[0].script|) + outs[0].script
         + OutputsBytes(outs[1..])
  }

  /** Everything behind the input script, up to the lock time. */
  function InputTail(outs: seq<Output>): seq<byte> {
    [255, 255, 255, 255] + CompactSize(|outs|) + OutputsBytes(outs)
  }

  /** The serialization that is hashed for the transaction id. */
  function NonWitness(tx: CoinbaseTx): seq<byte> {
    Prefix(|tx.script|) + tx.script + (InputTail(tx.outs) + Zeros(4))
  }

  function WitnessBytes(items: seq<seq<byte>>): seq<byte> {
    if items == [] then [] else CompactSize(|items[0]|) + items[0] + WitnessBytes(items[1..])
  }

  /** The serialization that is put into a block: it carries the witness when there is one. */
  function WithWitness(tx: CoinbaseTx): seq<byte> {
    if tx.witnessStack == [] then NonWitness(tx)
    else [2, 0, 0, 0] + [0, 1] + Prefix(|tx.script|)[4..] + tx.script + InputTail(tx.outs)
         + CompactSize(|tx.witnessStack|) + WitnessBytes(tx.witnessStack) + Zeros(4)
  }

  function Weight(tx: CoinbaseTx): nat {
    3 * |NonWitness(tx)| + |WithWitness(tx)|
  }

  // ---------- the input script ----------

  /** Zero bytes reserved behind the identifier; eight of them when the height takes at most three bytes. */
  function Padding(height: nat): seq<byte>
    requires height <= 0x7fffffff
  {
    Zeros(8 + 3 - NumberSize(height))
  }

  function InputScript(height: nat, identifier: seq<byte>): seq<byte>
    requires height <= 0x7fffffff
  {
    HeightPush(height) + identifier + Padding(height)
  }

  /** A script of one-byte length whose first bytes occur nowhere in front of it: a nonzero height, or height 0
      and a printable character. */
  ghost predicate Distinctive(script: seq<byte>) {
    && 12 <= |script| <= MAX_SCRIPT_SIZE
    && script[0] <= 4
    && (script[0] == 0 ==> 0x20 <= script[1] <= 0xf4)
    && (script[0] == 1 ==> script[1] != 0)
    && (script[0] == 2 ==> script[1] != 0 || script[2] != 0)
  }

  /** An identifier in plain text: empty, or starting with a printable or a multi-byte character. */
  ghost predicate IsIdentifier(identifier: seq<byte>) {
    identifier == [] || 0x20 <= identifier[0] <= 0xf4
  }

  lemma InputScriptDistinctiveIff(height: nat, identifier: seq<byte>)
    requires height <= 0x7fffffff && (height == 0 ==> IsIdentifier(identifier))
    requires |InputScript(height, identifier)| <= MAX_SCRIPT_SIZE
    ensures |InputScript(height, identifier)| == 12 + |identifier|
    ensures Distinctive(InputScript(height, identifier)) <==> height > 0 || identifier != []
  {
    var script, size := InputScript(height, identifier), NumberSize(height);
    assert script[0] == size;
    if height == 0 {
      assert script[1] == (identifier + Padding(0))[0];
    } else if size <= 2 {
      EncodeNumberNotZero(height);
      assert script[1] == EncodeNumber(height)[0];
      assert size == 2 ==> script[2] == EncodeNumber(height)[1];
      var zeros := Zeros(size);
      assert exists i :: 0 <= i < size && EncodeNumber(height)[i] != zeros[i];
    }
  }

  // ---------- searching the script in the serialized text ----------

  function Nibble(b: seq<byte>, i: nat): nat
    requires i < 2 * |b|
  {
    if i % 2 == 0 then b[i / 2] / 16 else b[i / 2] % 16
  }

  lemma MatchMeansEqualNibbles(text: seq<byte>, part: seq<byte>, at: nat, j: nat)
    requires MatchesAt(ToHex(text), ToHex(part), at)
    requires j < 2 * |part|
    ensures at + j < 2 * |text| && Nibble(text, at + j) == Nibble(part, j)
  {
    var t, p := ToHex(text), ToHex(part);
    assert t[at..at + |p|][j] == p[j];
    assert HexValue(t[at + j]) == Nibble(text, at + j);
    assert HexValue(p[j]) == Nibble(part, j);
  }

  /** Version 2, one input, a null outpoint and the script's length, in front of the script. */
  ghost predicate Layout(text: seq<byte>, script: seq<byte>) {
    && |text| >= 42 + |script|
    && text[0] == 2 && text[1] == text[2] == text[3] == 0 && text[4] == 1
    && (forall i :: 5 <= i < 37 ==> text[i] == 0)
    && (forall i :: 37 <= i < 41 ==> text[i] == 255)
    && text[41] == |script|
    && (forall i :: 0 <= i < |script| ==> text[42 + i] == script[i])
  }

  lemma NonWitnessLayout(tx: CoinbaseTx)
    requires |tx.script| < 253
    ensures |Prefix(|tx.script|)| == 42 && Layout(NonWitness(tx), tx.script)
  {
  }

  lemma HexCutAround(before: seq<byte>, middle: seq<byte>, after: seq<byte>)
    ensures var text := ToHex(before + middle + after);
      && |text| == 2 * (|before| + |middle| + |after|)
      && text[..2 * |before|] == ToHex(before)
      && text[2 * (|before| + |middle|)..] == ToHex(after)
      && MatchesAt(text, ToHex(middle), 2 * |before|)
  {
    ToHexConcat(before + middle, after);
    ToHexConcat(before, middle);
  }

  lemma FoundAtInput(tx: CoinbaseTx)
    requires |tx.script| < 253
    ensures MatchesAt(ToHex(NonWitness(tx)), ToHex(tx.script), 84)
  {
    NonWitnessLayout(tx);
    HexCutAround(Prefix(|tx.script|), tx.script, InputTail(tx.outs) + Zeros(4));
  }

  /** A match at an even offset would compare whole bytes. */
  lemma NoEvenMatch(text: seq<byte>, part: seq<byte>, at: nat, i: nat)
    requires i < |part| && at + i < |text| && text[at + i] != part[i]
    ensures !MatchesAt(ToHex(text), ToHex(part), 2 * at)
  {
    if MatchesAt(ToHex(text), ToHex(part), 2 * at) {
      MatchMeansEqualNibbles(text, part, 2 * at, 2 * i);
      MatchMeansEqualNibbles(text, part, 2 * at, 2 * i + 1);
    }
  }

  /** A match at an odd offset would compare the low half of one byte and the high half of the next. */
  lemma NoOddMatch(text: seq<byte>, part: seq<byte>, at: nat, i: nat)
    requires i < |part| && at + i + 1 < |text|
    requires text[at + i] % 16 != part[i] / 16 || text[at + i + 1] / 16 != part[i] % 16
    ensures !MatchesAt(ToHex(text), ToHex(part), 2 * at + 1)
  {
    if MatchesAt(ToHex(text), ToHex(part), 2 * at + 1) {
      MatchMeansEqualNibbles(text, part, 2 * at + 1, 2 * i);
      MatchMeansEqualNibbles(text, part, 2 * at + 1, 2 * i + 1);
    }
  }

  /** In front of the input the leading bytes of the script occur neither at a byte nor across two. */
  lemma MismatchBefore(text: seq<byte>, script: seq<byte>, at: nat)
    requires Layout(text, script) && Distinctive(script) && at < 42
    ensures text[at] != script[0] || text[at + 1] != script[1] || text[at + 2] != script[2]
    ensures text[at] % 16 != script[0] / 16 || text[at + 1] / 16 != script[0] % 16 || text[at + 1] % 16 != script[1] / 16
  {
    assert text[42 + 0] == script[0];
  }

  lemma NoEvenMatchOfThree(text: seq<byte>, part: seq<byte>, at: nat)
    requires |part| >= 3 && at + 2 < |text|
    requires text[at] != part[0] || text[at + 1] != part[1] || text[at + 2] != part[2]
    ensures !MatchesAt(ToHex(text), ToHex(part), 2 * at)
  {
    NoEvenMatch(text, part, at, if text[at] != part[0] then 0 else if text[at + 1] != part[1] then 1 else 2);
  }

  lemma NoOddMatchOfTwo(text: seq<byte>, part: seq<byte>, at: nat)
    requires |part| >= 2 && at + 2 < |text|
    requires text[at] % 16 != part[0] / 16 || text[at + 1] / 16 != part[0] % 16 || text[at + 1] % 16 != part[1] / 16
    ensures !MatchesAt(ToHex(text), ToHex(part), 2 * at + 1)
  {
    NoOddMatch(text, part, at, if text[at] % 16 != part[0] / 16 || text[at + 1] / 16 != part[0] % 16 then 0 else 1);
  }

  /** No alignment, at a byte or in the middle of one, matches in front of the input. */
  lemma NoEarlierMatch(text: seq<byte>, script: seq<byte>, k: nat)
    requires Layout(text, script) && Distinctive(script)
    requires k < 84
    ensures !MatchesAt(ToHex(text), ToHex(script), k)
  {
    var at := k / 2;
    MismatchBefore(text, script, at);
    if k == 2 * at {
      NoEvenMatchOfThree(text, script, at);
    } else {
      NoOddMatchOfTwo(text, script, at);
    }
  }

  /** The text search meets the input itself first. */
  lemma SearchFindsInput(tx: CoinbaseTx)
    requires Distinctive(tx.script)
    ensures IndexOf(ToHex(NonWitness(tx)), ToHex(tx.script)) == 84
  {
    FoundAtInput(tx);
    NonWitnessLayout(tx);
    forall k | 0 <= k < 84 ensures !MatchesAt(ToHex(NonWitness(tx)), ToHex(tx.script), k) {
      NoEarlierMatch(NonWitness(tx), tx.script, k);
    }
  }

  /** Twelve zero bytes are met inside the null outpoint already. */
  lemma BareZeroHeightMatchesEarly(tx: CoinbaseTx)
    requires tx.script == InputScript(0, [])
    ensures MatchesAt(ToHex(NonWitness(tx)), ToHex(tx.script), 10)
  {
    NonWitnessLayout(tx);
    assert tx.script == Zeros(12);
    ZerosMatch(NonWitness(tx));
  }

  lemma ZerosMatch(text: seq<byte>)
    requires |text| >= 37 && forall i :: 5 <= i < 37 ==> text[i] == 0
    ensures MatchesAt(ToHex(text), ToHex(Zeros(12)), 10)
  {
    assert text[5..17] == Zeros(12);
    assert text == text[..5] + Zeros(12) + text[17..];
    HexCutAround(text[..5], Zeros(12), text[17..]);
  }

  /** Exactly when the search is right for a freshly built script: only a bare height 0 defeats it. */
  lemma SearchFindsFreshInputIff(height: nat, identifier: seq<byte>, outs: seq<Output>, witnessStack: seq<seq<byte>>)
    requires height <= 0x7fffffff && (height == 0 ==> IsIdentifier(identifier))
    requires |InputScript(height, identifier)| <= MAX_SCRIPT_SIZE
    ensures var tx := CoinbaseTx(InputScript(height, identifier), outs, witnessStack);
      IndexOf(ToHex(NonWitness(tx)), ToHex(tx.script)) == 84 <==> height > 0 || identifier != []
  {
    var tx := CoinbaseTx(InputScript(height, identifier), outs, witnessStack);
    InputScriptDistinctiveIff(height, identifier);
    if height > 0 || identifier != [] {
      SearchFindsInput(tx);
    } else {
      BareZeroHeightMatchesEarly(tx);
    }
  }

  // ---------- the two halves of the notification ----------

  /** The text up to sixteen digits before the end of the script that the search finds. */
  ghost function CutBefore(text: string, script: string): string {
    SliceTo(text, IndexOf(text, script) + |script| - 16)
  }

  ghost function CutAfter(text: string, script: string): string {
    var end := IndexOf(text, script) + |script|;
    if 0 <= end <= |text| then text[end..] else ""
  }

  ghost function Part1(tx: CoinbaseTx): string {
    CutBefore(ToHex(NonWitness(tx)), ToHex(tx.script))
  }

  ghost function Part2(tx: CoinbaseTx): string {
    CutAfter(ToHex(NonWitness(tx)), ToHex(tx.script))
  }

  /** The bytes in front of the eight extranonce bytes, and those behind them. */
  function Head(tx: CoinbaseTx): seq<byte>
    requires |tx.script| >= 8
  {
    Prefix(|tx.script|) + tx.script[..|tx.script| - 8]
  }

  function Tail(tx: CoinbaseTx): seq<byte> {
    InputTail(tx.outs) + Zeros(4)
  }

  lemma NonWitnessSplit(tx: CoinbaseTx)
    requires 8 <= |tx.script| < 253
    ensures NonWitness(tx) == Head(tx) + tx.script[|tx.script| - 8..] + Tail(tx)
    ensures |Head(tx)| == 34 + |tx.script|
  {
    var n := |tx.script|;
    assert tx.script == tx.script[..n - 8] + tx.script[n - 8..];
    ThreeStrings(Prefix(n), tx.script[..n - 8], tx.script[n - 8..]);
  }

  lemma PartsCutAroundExtranonces(tx: CoinbaseTx)
    requires Distinctive(tx.script)
    ensures Part1(tx) == ToHex(Head(tx)) && Part2(tx) == ToHex(Tail(tx))
  {
    SearchFindsInput(tx);
    NonWitnessSplit(tx);
    CutText(NonWitness(tx), Head(tx), tx.script, Tail(tx));
  }

  lemma CutText(bytes: seq<byte>, head: seq<byte>, script: seq<byte>, tail: seq<byte>)
    requires |script| >= 8 && |head| == 34 + |script|
    requires bytes == head + script[|script| - 8..] + tail
    requires IndexOf(ToHex(bytes), ToHex(script)) == 84
    ensures CutBefore(ToHex(bytes), ToHex(script)) == ToHex(head)
    ensures CutAfter(ToHex(bytes), ToHex(script)) == ToHex(tail)
  {
    HexCutAround(head, script[|script| - 8..], tail);
  }

  // ---------- writing extranonces into the script ----------

  /** The script with its last eight bytes replaced by what the extranonce text decodes to. */
  function NextScript(script: seq<byte>, extraNonce1: string, extraNonce2: string): seq<byte> {
    FromHex(SubstringTo(ToHex(script), 2 * |script| - 16) + extraNonce1 + extraNonce2)
  }

  lemma NextScriptIs(script: seq<byte>, extraNonce1: string, extraNonce2: string)
    requires |script| >= 8
    ensures NextScript(script, extraNonce1, extraNonce2) == script[..|script| - 8] + FromHex(extraNonce1 + extraNonce2)
  {
    var kept := script[..|script| - 8];
    assert SubstringTo(ToHex(script), 2 * |script| - 16) == ToHex(kept);
    assert ToHex(kept) + extraNonce1 + extraNonce2 == ToHex(kept) + (extraNonce1 + extraNonce2);
    FromHexOfToHex(kept, extraNonce1 + extraNonce2);
  }

  ghost predicate IsHex8(s: string) {
    |s| == 8 && IsHex(s)
  }

  lemma ExtranoncesDecode(extraNonce1: string, extraNonce2: string)
    requires IsHex8(extraNonce1)
    ensures FromHex(extraNonce1 + extraNonce2) == FromHex(extraNonce1) + FromHex(extraNonce2)
    ensures |FromHex(extraNonce1)| == 4
    ensures IsHex8(extraNonce2) ==> |FromHex(extraNonce2)| == 4
  {
    FromHexConcat(extraNonce1, extraNonce2);
    FromHexOfHex(extraNonce1);
    if IsHex8(extraNonce2) {
      FromHexOfHex(extraNonce2);
    }
  }

  /** The coinbase a miner assembles from the notification and its extranonces. */
  function MinerCoinbase(part1: string, extraNonce1: string, extraNonce2: string, part2: string): seq<byte> {
    FromHex(part1 + extraNonce1 + extraNonce2 + part2)
  }

  lemma FromHexAround(before: seq<byte>, extraNonce1: string, extraNonce2: string, after: seq<byte>)
    requires IsHex8(extraNonce1) && IsHex8(extraNonce2)
    ensures MinerCoinbase(ToHex(before), extraNonce1, extraNonce2, ToHex(after))
            == before + FromHex(extraNonce1 + extraNonce2) + after
  {
    var nonces := extraNonce1 + extraNonce2;
    assert ToHex(before) + extraNonce1 + extraNonce2 == ToHex(before) + nonces;
    ThreeStrings(ToHex(before), nonces, ToHex(after));
    FromHexOfToHex(before, nonces + ToHex(after));
    FromHexConcat(nonces, ToHex(after));
    FromHexOfToHex(after, "");
    assert ToHex(after) + "" == ToHex(after);
    ThreeStrings(before, FromHex(nonces), after);
  }

  /** The miner's bytes are the transaction the pool rebuilds. */
  lemma MinerAndPoolAgree(tx: CoinbaseTx, extraNonce1: string, extraNonce2: string)
    requires 8 <= |tx.script| < 253 && IsHex8(extraNonce1) && IsHex8(extraNonce2)
    ensures MinerCoinbase(ToHex(Head(tx)), extraNonce1, extraNonce2, ToHex(Tail(tx)))
            == NonWitness(tx.(script := NextScript(tx.script, extraNonce1, extraNonce2)))
  {
    FromHexAround(Head(tx), extraNonce1, extraNonce2, Tail(tx));
    ExtranoncesDecode(extraNonce1, extraNonce2);
    NextScriptIs(tx.script, extraNonce1, extraNonce2);
    NonWitnessSplit(tx.(script := NextScript(tx.script, extraNonce1, extraNonce2)));
  }

  /** Extranonces leave the leading bytes alone, so the text search stays right. */
  lemma NextScriptStaysDistinctive(script: seq<byte>, extraNonce1: string, extraNonce2: string)
    requires Distinctive(script) && IsHex8(extraNonce1) && |FromHex(extraNonce2)| == 4
    ensures Distinctive(NextScript(script, extraNonce1, extraNonce2))
  {
    ExtranoncesDecode(extraNonce1, extraNonce2);
    NextScriptIs(script, extraNonce1, extraNonce2);
  }

  // ---------- earlier submissions leave no trace ----------

  /** The script after a run of share checks, each with its two extranonce texts. */
  function Replay(script: seq<byte>, calls: seq<(string, string)>): seq<byte>
    decreases |calls|
  {
    if calls == [] then script
    else Replay(NextScript(script, calls[0].0, calls[0].1), calls[1..])
  }

  lemma {:induction false} ReplayKeepsHead(script: seq<byte>, calls: seq<(string, string)>)
    requires |script| >= 8
    requires forall i :: 0 <= i < |calls| ==> |FromHex(calls[i].0 + calls[i].1)| == 8
    ensures |Replay(script, calls)| == |script|
    ensures Replay(script, calls)[..|script| - 8] == script[..|script| - 8]
    decreases |calls|
  {
    if calls != [] {
      NextScriptIs(script, calls[0].0, calls[0].1);
      ReplayKeepsHead(NextScript(script, calls[0].0, calls[0].1), calls[1..]);
    }
  }

  /** After any run of earlier checks a submission yields the script a fresh job would yield. */
  lemma ShareCheckIsHistoryIndependent(script: seq<byte>, calls: seq<(string, string)>, extraNonce1: string, extraNonce2: string)
    requires |script| >= 8
    requires forall i :: 0 <= i < |calls| ==> IsHex8(calls[i].0) && |FromHex(calls[i].1)| == 4
    ensures NextScript(Replay(script, calls), extraNonce1, extraNonce2) == NextScript(script, extraNonce1, extraNonce2)
  {
    forall i | 0 <= i < |calls| ensures |FromHex(calls[i].0 + calls[i].1)| == 8 {
      ExtranoncesDecode(calls[i].0, calls[i].1);
    }
    ReplayKeepsHead(script, calls);
    NextScriptIs(script, extraNonce1, extraNonce2);
    NextScriptIs(Replay(script, calls), extraNonce1, extraNonce2);
  }

  /** One earlier check is harmless exactly when its extranonce2 text decodes to four bytes. */
  lemma EarlierCheckHarmlessIff(script: seq<byte>, extraNonce1: string, earlier: string, later: string)
    requires |script| > 8 && IsHex8(extraNonce1)
    ensures NextScript(NextScript(script, extraNonce1, earlier), extraNonce1, later) == NextScript(script, extraNonce1, later)
            <==> |FromHex(earlier)| == 4
  {
    ExtranoncesDecode(extraNonce1, earlier);
    NextScriptIs(script, extraNonce1, earlier);
    NextScriptIs(script, extraNonce1, later);
    var after := NextScript(script, extraNonce1, earlier);
    if |after| >= 8 {
      NextScriptIs(after, extraNonce1, later);
    } else {
      assert SubstringTo(ToHex(after), 2 * |after| - 16) == "";
      assert "" + extraNonce1 + later == extraNonce1 + later;
    }
  }

  // ---------- what the extranonces leave of the script ----------

  lemma HeightSurvives(height: nat, identifier: seq<byte>, extraNonce1: string, extraNonce2: string)
    requires height <= 0x7fffff || (height <= 0x7fffffff && identifier != [])
    ensures ReadHeight(NextScript(InputScript(height, identifier), extraNonce1, extraNonce2)) == Some(height)
  {
    var script, push := InputScript(height, identifier), HeightPush(height);
    NextScriptIs(script, extraNonce1, extraNonce2);
    ThreeStrings(push, identifier, Padding(height));
    var kept := KeepsFront(push, identifier + Padding(height), FromHex(extraNonce1 + extraNonce2));
    ReadHeightOfPush(height, kept);
  }

  /** Replacing the last eight bytes keeps what stands in front of them. */
  lemma KeepsFront(front: seq<byte>, back: seq<byte>, next: seq<byte>) returns (rest: seq<byte>)
    requires |back| >= 8
    ensures (front + back)[..|front + back| - 8] + next == front + rest
  {
    rest := back[..|back| - 8] + next;
    assert (front + back)[..|front + back| - 8] == front + back[..|back| - 8];
    ThreeStrings(front, back[..|back| - 8], next);
  }

  lemma TruncatedHeight(height: nat, extraNonce1: string, extraNonce2: string)
    requires 0x7fffff < height <= 0x7fffffff && IsHex8(extraNonce1)
    ensures |FromHex(extraNonce1)| == 4
    ensures NextScript(InputScript(height, []), extraNonce1, extraNonce2)
            == [4] + EncodeNumber(height)[..3] + (FromHex(extraNonce1) + FromHex(extraNonce2))
  {
    ExtranoncesDecode(extraNonce1, extraNonce2);
    NextScriptIs(InputScript(height, []), extraNonce1, extraNonce2);
    assert InputScript(height, [])[..4] == [4] + EncodeNumber(height)[..3];
  }

  lemma ReadFourBytes(low: seq<byte>, rest: seq<byte>)
    requires |low| == 3 && |rest| >= 1
    ensures ReadHeight([4] + low + rest)
            == Some(if rest[0] < 0x80 then LeValue(low) + Pow256(3) * rest[0] else -(LeValue(low) + Pow256(3) * (rest[0] - 0x80)))
  {
    assert ([4] + low + rest)[1..5] == low + [rest[0]];
    FourByteNumber(low, rest[0]);
  }

  lemma FourByteNumber(low: seq<byte>, top: byte)
    requires |low| == 3
    ensures SignedNumber(low + [top])
            == if top < 0x80 then LeValue(low) + Pow256(3) * top else -(LeValue(low) + Pow256(3) * (top - 0x80))
  {
    assert (low + [top])[..3] == low;
  }

  /** A four-byte height that fills the reserved space loses its last byte to the first extranonce. */
  lemma TruncatedHeightSurvivesIff(height: nat, extraNonce1: string, extraNonce2: string)
    requires 0x7fffff < height <= 0x7fffffff && IsHex8(extraNonce1)
    ensures |FromHex(extraNonce1)| == 4
    ensures ReadHeight(NextScript(InputScript(height, []), extraNonce1, extraNonce2)) == Some(height)
            <==> FromHex(extraNonce1)[0] == height / 0x1000000
  {
    var low, top := EncodeNumber(height)[..3], FromHex(extraNonce1)[0];
    TruncatedHeight(height, extraNonce1, extraNonce2);
    ReadFourBytes(low, FromHex(extraNonce1) + FromHex(extraNonce2));
    LowAndTopByte(height);
    TopByteIs(height, LeValue(low), top, EncodeNumber(height)[3]);
  }

  lemma LowAndTopByte(height: nat)
    requires 0x7fffff < height <= 0x7fffffff
    ensures var number := EncodeNumber(height);
      height == LeValue(number[..3]) + Pow256(3) * number[3] && LeValue(number[..3]) < Pow256(3) == 0x1000000
  {
    Pow256Values();
    LeRoundTrip(height, 4);
    LastByteOf(EncodeNumber(height));
  }

  lemma TopByteIs(value: nat, low: nat, other: nat, top: nat)
    requires 0x7fffff < value <= 0x7fffffff && value == low + 0x1000000 * top && low < 0x1000000
    ensures low + 0x1000000 * other == value <==> other == value / 0x1000000
    ensures other >= 0x80 ==> -(low + 0x1000000 * (other - 0x80)) != value && other != value / 0x1000000
  {
  }

  /** The height survives every submission exactly when it is short or an identifier follows it. */
  lemma HeightSurvivesIff(height: nat, identifier: seq<byte>)
    requires height <= 0x7fffffff
    ensures (forall e1: string, e2: string :: IsHex8(e1) && IsHex8(e2) ==>
               ReadHeight(NextScript(InputScript(height, identifier), e1, e2)) == Some(height))
            <==> height <= 0x7fffff || identifier != []
  {
    if height <= 0x7fffff || identifier != [] {
      forall e1: string, e2: string | IsHex8(e1) && IsHex8(e2)
        ensures ReadHeight(NextScript(InputScript(height, identifier), e1, e2)) == Some(height)
      {
        HeightSurvives(height, identifier, e1, e2);
      }
    } else {
      var lost := if height / 0x1000000 == 0 then "01000000" else "00000000";
      assert IsHex8(lost) && IsHex8("00000000");
      assert FromHex(lost)[0] == 16 * HexValue(lost[0]) + HexValue(lost[1]);
      TruncatedHeightSurvivesIff(height, lost, "00000000");
    }
  }

  /** The identifier survives too, up to the three-byte heights the padding is sized for. */
  lemma IdentifierSurvives(height: nat, identifier: seq<byte>, extraNonce1: string, extraNonce2: string)
    requires height <= 0x7fffff
    ensures HeightPush(height) + identifier <= NextScript(InputScript(height, identifier), extraNonce1, extraNonce2)
  {
    var script := InputScript(height, identifier);
    NextScriptIs(script, extraNonce1, extraNonce2);
    assert script[..|script| - 8] == HeightPush(height) + identifier + Zeros(3 - NumberSize(height));
  }
}
