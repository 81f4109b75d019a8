/** A job: its coinbase, kept in one shared object, and the blocks rebuilt from it for every share. */
module MiningJob {
  import opened Bytes
  import opened Script
  import opened Merkle
  import opened Coinbase
  import opened Payout

  const MAX_BLOCK_WEIGHT := 4000000
  const SEGWIT_MAGIC: seq<byte> := [0xaa, 0x21, 0xa9, 0xed]

  /** A transaction of the template in its hashed and its full form. */
  datatype RawTx = RawTx(base: seq<byte>, full: seq<byte>)

  datatype Template = Template(
    id: string,
    version: nat,
    prevHash: Digest,
    bits: nat,
    timestamp: int,
    height: nat,
    coinbaseValue: nat,
    witnessCommit: Option<Digest>,
    signetChallenge: Option<string>,
    weight: nat,
    others: seq<RawTx>,
    branch: seq<string>,
    clearJobs: bool)

  function Ids(hash: Hash, others: seq<RawTx>): seq<Digest> {
    if others == [] then [] else [hash(others[0].base)] + Ids(hash, others[1..])
  }

  /** Leaves of the Merkle tree: the coinbase in front of the other transactions. */
  function Leaves(hash: Hash, coinbaseId: Digest, others: seq<RawTx>): seq<Digest> {
    [coinbaseId] + Ids(hash, others)
  }

  /** The coinbase first, then every other transaction in its place. */
  lemma {:induction false} LeavesAre(hash: Hash, coinbaseId: Digest, others: seq<RawTx>)
    ensures var leaves := Leaves(hash, coinbaseId, others);
      |leaves| == 1 + |others| && leaves[0] == coinbaseId && forall i :: 0 <= i < |others| ==> leaves[i + 1] == hash(others[i].base)
  {
    if others != [] {
      LeavesAre(hash, coinbaseId, others[1..]);
      forall i | 0 <= i < |others| ensures Leaves(hash, coinbaseId, others)[i + 1] == hash(others[i].base) {
        if i > 0 {
          assert Leaves(hash, coinbaseId, others[1..])[i] == hash(others[1..][i - 1].base);
        }
      }
    }
  }

  /** The coinbase that stands in while the branch is taken: an empty script and no outputs. */
  const PLACEHOLDER := CoinbaseTx([], [], [])

  function BranchText(hash: Hash, others: seq<RawTx>): seq<string> {
    var leaves := Leaves(hash, hash(NonWitness(PLACEHOLDER)), others);
    var branch := ExtractBranch(Proof(hash, leaves));
    seq(|branch|, i requires 0 <= i < |branch| => ToHex(branch[i]))
  }

  ghost predicate WellFormed(hash: Hash, t: Template) {
    && t.version < 0x1_0000_0000 && t.bits < 0x1_0000_0000 && t.height <= 0x7fffffff
    && t.branch == BranchText(hash, t.others)
  }

  lemma BranchTextDecodes(hash: Hash, others: seq<RawTx>)
    ensures BranchDecodes(BranchText(hash, others))
    ensures Nodes(BranchText(hash, others)) == Branch(hash, Leaves(hash, hash(NonWitness(PLACEHOLDER)), others))
  {
    var leaves := Leaves(hash, hash(NonWitness(PLACEHOLDER)), others);
    ExtractBranchOfProof(hash, leaves);
    var text, branch := BranchText(hash, others), Branch(hash, leaves);
    forall i | 0 <= i < |text| ensures FromHex(text[i]) == branch[i] {
      FromHexOfToHex(branch[i], "");
      assert ToHex(branch[i]) + "" == ToHex(branch[i]);
    }
  }

  // ---------- the header ----------

  /** The 80 bytes of a header; None when the time or the nonce does not fit its four bytes. */
  function HeaderBytes(version: nat, prevHash: Digest, root: Digest, time: int, bits: nat, nonce: int): (h: Option<seq<byte>>)
    ensures h.Some? ==> |h.value| == 80
  {
    if 0 <= time < 0x1_0000_0000 && 0 <= nonce < 0x1_0000_0000
    then Some(Le(version, 4) + prevHash + root + Le(time, 4) + Le(bits, 4) + Le(nonce, 4))
    else None
  }

  /** Where each field of a header stands, and exactly when there is one. */
  lemma HeaderLayout(version: nat, prevHash: Digest, root: Digest, time: int, bits: nat, nonce: int)
    requires version < 0x1_0000_0000 && bits < 0x1_0000_0000
    ensures var h := HeaderBytes(version, prevHash, root, time, bits, nonce);
      && (h.Some? <==> 0 <= time < 0x1_0000_0000 && 0 <= nonce < 0x1_0000_0000)
      && (h.Some? ==>
            && |h.value| == 80 && LeValue(h.value[..4]) == version && h.value[4..36] == prevHash && h.value[36..68] == root
            && LeValue(h.value[68..72]) == time && LeValue(h.value[72..76]) == bits && LeValue(h.value[76..]) == nonce)
  {
    if 0 <= time < 0x1_0000_0000 && 0 <= nonce < 0x1_0000_0000 {
      SixFields(Le(version, 4), prevHash, root, Le(time, 4), Le(bits, 4), Le(nonce, 4));
      Pow256Values();
      LeRoundTrip(version, 4);
      LeRoundTrip(time, 4);
      LeRoundTrip(bits, 4);
      LeRoundTrip(nonce, 4);
    }
  }

  lemma SixFields(a: seq<byte>, b: seq<byte>, c: seq<byte>, d: seq<byte>, e: seq<byte>, f: seq<byte>)
    requires |a| == |d| == |e| == |f| == 4 && |b| == |c| == 32
    ensures var h := a + b + c + d + e + f;
      |h| == 80 && h[..4] == a && h[4..36] == b && h[36..68] == c && h[68..72] == d && h[72..76] == e && h[76..] == f
  {
  }

  function ApplyMask(version: nat, mask: int): nat {
    if mask == 0 then version else Xor(version, Word(mask))
  }

  /** The mask turns over exactly the version bits it names, and fits the version back into its word. */
  lemma MaskFlipsItsBits(version: nat, mask: int, i: nat)
    requires version < 0x1_0000_0000 && i < 32
    ensures ApplyMask(version, mask) < 0x1_0000_0000
    ensures Bit(ApplyMask(version, mask), i) <==> Bit(version, i) != Bit(Word(mask), i)
  {
    Pow2Values();
    Pow2Adds(31, 1);
    if mask == 0 {
      BitOfZero(i);
    } else {
      XorFlipsBits(version, Word(mask), 32);
    }
  }

  lemma MaskedVersionFits(version: nat, mask: int)
    requires version < 0x1_0000_0000
    ensures ApplyMask(version, mask) < 0x1_0000_0000
  {
    Pow2Of32();
    XorBelow(version, Word(mask), 32);
  }

  lemma {:induction false} BitOfZero(i: nat)
    ensures !Bit(0, i)
    decreases i
  {
    if i > 0 {
      BitOfZero(i - 1);
    }
  }

  /** The Merkle root a block with this coinbase has. */
  function RootWith(hash: Hash, tx: CoinbaseTx, others: seq<RawTx>): Digest {
    Root(hash, Leaves(hash, hash(NonWitness(tx)), others))
  }

  /** Folding any coinbase id over the template's branch gives the root of the rebuilt block. */
  lemma FoldIsRoot(hash: Hash, id: Digest, others: seq<RawTx>)
    ensures BranchDecodes(BranchText(hash, others))
    ensures Fold(hash, id, Nodes(BranchText(hash, others))) == Root(hash, Leaves(hash, id, others))
  {
    var leaves := Leaves(hash, hash(NonWitness(PLACEHOLDER)), others);
    BranchTextDecodes(hash, others);
    BranchServesEveryLeaf(hash, leaves, id);
    assert leaves[0 := id] == Leaves(hash, id, others);
  }

  // ---------- what the constructor builds ----------

  datatype JobConfig = JobConfig(identifier: seq<byte>, enableSegwit: bool, bootstrap: Option<Bootstrap>)

  /** The one-off message of an early chain. */
  datatype Bootstrap = Bootstrap(message: seq<byte>, heightMax: int)

  function ReturnOutput(data: seq<byte>): Output {
    Output(0, [OP_RETURN] + CompilePush(data))
  }

  function MessageOutputs(config: JobConfig, t: Template): (outs: seq<Output>)
    ensures forall i :: 0 <= i < |outs| ==> outs[i].value == 0
  {
    match config.bootstrap
    case Some(b) => if b.message != [] && t.height <= b.heightMax then [ReturnOutput(b.message)] else []
    case None => []
  }

  function ExtraOutputs(config: JobConfig, t: Template): (outs: seq<Output>)
    ensures forall i :: 0 <= i < |outs| ==> outs[i].value == 0
  {
    MessageOutputs(config, t)
    + (if config.enableSegwit && t.witnessCommit.Some? then [ReturnOutput(SEGWIT_MAGIC + t.witnessCommit.value)] else [])
  }

  /** The outputs in their bytes: a message up to its last height, and BIP 141's commitment. */
  lemma ExtraOutputsAre(config: JobConfig, t: Template)
    ensures ExtraOutputs(config, t) ==
      (if config.bootstrap.Some? && config.bootstrap.value.message != [] && t.height <= config.bootstrap.value.heightMax
       then [Output(0, [0x6a] + CompilePush(config.bootstrap.value.message))] else [])
      + (if config.enableSegwit && t.witnessCommit.Some?
         then [Output(0, [0x6a, 0x24, 0xaa, 0x21, 0xa9, 0xed] + t.witnessCommit.value)] else [])
  {
    if config.enableSegwit && t.witnessCommit.Some? {
      CommitmentScript(t.witnessCommit.value);
    }
  }

  lemma CommitmentScript(commit: Digest)
    ensures ReturnOutput(SEGWIT_MAGIC + commit).script == [0x6a, 0x24, 0xaa, 0x21, 0xa9, 0xed] + commit
  {
  }

  function WitnessStack(config: JobConfig): seq<seq<byte>> {
    if config.enableSegwit then [Zeros(32)] else []
  }

  function FullCoinbase(config: JobConfig, t: Template, identifier: seq<byte>, payouts: seq<Output>): CoinbaseTx
    requires t.height <= 0x7fffffff
  {
    CoinbaseTx(InputScript(t.height, identifier), payouts + ExtraOutputs(config, t), WitnessStack(config))
  }

  /** The configured identifier, dropped when it makes the script too long or the block too heavy. */
  function KeptIdentifier(config: JobConfig, t: Template, payouts: seq<Output>): seq<byte>
    requires t.height <= 0x7fffffff
  {
    if |InputScript(t.height, config.identifier)| > MAX_SCRIPT_SIZE then []
    else if Weight(FullCoinbase(config, t, config.identifier, payouts)) + t.weight > MAX_BLOCK_WEIGHT then []
    else config.identifier
  }

  /** The identifier is kept exactly when the script has at most 100 bytes and the block at most four million units with it. */
  lemma IdentifierIsKeptIff(config: JobConfig, t: Template, payouts: seq<Output>)
    requires t.height <= 0x7fffffff
    ensures KeptIdentifier(config, t, payouts) == config.identifier
            <==> || config.identifier == []
                 || (12 + |config.identifier| <= 100
                     && Weight(FullCoinbase(config, t, config.identifier, payouts)) + t.weight <= 4000000)
  {
  }

  /** The text search will find the script: a positive height, or a kept identifier in plain text. */
  ghost predicate Searchable(config: JobConfig, t: Template, payouts: seq<Output>)
    requires t.height <= 0x7fffffff
  {
    t.height > 0 || (KeptIdentifier(config, t, payouts) != [] && IsIdentifier(KeptIdentifier(config, t, payouts)))
  }

  // ---------- the notification and the miner's side of it ----------

  /** All of it text, as it is sent. */
  datatype Notify = Notify(jobId: string, prevHash: string, part1: string, part2: string, branch: seq<string>,
                           version: string, bits: string, time: string, clearJobs: bool)

  /** Each group of four bytes reversed. */
  function SwapWords(b: seq<byte>): (r: seq<byte>)
    requires |b| % 4 == 0
    ensures |r| == |b|
  {
    if b == [] then [] else [b[3], b[2], b[1], b[0]] + SwapWords(b[4..])
  }

  /** Byte r of a word goes to place 3 - r of the same word. */
  lemma {:induction false} SwapWordsAt(b: seq<byte>, k: nat, r: nat)
    requires |b| % 4 == 0 && 4 * k < |b| && r < 4
    ensures SwapWords(b)[4 * k + r] == b[4 * k + 3 - r]
    decreases k
  {
    if k > 0 {
      SwapWordsAt(b[4..], k - 1, r);
    }
  }

  lemma {:induction false} SwapWordsTwice(b: seq<byte>)
    requires |b| % 4 == 0
    ensures SwapWords(SwapWords(b)) == b
  {
    if b != [] {
      SwapWordsTwice(b[4..]);
      assert SwapWords(b)[4..] == SwapWords(b[4..]);
      assert b == b[..4] + b[4..];
    }
  }

  lemma {:induction false} SwapWordsConcat(a: seq<byte>, b: seq<byte>)
    requires |a| % 4 == 0 && |b| % 4 == 0
    ensures SwapWords(a + b) == SwapWords(a) + SwapWords(b)
  {
    if a == [] {
      assert a + b == b;
    } else {
      SwapWordsConcat(a[4..], b);
      assert (a + b)[4..] == a[4..] + b;
    }
  }

  lemma SwapNextWord(b: seq<byte>, i: nat)
    requires |b| % 4 == 0 && i % 4 == 0 && i < |b|
    ensures SwapWords(b[..i + 4]) == SwapWords(b[..i]) + [b[i + 3], b[i + 2], b[i + 1], b[i]]
  {
    var word := b[i..i + 4];
    SwapWordsConcat(b[..i], word);
    assert b[..i] + word == b[..i + 4];
    assert SwapWords(word) == [word[3], word[2], word[1], word[0]] + SwapWords(word[4..]);
  }

  method SwapEndianWords(b: seq<byte>) returns (r: seq<byte>)
    requires |b| % 4 == 0
    ensures r == SwapWords(b)
  {
    var swapped := new byte[|b|](_ => 0);
    var i := 0;
    while i < |b|
      invariant 0 <= i <= |b| && i % 4 == 0
      invariant swapped[..i] == SwapWords(b[..i])
    {
      SwapNextWord(b, i);
      ghost var done := swapped[..i];
      swapped[i], swapped[i + 1], swapped[i + 2], swapped[i + 3] := b[i + 3], b[i + 2], b[i + 1], b[i];
      assert swapped[..i] == done && swapped[..i + 4] == swapped[..i] + swapped[i..i + 4];
      assert swapped[i..i + 4] == [b[i + 3], b[i + 2], b[i + 1], b[i]];
      i := i + 4;
    }
    assert b[..|b|] == b;
    r := swapped[..];
  }

  ghost predicate Readable(n: Notify) {
    |FromHex(n.prevHash)| == 32 && BranchDecodes(n.branch)
  }

  /** The header a miner hashes: it reads the numbers, undoes the word swap, glues its coinbase and folds the branch. */
  ghost function MinerHeader(hash: Hash, n: Notify, extraNonce1: string, extraNonce2: string, mask: int, time: int, nonce: int): Option<seq<byte>>
    requires Readable(n)
  {
    var id := hash(MinerCoinbase(n.part1, extraNonce1, extraNonce2, n.part2));
    HeaderBytes(ApplyMask(HexPrefix(n.version), mask), SwapWords(FromHex(n.prevHash)), Fold(hash, id, Nodes(n.branch)), time,
      HexPrefix(n.bits), nonce)
  }

  // ---------- the two parts and the coinbase they surround ----------

  ghost predicate PartsMatch(tx: CoinbaseTx, part1: string, part2: string) {
    12 <= |tx.script| <= MAX_SCRIPT_SIZE && part1 == ToHex(Head(tx)) && part2 == ToHex(Tail(tx))
  }

  lemma FreshPartsMatch(config: JobConfig, t: Template, payouts: seq<Output>)
    requires t.height <= 0x7fffffff
    requires Searchable(config, t, payouts)
    ensures var tx := FullCoinbase(config, t, KeptIdentifier(config, t, payouts), payouts);
      PartsMatch(tx, Part1(tx), Part2(tx))
  {
    var kept := KeptIdentifier(config, t, payouts);
    var tx := FullCoinbase(config, t, kept, payouts);
    InputScriptDistinctiveIff(t.height, kept);
    PartsCutAroundExtranonces(tx);
  }

  lemma ExtranoncesKeepHead(tx: CoinbaseTx, extraNonce1: string, extraNonce2: string)
    requires |tx.script| >= 8 && IsHex8(extraNonce1) && |FromHex(extraNonce2)| == 4
    ensures var next := tx.(script := NextScript(tx.script, extraNonce1, extraNonce2));
      |next.script| == |tx.script| && Head(next) == Head(tx) && Tail(next) == Tail(tx)
  {
    ExtranoncesDecode(extraNonce1, extraNonce2);
    NextScriptIs(tx.script, extraNonce1, extraNonce2);
  }

  /** A notification cut from a job whose coinbase is, at some later time, `tx`. */
  ghost predicate Notifies(n: Notify, t: Template, tx: CoinbaseTx) {
    && PartsMatch(tx, n.part1, n.part2)
    && n.prevHash == ToHex(SwapWords(t.prevHash)) && n.branch == t.branch
    && n.version == NatToHex(t.version) && n.bits == NatToHex(t.bits)
  }

  lemma NotifiedIsReadable(hash: Hash, t: Template, tx: CoinbaseTx, n: Notify)
    requires WellFormed(hash, t) && Notifies(n, t, tx)
    ensures Readable(n)
    ensures SwapWords(FromHex(n.prevHash)) == t.prevHash && HexPrefix(n.version) == t.version && HexPrefix(n.bits) == t.bits
  {
    BranchTextDecodes(hash, t.others);
    var swapped := SwapWords(t.prevHash);
    FromHexOfToHex(swapped, "");
    assert ToHex(swapped) + "" == ToHex(swapped) && swapped + FromHex("") == swapped;
    SwapWordsTwice(t.prevHash);
    ParseOfNatToHex(t.version);
    ParseOfNatToHex(t.bits);
  }

  /** Miner and pool hash the same 80 bytes, however many shares were checked in between. */
  lemma MinerHeaderIsPoolHeader(hash: Hash, t: Template, tx: CoinbaseTx, n: Notify,
                                extraNonce1: string, extraNonce2: string, mask: int, time: int, nonce: int)
    requires WellFormed(hash, t) && Notifies(n, t, tx)
    requires IsHex8(extraNonce1) && IsHex8(extraNonce2)
    ensures Readable(n)
    ensures var next := tx.(script := NextScript(tx.script, extraNonce1, extraNonce2));
      MinerHeader(hash, n, extraNonce1, extraNonce2, mask, time, nonce)
      == HeaderBytes(ApplyMask(t.version, mask), t.prevHash, RootWith(hash, next, t.others), time, t.bits, nonce)
  {
    NotifiedIsReadable(hash, t, tx, n);
    MinerAndPoolAgree(tx, extraNonce1, extraNonce2);
    FoldIsRoot(hash, hash(MinerCoinbase(n.part1, extraNonce1, extraNonce2, n.part2)), t.others);
  }

  method CutParts(text: string, script: string) returns (part1: string, part2: string)
    ensures part1 == CutBefore(text, script) && part2 == CutAfter(text, script)
  {
    var at := FindFirst(text, script);
    var end := at + |script|;
    part1 := SliceTo(text, end - 16);
    part2 := if 0 <= end <= |text| then text[end..] else "";
  }

  // ---------- mutable objects ----------

  class Transaction {
    var script: seq<byte>
    var outs: seq<Output>
    var witnessStack: seq<seq<byte>>

    constructor (tx: CoinbaseTx)
      ensures Value() == tx
    {
      script, outs, witnessStack := tx.script, tx.outs, tx.witnessStack;
    }

    function Value(): CoinbaseTx
      reads this
    {
      CoinbaseTx(script, outs, witnessStack)
    }
  }

  /** A rebuilt block. Its coinbase is the job's own object, not a copy. */
  class Block {
    const version: nat
    const prevHash: Digest
    const merkleRoot: Digest
    const timestamp: int
    const bits: nat
    const nonce: int
    const coinbase: Transaction
    const others: seq<RawTx>

    constructor (version: nat, prevHash: Digest, merkleRoot: Digest, timestamp: int, bits: nat, nonce: int,
                 coinbase: Transaction, others: seq<RawTx>)
      ensures this.version == version && this.prevHash == prevHash && this.merkleRoot == merkleRoot
      ensures this.timestamp == timestamp && this.bits == bits && this.nonce == nonce
      ensures this.coinbase == coinbase && this.others == others
    {
      this.version, this.prevHash, this.merkleRoot := version, prevHash, merkleRoot;
      this.timestamp, this.bits, this.nonce := timestamp, bits, nonce;
      this.coinbase, this.others := coinbase, others;
    }

    function Header(): Option<seq<byte>> {
      HeaderBytes(version, prevHash, merkleRoot, timestamp, bits, nonce)
    }

    /** The serialization sent to the node. */
    function FullBytes(): Option<seq<byte>>
      reads coinbase
    {
      match Header()
      case None => None
      case Some(header) =>
        Some(header + CompactSize(1 + |others|) + WithWitness(coinbase.Value()) + OtherBytes(others))
    }
  }

  function OtherBytes(others: seq<RawTx>): seq<byte> {
    if others == [] then [] else others[0].full + OtherBytes(others[1..])
  }

  /** A block's transactions stand in the order of the template. */
  lemma {:induction false} OtherBytesConcat(front: seq<RawTx>, back: seq<RawTx>)
    ensures OtherBytes(front + back) == OtherBytes(front) + OtherBytes(back)
    ensures forall tx: RawTx :: OtherBytes([tx]) == tx.full
  {
    forall tx: RawTx ensures OtherBytes([tx]) == tx.full {
      assert [tx][1..] == [];
    }
    if front == [] {
      assert front + back == back;
    } else {
      OtherBytesConcat(front[1..], back);
      assert (front + back)[1..] == front[1..] + back;
    }
  }

  class Job {
    const jobId: string
    const ownerSessionId: string
    const jobTemplateId: string
    var coinbaseTransaction: Transaction
    var coinbasePart1: string
    var coinbasePart2: string
    var signetLocked: bool
    var lockedExtraNonce2: string
    var lockedNtime: int
    var lockedVersionMask: int

    /** The two halves in the notification surround the last eight bytes of the current coinbase script. */
    ghost predicate Valid()
      reads this, coinbaseTransaction
    {
      PartsMatch(coinbaseTransaction.Value(), coinbasePart1, coinbasePart2)
    }

    constructor (config: JobConfig, jobId: string, owner: string, payouts: seq<Output>, t: Template)
      requires t.height <= 0x7fffffff
      ensures fresh(coinbaseTransaction)
      ensures this.jobId == jobId && ownerSessionId == owner && jobTemplateId == t.id && !signetLocked
      ensures coinbaseTransaction.Value() == FullCoinbase(config, t, KeptIdentifier(config, t, payouts), payouts)
      ensures coinbaseTransaction.outs[..|payouts|] == payouts
      ensures coinbaseTransaction.witnessStack == if config.enableSegwit then [seq(32, _ => 0)] else []
      ensures Searchable(config, t, payouts) ==> Valid()
    {
      this.jobId, this.ownerSessionId, this.jobTemplateId := jobId, owner, t.id;
      signetLocked, lockedExtraNonce2, lockedNtime, lockedVersionMask := false, "", 0, 0;
      coinbasePart1, coinbasePart2 := "", "";
      var script := InputScript(t.height, config.identifier);
      if |script| > MAX_SCRIPT_SIZE {
        script := InputScript(t.height, []);
      }
      var tx := CoinbaseTx(script, payouts + ExtraOutputs(config, t), WitnessStack(config));
      if Weight(tx) + t.weight > MAX_BLOCK_WEIGHT {
        tx := tx.(script := InputScript(t.height, []));
      }
      coinbaseTransaction := new Transaction(tx);
      new;
      assert tx == FullCoinbase(config, t, KeptIdentifier(config, t, payouts), payouts);
      RebuildCoinbaseParts();
      if Searchable(config, t, payouts) {
        FreshPartsMatch(config, t, payouts);
      }
    }

    method RebuildCoinbaseParts()
      modifies this`coinbasePart1, this`coinbasePart2
      ensures coinbasePart1 == Part1(coinbaseTransaction.Value())
      ensures coinbasePart2 == Part2(coinbaseTransaction.Value())
    {
      var text := ToHex(NonWitness(coinbaseTransaction.Value()));
      coinbasePart1, coinbasePart2 := CutParts(text, ToHex(coinbaseTransaction.script));
    }

    /** Writes the extranonces into the shared coinbase and builds a block around it. */
    method CopyAndUpdateBlock(hash: Hash, t: Template, versionMask: int, nonce: int,
                              extraNonce: string, extraNonce2: string, timestamp: int)
      returns (b: Block)
      requires WellFormed(hash, t)
      modifies coinbaseTransaction
      ensures fresh(b) && b.coinbase == coinbaseTransaction
      ensures coinbaseTransaction.Value()
              == old(coinbaseTransaction.Value()).(script := NextScript(old(coinbaseTransaction.script), extraNonce, extraNonce2))
      ensures b.version == ApplyMask(t.version, versionMask) && b.prevHash == t.prevHash && b.bits == t.bits
      ensures b.timestamp == timestamp && b.nonce == nonce && b.others == t.others
      ensures b.merkleRoot == RootWith(hash, coinbaseTransaction.Value(), t.others)
      ensures old(Valid()) && IsHex8(extraNonce) && |FromHex(extraNonce2)| == 4 ==> Valid()
    {
      var script := coinbaseTransaction.script;
      coinbaseTransaction.script := NextScript(script, extraNonce, extraNonce2);
      var id := hash(NonWitness(coinbaseTransaction.Value()));
      FoldIsRoot(hash, id, t.others);
      var root := CalculateMerkleRootHash(hash, id, t.branch);
      b := new Block(ApplyMask(t.version, versionMask), t.prevHash, root, timestamp, t.bits, nonce,
        coinbaseTransaction, t.others);
      if old(Valid()) && IsHex8(extraNonce) && |FromHex(extraNonce2)| == 4 {
        ExtranoncesKeepHead(old(coinbaseTransaction.Value()), extraNonce, extraNonce2);
      }
    }

    /** Takes over a copy of the signed coinbase and pins everything but the nonce. */
    method ApplySignedCoinbase(signed: CoinbaseTx, extraNonce2: string, ntime: int, versionMask: int)
      requires Distinctive(signed.script)
      modifies this
      ensures fresh(coinbaseTransaction) && coinbaseTransaction.Value() == signed
      ensures signetLocked && lockedExtraNonce2 == ToLower(extraNonce2)
      ensures lockedNtime == ntime && lockedVersionMask == versionMask
      ensures Valid()
    {
      coinbaseTransaction := new Transaction(signed);
      signetLocked, lockedExtraNonce2, lockedNtime, lockedVersionMask := true, ToLower(extraNonce2), ntime, versionMask;
      RebuildCoinbaseParts();
      PartsCutAroundExtranonces(signed);
    }

    predicate MatchesLockedSubmission(extraNonce2: string, ntime: int, versionMask: int)
      reads this
    {
      signetLocked ==>
        lockedExtraNonce2 == ToLower(extraNonce2) && lockedNtime == ntime && lockedVersionMask == versionMask
    }

    method Response(t: Template) returns (n: Notify)
      ensures n.prevHash == ToHex(SwapWords(t.prevHash)) && n.branch == t.branch && n.clearJobs == t.clearJobs
      ensures n.part1 == coinbasePart1 && n.part2 == coinbasePart2 && n.jobId == jobId
      ensures n.version == NatToHex(t.version) && n.bits == NatToHex(t.bits)
      ensures n.time == PadStart(IntToHex(if signetLocked then lockedNtime else t.timestamp), 8)
      ensures Valid() ==> Notifies(n, t, coinbaseTransaction.Value())
    {
      var swapped := SwapEndianWords(t.prevHash);
      var miningTime := if signetLocked then lockedNtime else t.timestamp;
      n := Notify(jobId, ToHex(swapped), coinbasePart1, coinbasePart2, t.branch, NatToHex(t.version), NatToHex(t.bits),
        PadStart(IntToHex(miningTime), 8), t.clearJobs);
    }
  }

  // ---------- checking a share ----------

  /** Header and full block of one share, taken before anything else can touch the shared coinbase. */
  method RebuildShare(job: Job, hash: Hash, t: Template, versionMask: int, nonce: int, extraNonce2: string, ntime: int)
    returns (header: Option<seq<byte>>, full: Option<seq<byte>>)
    requires WellFormed(hash, t) && IsHex8(job.ownerSessionId)
    modifies job.coinbaseTransaction
    ensures job.coinbaseTransaction.Value() == old(job.coinbaseTransaction.Value()).(
              script := NextScript(old(job.coinbaseTransaction.script), job.ownerSessionId, extraNonce2))
    ensures var tx := job.coinbaseTransaction.Value();
      && header == HeaderBytes(ApplyMask(t.version, versionMask), t.prevHash, RootWith(hash, tx, t.others), ntime, t.bits, nonce)
      && (header.Some? ==>
            full == Some(header.value + CompactSize(1 + |t.others|) + WithWitness(tx) + OtherBytes(t.others)))
    ensures header.Some? <==> 0 <= ntime < 0x1_0000_0000 && 0 <= nonce < 0x1_0000_0000
    ensures header.Some? ==>
      && var h := header.value;
      && |h| == 80 && LeValue(h[..4]) == ApplyMask(t.version, versionMask) && h[4..36] == t.prevHash
      && h[36..68] == RootWith(hash, job.coinbaseTransaction.Value(), t.others)
      && LeValue(h[68..72]) == ntime && LeValue(h[72..76]) == t.bits && LeValue(h[76..]) == nonce
    ensures old(job.Valid()) && IsHex8(extraNonce2) ==> job.Valid()
    ensures IsHex8(extraNonce2) ==> forall n: Notify :: old(Notifies(n, t, job.coinbaseTransaction.Value())) ==>
      Readable(n)
      && header == MinerHeader(hash, n, job.ownerSessionId, extraNonce2, versionMask, ntime, nonce)
  {
    ghost var before := job.coinbaseTransaction.Value();
    ExtranoncesDecode(job.ownerSessionId, extraNonce2);
    if IsHex8(extraNonce2) {
      forall n: Notify | Notifies(n, t, before)
        ensures Readable(n)
        ensures MinerHeader(hash, n, job.ownerSessionId, extraNonce2, versionMask, ntime, nonce)
          == HeaderBytes(ApplyMask(t.version, versionMask), t.prevHash,
               RootWith(hash, before.(script := NextScript(before.script, job.ownerSessionId, extraNonce2)), t.others),
               ntime, t.bits, nonce)
      {
        MinerHeaderIsPoolHeader(hash, t, before, n, job.ownerSessionId, extraNonce2, versionMask, ntime, nonce);
      }
    }
    var b := job.CopyAndUpdateBlock(hash, t, versionMask, nonce, job.ownerSessionId, extraNonce2, ntime);
    header := b.Header();
    full := b.FullBytes();
    MaskedVersionFits(t.version, versionMask);
    HeaderLayout(b.version, t.prevHash, b.merkleRoot, ntime, t.bits, nonce);
  }

  /** Why the block must be serialized at once: the first block keeps its root but shows the second coinbase. */
  method LaterShareShowsThroughEarlierBlock(job: Job, hash: Hash, t: Template, first: string, second: string)
    returns (b1: Block, b2: Block)
    requires WellFormed(hash, t) && |job.coinbaseTransaction.script| >= 8 && IsHex8(job.ownerSessionId)
    requires |FromHex(first)| == 4
    modifies job.coinbaseTransaction
    ensures b1.coinbase == b2.coinbase == job.coinbaseTransaction
    ensures var before := old(job.coinbaseTransaction.Value());
      && b1.merkleRoot == RootWith(hash, before.(script := NextScript(before.script, job.ownerSessionId, first)), t.others)
      && b1.coinbase.Value() == before.(script := NextScript(before.script, job.ownerSessionId, second))
  {
    ShareCheckIsHistoryIndependent(job.coinbaseTransaction.script, [(job.ownerSessionId, first)], job.ownerSessionId, second);
    assert Replay(job.coinbaseTransaction.script, [(job.ownerSessionId, first)])
        == NextScript(job.coinbaseTransaction.script, job.ownerSessionId, first);
    b1 := job.CopyAndUpdateBlock(hash, t, 0, 0, job.ownerSessionId, first, t.timestamp);
    b2 := job.CopyAndUpdateBlock(hash, t, 0, 0, job.ownerSessionId, second, t.timestamp);
  }
}
