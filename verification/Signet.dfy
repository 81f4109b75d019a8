/** Signing a block for a signet (BIP 325) once a job, so that only the nonce may vary afterwards. */
module Signet {
  import opened Bytes
  import opened Script
  import opened Merkle
  import opened Coinbase
  import opened MiningJob

  const SIGNET_HEADER: seq<byte> := [0xec, 0xc7, 0xda, 0xa2]

  datatype SignError = MissingPrivateKey | MissingChallenge | ChallengeMismatch | MissingWitnessCommitment | CompactSizeOverflow

  /** `challenge` is absent when no key is configured; `sign` turns the signed data into an input script. */
  datatype Signer = Signer(enabled: bool, challenge: Option<seq<byte>>, sign: seq<byte> -> seq<byte>)

  datatype SignetBlock = SignetBlock(version: nat, prevHash: Digest, time: int, coinbase: CoinbaseTx, others: seq<RawTx>)

  // ---------- the signed data ----------

  function SignetData(version: nat, prevHash: Digest, root: Digest, time: int): (data: seq<byte>)
    requires 0 <= time
    ensures |data| == 72
  {
    Le(version, 4) + prevHash + root + Le(time, 4)
  }

  /** Where each field stands. */
  lemma SignetDataLayout(version: nat, prevHash: Digest, root: Digest, time: int)
    requires 0 <= time
    ensures var data := SignetData(version, prevHash, root, time);
      && data[4..36] == prevHash && data[36..68] == root
      && (version < 0x1_0000_0000 ==> LeValue(data[..4]) == version)
      && (time < 0x1_0000_0000 ==> LeValue(data[68..]) == time)
  {
    var a, d := Le(version, 4), Le(time, 4);
    var data := a + prevHash + root + d;
    assert data[..4] == a && data[68..] == d;
    Pow256Values();
    if version < 0x1_0000_0000 {
      LeRoundTrip(version, 4);
    }
    if time < 0x1_0000_0000 {
      LeRoundTrip(time, 4);
    }
  }

  /** The signed bytes are the header up to its time. */
  lemma SignetDataIsHeaderFront(version: nat, prevHash: Digest, root: Digest, time: int, bits: nat, nonce: int)
    requires 0 <= time && HeaderBytes(version, prevHash, root, time, bits, nonce).Some?
    ensures HeaderBytes(version, prevHash, root, time, bits, nonce).value[..72] == SignetData(version, prevHash, root, time)
  {
  }

  method SerializeSignetData(version: nat, prevHash: Digest, root: Digest, time: int) returns (data: seq<byte>)
    requires 0 <= time
    ensures data == SignetData(version, prevHash, root, time)
    ensures |data| == 72 && data[4..36] == prevHash && data[36..68] == root
    ensures version < 0x1_0000_0000 ==> LeValue(data[..4]) == version
    ensures time < 0x1_0000_0000 ==> LeValue(data[68..]) == time
  {
    SignetDataLayout(version, prevHash, root, time);
    var buffer := new byte[72](_ => 0);
    Set(buffer, Le(version, 4), 0);
    Set(buffer, prevHash, 4);
    Set(buffer, root, 36);
    Set(buffer, Le(time, 4), 68);
    data := buffer[..];
  }

  method SerializeCompactSize(value: nat) returns (r: Option<seq<byte>>)
    ensures r == if value <= 0xffffffff then Some(CompactSize(value)) else None
  {
    if value < 253 {
      return Some([value]);
    }
    if value <= 0xffff {
      var b := new byte[3](_ => 0);
      b[0] := 253;
      Set(b, Le(value, 2), 1);
      assert b[..] == [253] + Le(value, 2);
      return Some(b[..]);
    }
    if value <= 0xffffffff {
      var b := new byte[5](_ => 0);
      b[0] := 254;
      Set(b, Le(value, 4), 1);
      assert b[..] == [254] + Le(value, 4);
      return Some(b[..]);
    }
    r := None;
  }

  // ---------- finding the commitment ----------

  function FirstLongPush(ops: seq<Op>): Option<seq<byte>> {
    if ops == [] then None
    else if ops[0].Push? && |ops[0].data| >= 36 then Some(ops[0].data)
    else FirstLongPush(ops[1..])
  }

  /** The pool's test: an OP_RETURN whose first long push starts with the magic bytes. */
  predicate IsCommitment(script: seq<byte>) {
    match Parse(script)
    case None => false
    case Some(ops) =>
      && |ops| >= 2 && ops[0] == Code(OP_RETURN)
      && FirstLongPush(ops).Some? && SEGWIT_MAGIC <= FirstLongPush(ops).value
  }

  ghost predicate IsFirstLongPush(ops: seq<Op>, i: nat) {
    && i < |ops| && ops[i].Push? && |ops[i].data| >= 36
    && forall j :: 0 <= j < i ==> !(ops[j].Push? && |ops[j].data| >= 36)
  }

  lemma {:induction false} FirstLongPushIs(ops: seq<Op>)
    ensures FirstLongPush(ops).None? <==> forall i :: 0 <= i < |ops| ==> !(ops[i].Push? && |ops[i].data| >= 36)
    ensures forall i: nat :: IsFirstLongPush(ops, i) ==> FirstLongPush(ops) == Some(ops[i].data)
  {
    if ops != [] {
      FirstLongPushIs(ops[1..]);
      forall i: nat | IsFirstLongPush(ops, i) ensures FirstLongPush(ops) == Some(ops[i].data) {
        if i > 0 {
          assert !(ops[0].Push? && |ops[0].data| >= 36);
          forall j | 0 <= j < i - 1 ensures !(ops[1..][j].Push? && |ops[1..][j].data| >= 36) {
            assert ops[1..][j] == ops[j + 1];
          }
          assert IsFirstLongPush(ops[1..], i - 1);
        }
      }
      assert forall i :: 0 <= i < |ops| - 1 ==> ops[1..][i] == ops[i + 1];
    }
  }

  /** A commitment is an OP_RETURN script whose first push of 36 bytes or more starts with aa 21 a9 ed. */
  lemma CommitmentIff(script: seq<byte>, ops: seq<Op>, i: nat)
    requires Parse(script) == Some(ops) && IsFirstLongPush(ops, i)
    ensures IsCommitment(script) <==> ops[0] == Code(0x6a) && |ops| >= 2 && ops[i].data[..4] == [0xaa, 0x21, 0xa9, 0xed]
  {
    FirstLongPushIs(ops);
    assert |SEGWIT_MAGIC| == 4;
  }

  /** And a script without such a push is none. */
  lemma NoLongPushNoCommitment(script: seq<byte>)
    requires Parse(script).None? || forall i :: 0 <= i < |Parse(script).value| ==>
      !(Parse(script).value[i].Push? && |Parse(script).value[i].data| >= 36)
    ensures !IsCommitment(script)
  {
    if Parse(script).Some? {
      FirstLongPushIs(Parse(script).value);
    }
  }

  method FindWitnessCommitmentOutputIndex(outs: seq<Output>) returns (index: int)
    ensures index == -1 || 0 <= index < |outs|
    ensures index == -1 ==> forall i :: 0 <= i < |outs| ==> !IsCommitment(outs[i].script)
    ensures index >= 0 ==> IsCommitment(outs[index].script)
    ensures index >= 0 ==> forall i :: 0 <= i < index ==> !IsCommitment(outs[i].script)
  {
    index := 0;
    while index < |outs|
      invariant 0 <= index <= |outs|
      invariant forall i :: 0 <= i < index ==> !IsCommitment(outs[i].script)
    {
      if IsCommitment(outs[index].script) {
        return;
      }
      index := index + 1;
    }
    index := -1;
  }

  /** The pattern of BIP 141, "Commitment structure"; among several outputs the last one counts. */
  predicate IsBip141Commitment(script: seq<byte>) {
    |script| >= 38 && [OP_RETURN, 0x24] + SEGWIT_MAGIC == script[..6]
  }

  function Bip141Index(outs: seq<Output>): (index: int)
    ensures -1 <= index < |outs|
    ensures index >= 0 ==> IsBip141Commitment(outs[index].script)
    ensures forall i :: index < i < |outs| ==> !IsBip141Commitment(outs[i].script)
  {
    if outs == [] then -1
    else if IsBip141Commitment(outs[|outs| - 1].script) then |outs| - 1
    else Bip141Index(outs[..|outs| - 1])
  }

  // ---------- a verifier's reading of a signed block ----------

  /** The first push that holds the header and more: its solution, and the script with the push cut to the header. */
  function FetchAndClear(ops: seq<Op>): Option<(seq<byte>, seq<Op>)> {
    if ops == [] then None
    else if ops[0].Push? && |ops[0].data| > 4 && ops[0].data[..4] == SIGNET_HEADER then
      Some((ops[0].data[4..], [Push(SIGNET_HEADER)] + ops[1..]))
    else
      match FetchAndClear(ops[1..])
      case None => None
      case Some((solution, rest)) => Some((solution, [ops[0]] + rest))
  }

  function StripSolution(script: seq<byte>): Option<(seq<byte>, seq<byte>)> {
    match Parse(script)
    case None => None
    case Some(ops) =>
      match FetchAndClear(ops)
      case None => None
      case Some((solution, cleared)) => Some((solution, Encode(cleared)))
  }

  /** A length-prefixed input script followed by an empty witness stack, and nothing else. */
  function ParseSolution(solution: seq<byte>): Option<seq<byte>> {
    match ReadCompactSize(solution)
    case None => None
    case Some((len, width)) =>
      if |solution| == width + len + 1 && solution[width + len] == 0 then Some(solution[width..width + len]) else None
  }

  /** What a BIP 325 verifier checks: the 72 bytes it rebuilds and the input script it runs on them. */
  function VerifierView(hash: Hash, b: SignetBlock): Option<(seq<byte>, seq<byte>)> {
    var index := Bip141Index(b.coinbase.outs);
    if index < 0 || b.time < 0 then None
    else
      match StripSolution(b.coinbase.outs[index].script)
      case None => None
      case Some((solution, cleared)) =>
        var stripped := WithOutScript(b.coinbase, index, cleared);
        match ParseSolution(solution)
        case None => None
        case Some(inputScript) =>
          Some((SignetData(b.version, b.prevHash, RootWith(hash, stripped, b.others), b.time), inputScript))
  }

  function WithOutScript(tx: CoinbaseTx, index: nat, script: seq<byte>): CoinbaseTx
    requires index < |tx.outs|
  {
    tx.(outs := tx.outs[index := tx.outs[index].(script := script)])
  }

  // ---------- the round trip of a solution ----------

  /** Operations a solution may be appended to: canonical, and none that a verifier would take for a solution. */
  ghost predicate Unsigned(ops: seq<Op>) {
    forall i :: 0 <= i < |ops| ==> Canonical(ops[i]) && (ops[i].Push? && |ops[i].data| > 4 ==> ops[i].data[..4] != SIGNET_HEADER)
  }

  lemma {:induction false} FetchAndClearLast(ops: seq<Op>, solution: seq<byte>)
    requires Unsigned(ops) && solution != []
    ensures FetchAndClear(ops + [Push(SIGNET_HEADER + solution)]) == Some((solution, ops + [Push(SIGNET_HEADER)]))
  {
    var last := Push(SIGNET_HEADER + solution);
    if ops == [] {
      assert ops + [last] == [last];
      assert last.data[..4] == SIGNET_HEADER && last.data[4..] == solution;
      assert [Push(SIGNET_HEADER)] + [last][1..] == ops + [Push(SIGNET_HEADER)];
    } else {
      FetchAndClearLast(ops[1..], solution);
      assert (ops + [last])[1..] == ops[1..] + [last];
      assert [ops[0]] + (ops[1..] + [Push(SIGNET_HEADER)]) == ops + [Push(SIGNET_HEADER)];
    }
  }

  lemma EncodeOne(op: Op)
    ensures Encode([op]) == EncodeOp(op)
  {
    assert Encode([op][1..]) == [];
  }

  /** Stripping an appended solution gives it back, and leaves exactly the script that was signed. */
  lemma SolutionRoundTrip(ops: seq<Op>, solution: seq<byte>)
    requires Unsigned(ops) && 0 < |solution| <= 0xffffffff - 4
    ensures StripSolution(Encode(ops) + CompilePush(SIGNET_HEADER + solution))
            == Some((solution, Encode(ops) + CompilePush(SIGNET_HEADER)))
  {
    var last := Push(SIGNET_HEADER + solution);
    EncodeOne(last);
    EncodeOne(Push(SIGNET_HEADER));
    EncodeConcat(ops, [last]);
    EncodeConcat(ops, [Push(SIGNET_HEADER)]);
    var all := ops + [last];
    ParseOfEncode(all, []);
    assert Encode(all) + [] == Encode(all);
    assert all + [] == all;
    FetchAndClearLast(ops, solution);
  }

  function Solution(inputScript: seq<byte>): seq<byte> {
    CompactSize(|inputScript|) + inputScript + [0]
  }

  lemma ParseSolutionRoundTrip(inputScript: seq<byte>)
    requires |inputScript| <= 0xffffffff
    ensures ParseSolution(Solution(inputScript)) == Some(inputScript)
  {
    ReadCompactSizeRoundTrip(|inputScript|, inputScript + [0]);
    ThreeStrings(CompactSize(|inputScript|), inputScript, [0]);
    var width := |CompactSize(|inputScript|)|;
    assert Solution(inputScript)[width..width + |inputScript|] == inputScript;
  }

  // ---------- signing ----------

  function AppendPushData(script: seq<byte>, data: seq<byte>): seq<byte> {
    script + CompilePush(data)
  }

  /** The 72 bytes that are signed: the coinbase carries the bare header where the solution will go. */
  function DataToSign(hash: Hash, b: SignetBlock, index: nat): seq<byte>
    requires index < |b.coinbase.outs| && 0 <= b.time
  {
    var withHeader := WithOutScript(b.coinbase, index, AppendPushData(b.coinbase.outs[index].script, SIGNET_HEADER));
    SignetData(b.version, b.prevHash, RootWith(hash, withHeader, b.others), b.time)
  }

  /** What is signed of a block: its own version, previous hash and time, and the root over its coinbase with the four
      header bytes pushed at the end of the commitment. */
  lemma DataToSignNames(hash: Hash, b: SignetBlock, index: nat)
    requires index < |b.coinbase.outs| && 0 <= b.time < 0x1_0000_0000 && b.version < 0x1_0000_0000
    ensures var data := DataToSign(hash, b, index);
      var pushed := WithOutScript(b.coinbase, index, b.coinbase.outs[index].script + [0x04, 0xec, 0xc7, 0xda, 0xa2]);
      && |data| == 72 && LeValue(data[..4]) == b.version && data[4..36] == b.prevHash
      && data[36..68] == RootWith(hash, pushed, b.others) && LeValue(data[68..]) == b.time
  {
    var pushed := WithOutScript(b.coinbase, index, AppendPushData(b.coinbase.outs[index].script, SIGNET_HEADER));
    assert CompilePush(SIGNET_HEADER) == [0x04, 0xec, 0xc7, 0xda, 0xa2];
    SignetDataLayout(b.version, b.prevHash, RootWith(hash, pushed, b.others), b.time);
  }

  function SignedCoinbase(b: SignetBlock, index: nat, inputScript: seq<byte>): CoinbaseTx
    requires index < |b.coinbase.outs|
  {
    WithOutScript(b.coinbase, index,
      AppendPushData(b.coinbase.outs[index].script, SIGNET_HEADER + Solution(inputScript)))
  }

  /** The template's challenge is that of the configured key. */
  predicate SameChallenge(signer: Signer, challenge: Option<string>) {
    && signer.challenge.Some? && challenge.Some? && challenge.value != ""
    && ToLower(challenge.value) == ToHex(signer.challenge.value)
  }

  ghost predicate HasCommitment(outs: seq<Output>) {
    exists i :: 0 <= i < |outs| && IsCommitment(outs[i].script)
  }

  method SignBlock(hash: Hash, signer: Signer, b: SignetBlock, challenge: Option<string>)
    returns (r: Result<SignetBlock, SignError>, ghost index: int)
    requires 0 <= b.time < 0x1_0000_0000
    ensures !signer.enabled ==> r == Ok(b)
    ensures r == Err(MissingPrivateKey) <==> signer.enabled && signer.challenge.None?
    ensures r == Err(MissingChallenge) <==> signer.enabled && signer.challenge.Some? && (challenge.None? || challenge.value == "")
    ensures r == Err(ChallengeMismatch) <==>
      signer.enabled && signer.challenge.Some? && challenge.Some? && challenge.value != "" && !SameChallenge(signer, challenge)
    ensures signer.enabled && signer.challenge.Some? && challenge.Some? && challenge.value != "" ==>
      (r == Err(ChallengeMismatch) <==> ToLower(challenge.value) != ToHex(signer.challenge.value))
    ensures r == Err(MissingWitnessCommitment) <==>
      signer.enabled && SameChallenge(signer, challenge) && !HasCommitment(b.coinbase.outs)
    ensures r == Err(CompactSizeOverflow) ==>
      && signer.enabled && SameChallenge(signer, challenge) && 0 <= index < |b.coinbase.outs|
      && |signer.sign(DataToSign(hash, b, index))| > 0xffffffff
    ensures signer.enabled ==>
      (r.Ok? || r == Err(CompactSizeOverflow) <==> SameChallenge(signer, challenge) && HasCommitment(b.coinbase.outs))
    ensures signer.enabled && r.Ok? ==>
      && SameChallenge(signer, challenge)
      && 0 <= index < |b.coinbase.outs| && IsCommitment(b.coinbase.outs[index].script)
      && (forall i :: 0 <= i < index ==> !IsCommitment(b.coinbase.outs[i].script))
      && var inputScript := signer.sign(DataToSign(hash, b, index));
      && |inputScript| <= 0xffffffff
      && r.value == b.(coinbase := SignedCoinbase(b, index, inputScript))
  {
    index := -1;
    if !signer.enabled {
      return Ok(b), -1;
    }
    if signer.challenge.None? {
      return Err(MissingPrivateKey), -1;
    }
    if challenge.None? || challenge.value == "" {
      return Err(MissingChallenge), -1;
    }
    if ToLower(challenge.value) != ToHex(signer.challenge.value) {
      return Err(ChallengeMismatch), -1;
    }
    var at := FindWitnessCommitmentOutputIndex(b.coinbase.outs);
    index := at;
    if at < 0 {
      return Err(MissingWitnessCommitment), -1;
    }
    var script := b.coinbase.outs[at].script;
    var withHeader := WithOutScript(b.coinbase, at, AppendPushData(script, SIGNET_HEADER));
    var data := SerializeSignetData(b.version, b.prevHash, RootWith(hash, withHeader, b.others), b.time);
    var inputScript := signer.sign(data);
    var len := SerializeCompactSize(|inputScript|);
    if len.None? {
      return Err(CompactSizeOverflow), at;
    }
    var solution := len.value + inputScript + [0];
    r := Ok(b.(coinbase := WithOutScript(b.coinbase, at, AppendPushData(script, SIGNET_HEADER + solution))));
  }

  // ---------- a job's outputs have one commitment, the last output ----------

  function CommitmentOps(commit: Digest): seq<Op> {
    [Code(OP_RETURN), Push(SEGWIT_MAGIC + commit)]
  }

  lemma ParseReturnOutput(data: seq<byte>)
    requires |data| >= 2 && |data| <= 0xffffffff
    ensures ReturnOutput(data).script == Encode([Code(OP_RETURN), Push(data)])
    ensures Parse(ReturnOutput(data).script) == Some([Code(OP_RETURN), Push(data)])
  {
    var ops := [Code(OP_RETURN), Push(data)];
    EncodeOne(ops[1]);
    assert ops[1..] == [Push(data)];
    ParseOfEncode(ops, []);
    assert Encode(ops) + [] == Encode(ops);
    assert ops + [] == ops;
  }

  lemma ReturnOutputIsCommitment(data: seq<byte>)
    requires 36 <= |data| <= 0xffffffff
    ensures IsCommitment(ReturnOutput(data).script) <==> SEGWIT_MAGIC <= data
  {
    ParseReturnOutput(data);
    var ops := [Code(OP_RETURN), Push(data)];
    assert ops[1..][0] == Push(data);
    assert FirstLongPush(ops) == FirstLongPush(ops[1..]);
  }

  /** Payout scripts are not OP_RETURN scripts. */
  ghost predicate Spendable(outs: seq<Output>) {
    forall i :: 0 <= i < |outs| ==> |outs[i].script| > 0 && outs[i].script[0] != OP_RETURN
  }

  lemma NoReturnNoCommitment(script: seq<byte>)
    requires script == [] || script[0] != OP_RETURN
    ensures !IsCommitment(script) && !IsBip141Commitment(script)
  {
  }

  lemma MessageIsNotBip141(message: seq<byte>)
    requires 0 < |message| <= 0xffff && !(0x80 <= message[0] < 0xc0)
    ensures !IsBip141Commitment(ReturnOutput(message).script)
  {
    var script := ReturnOutput(message).script;
    if |script| >= 38 {
      assert script[1..] == EncodePush(message);
      assert script[..6][2] == script[2] && script[..6][1] == script[1];
    }
  }

  lemma MediumMessageIsNoCommitment(message: seq<byte>)
    requires 2 <= |message| < 36
    ensures !IsCommitment(ReturnOutput(message).script)
  {
    ParseReturnOutput(message);
    NoLongPush(Push(message));
  }

  lemma NoLongPush(op: Op)
    requires op.Push? ==> |op.data| < 36
    ensures FirstLongPush([Code(OP_RETURN), op]) == None
  {
    var ops := [Code(OP_RETURN), op];
    assert ops[1..] == [op] && [op][1..] == [];
    assert FirstLongPush([op]) == FirstLongPush([op][1..]);
    assert FirstLongPush(ops) == FirstLongPush(ops[1..]);
  }

  /** The bootstrap message is text, so it is never taken for a commitment. */
  lemma MessageIsNoCommitment(message: seq<byte>)
    requires 0 < |message| <= 0xffff && !(0x80 <= message[0] < 0xc0)
    ensures !IsCommitment(ReturnOutput(message).script)
    ensures !IsBip141Commitment(ReturnOutput(message).script)
  {
    MessageIsNotBip141(message);
    if |message| >= 36 {
      ReturnOutputIsCommitment(message);
    } else if |message| >= 2 {
      MediumMessageIsNoCommitment(message);
    } else {
      ShortMessageParse(message);
    }
  }

  lemma ShortMessageParse(message: seq<byte>)
    requires |message| == 1
    ensures var p := Parse(ReturnOutput(message).script);
      p.Some? && FirstLongPush(p.value).None?
  {
    var op := if 1 <= message[0] <= 16 then Code(0x50 + message[0])
              else if message == [0x81] then Code(0x4f) else Push(message);
    var ops := [Code(OP_RETURN), op];
    EncodeOne(op);
    assert ops[1..] == [op];
    ParseOfEncode(ops, []);
    assert Encode(ops) + [] == Encode(ops);
    assert ops + [] == ops;
    assert Encode(ops) == ReturnOutput(message).script;
    assert FirstLongPush(ops) == FirstLongPush([op]);
    assert FirstLongPush([op]) == FirstLongPush([op][1..]);
  }

  /** UTF-8 text never starts with a continuation byte. */
  ghost predicate TextMessage(config: JobConfig) {
    config.bootstrap.Some? ==>
      var message := config.bootstrap.value.message;
      |message| <= 0xffff && (message != [] ==> !(0x80 <= message[0] < 0xc0))
  }

  ghost predicate CarriesCommitment(config: JobConfig, t: Template) {
    config.enableSegwit && t.witnessCommit.Some?
  }

  /** Payouts and a bootstrap message are never taken for a commitment. */
  lemma FrontIsNoCommitment(config: JobConfig, t: Template, payouts: seq<Output>)
    requires TextMessage(config) && Spendable(payouts)
    ensures !HasCommitment(payouts + MessageOutputs(config, t))
  {
    var front := payouts + MessageOutputs(config, t);
    forall i | 0 <= i < |front| ensures !IsCommitment(front[i].script) {
      if i < |payouts| {
        NoReturnNoCommitment(front[i].script);
      } else {
        MessageIsNoCommitment(config.bootstrap.value.message);
      }
    }
  }

  lemma OwnCommitment(commit: Digest)
    ensures var script := ReturnOutput(SEGWIT_MAGIC + commit).script;
      && script == Encode(CommitmentOps(commit)) && IsCommitment(script) && IsBip141Commitment(script)
      && script == [0x6a, 0x24, 0xaa, 0x21, 0xa9, 0xed] + commit
  {
    ParseReturnOutput(SEGWIT_MAGIC + commit);
    ReturnOutputIsCommitment(SEGWIT_MAGIC + commit);
    CommitmentScript(commit);
    LiteralIsBip141(commit);
  }

  lemma LiteralIsBip141(commit: Digest)
    ensures IsBip141Commitment([0x6a, 0x24, 0xaa, 0x21, 0xa9, 0xed] + commit)
  {
  }

  /** The pool's first match and BIP 141's last match are one output of a job's coinbase. */
  lemma JobCommitmentIsUnique(config: JobConfig, t: Template, payouts: seq<Output>)
    requires CarriesCommitment(config, t) && TextMessage(config) && Spendable(payouts)
    ensures var outs := payouts + ExtraOutputs(config, t);
      && |outs| >= 1
      && outs[|outs| - 1].script == Encode(CommitmentOps(t.witnessCommit.value))
      && IsCommitment(outs[|outs| - 1].script)
      && Bip141Index(outs) == |outs| - 1
      && (forall i :: 0 <= i < |outs| - 1 ==> !IsCommitment(outs[i].script))
  {
    var outs, front := payouts + ExtraOutputs(config, t), payouts + MessageOutputs(config, t);
    FrontIsNoCommitment(config, t, payouts);
    OwnCommitment(t.witnessCommit.value);
    assert outs == front + [ReturnOutput(SEGWIT_MAGIC + t.witnessCommit.value)];
    forall i | 0 <= i < |outs| - 1 ensures !IsCommitment(outs[i].script) {
      assert outs[i] == front[i];
    }
  }

  /** Without a commitment of its own a job's coinbase shows the pool none. */
  lemma NoStrayCommitment(config: JobConfig, t: Template, payouts: seq<Output>)
    requires TextMessage(config) && !CarriesCommitment(config, t) && Spendable(payouts)
    ensures !HasCommitment(payouts + ExtraOutputs(config, t))
  {
    FrontIsNoCommitment(config, t, payouts);
    assert ExtraOutputs(config, t) == MessageOutputs(config, t);
  }

  // ---------- the signed block verifies ----------

  lemma {:induction false} Bip141IndexStays(outs: seq<Output>, index: nat, script: seq<byte>)
    requires index < |outs| && Bip141Index(outs) == index && IsBip141Commitment(script)
    ensures Bip141Index(outs[index := outs[index].(script := script)]) == index
  {
    var n := |outs| - 1;
    var changed := outs[index := outs[index].(script := script)];
    if index < n {
      Bip141IndexStays(outs[..n], index, script);
      assert changed[..n] == outs[..n][index := outs[index].(script := script)];
    }
  }

  lemma WithOutScriptTwice(tx: CoinbaseTx, index: nat, first: seq<byte>, second: seq<byte>)
    requires index < |tx.outs|
    ensures WithOutScript(WithOutScript(tx, index, first), index, second) == WithOutScript(tx, index, second)
  {
  }

  lemma LongerStaysCommitment(script: seq<byte>, more: seq<byte>)
    requires IsBip141Commitment(script)
    ensures IsBip141Commitment(script + more)
  {
    assert (script + more)[..6] == script[..6];
  }

  /** A verifier rebuilds exactly the bytes that were signed, and runs the signature made for them. */
  lemma SignedBlockVerifies(hash: Hash, b: SignetBlock, index: nat, ops: seq<Op>, inputScript: seq<byte>)
    requires 0 <= b.time && Bip141Index(b.coinbase.outs) == index
    requires b.coinbase.outs[index].script == Encode(ops) && Unsigned(ops)
    requires |inputScript| <= 0xffffffff - 10
    ensures VerifierView(hash, b.(coinbase := SignedCoinbase(b, index, inputScript)))
            == Some((DataToSign(hash, b, index), inputScript))
  {
    var script := b.coinbase.outs[index].script;
    var final := AppendPushData(script, SIGNET_HEADER + Solution(inputScript));
    LongerStaysCommitment(script, CompilePush(SIGNET_HEADER + Solution(inputScript)));
    Bip141IndexStays(b.coinbase.outs, index, final);
    SolutionRoundTrip(ops, Solution(inputScript));
    ParseSolutionRoundTrip(inputScript);
    WithOutScriptTwice(b.coinbase, index, final, AppendPushData(script, SIGNET_HEADER));
  }

  // ---------- the lock ----------

  function BlockOf(t: Template, version: nat, time: int, coinbase: CoinbaseTx): SignetBlock {
    SignetBlock(version, t.prevHash, time, coinbase, t.others)
  }

  /** A coinbase that carries a solution for `data`, with its extranonces already in place. */
  ghost predicate LockedCoinbase(hash: Hash, t: Template, sign: seq<byte> -> seq<byte>, data: seq<byte>,
                                 owner: string, extraNonce2: string, tx: CoinbaseTx) {
    && IsHex8(owner) && IsHex8(extraNonce2) && ToLower(extraNonce2) == extraNonce2
    && Distinctive(tx.script) && NextScript(tx.script, owner, extraNonce2) == tx.script
    && VerifierView(hash, BlockOf(t, t.version, t.timestamp, tx)) == Some((data, sign(data)))
  }

  ghost predicate LockedTo(job: Job, hash: Hash, t: Template, sign: seq<byte> -> seq<byte>, data: seq<byte>)
    reads job, job.coinbaseTransaction
  {
    && job.Valid() && job.signetLocked && job.lockedNtime == t.timestamp && job.lockedVersionMask == 0
    && LockedCoinbase(hash, t, sign, data, job.ownerSessionId, job.lockedExtraNonce2, job.coinbaseTransaction.Value())
  }

  lemma ExtranonceCaseIsIrrelevant(script: seq<byte>, owner: string, locked: string, submitted: string)
    requires |script| >= 8 && IsHex8(owner) && IsHex8(locked)
    requires locked == ToLower(submitted)
    ensures NextScript(script, owner, submitted) == NextScript(script, owner, locked)
    ensures IsHex8(submitted)
  {
    IsHexIgnoresCase(submitted);
    FromHexIgnoresCase(submitted);
    ExtranoncesDecode(owner, submitted);
    ExtranoncesDecode(owner, locked);
    NextScriptIs(script, owner, submitted);
    NextScriptIs(script, owner, locked);
  }

  /** A script with its extranonces in place is a fixed point of writing them again, in either case. */
  lemma ExtranonceFixedPoint(start: seq<byte>, owner: string, extraNonce2: string)
    requires Distinctive(start) && IsHex8(owner) && IsHex8(extraNonce2)
    ensures var script := NextScript(start, owner, extraNonce2);
      && Distinctive(script)
      && NextScript(script, owner, ToLower(extraNonce2)) == script
      && IsHex8(ToLower(extraNonce2)) && ToLower(ToLower(extraNonce2)) == ToLower(extraNonce2)
  {
    ExtranoncesDecode(owner, extraNonce2);
    NextScriptStaysDistinctive(start, owner, extraNonce2);
    IsHexIgnoresCase(extraNonce2);
    var script := NextScript(start, owner, extraNonce2);
    ExtranonceCaseIsIrrelevant(script, owner, ToLower(extraNonce2), extraNonce2);
    NextScriptIs(start, owner, extraNonce2);
    NextScriptIs(script, owner, extraNonce2);
    assert script[..|script| - 8] == start[..|start| - 8];
  }

  /** The output the search finds is the one a verifier will look at. */
  lemma FoundOwnCommitment(config: JobConfig, t: Template, payouts: seq<Output>, index: nat)
    requires CarriesCommitment(config, t) && TextMessage(config) && Spendable(payouts)
    requires var outs := payouts + ExtraOutputs(config, t);
      && index < |outs| && IsCommitment(outs[index].script)
      && forall i :: 0 <= i < index ==> !IsCommitment(outs[i].script)
    ensures var outs := payouts + ExtraOutputs(config, t);
      Bip141Index(outs) == index && outs[index].script == Encode(CommitmentOps(t.witnessCommit.value))
    ensures Unsigned(CommitmentOps(t.witnessCommit.value))
  {
    JobCommitmentIsUnique(config, t, payouts);
  }

  /** Signing a job's block at the output the search finds yields a coinbase locked to the signed bytes. */
  lemma SigningLocks(hash: Hash, config: JobConfig, t: Template, payouts: seq<Output>, sign: seq<byte> -> seq<byte>,
                     start: seq<byte>, owner: string, extraNonce2: string, b: SignetBlock, index: nat)
    requires CarriesCommitment(config, t) && TextMessage(config) && Spendable(payouts) && 0 <= t.timestamp
    requires Distinctive(start) && IsHex8(owner) && IsHex8(extraNonce2)
    requires var script := NextScript(start, owner, extraNonce2);
      b == BlockOf(t, t.version, t.timestamp, CoinbaseTx(script, payouts + ExtraOutputs(config, t), WitnessStack(config)))
    requires index < |b.coinbase.outs| && IsCommitment(b.coinbase.outs[index].script)
    requires forall i :: 0 <= i < index ==> !IsCommitment(b.coinbase.outs[i].script)
    requires |sign(DataToSign(hash, b, index))| <= 0xffffffff - 10
    ensures var data := DataToSign(hash, b, index);
      LockedCoinbase(hash, t, sign, data, owner, ToLower(extraNonce2), SignedCoinbase(b, index, sign(data)))
  {
    FoundOwnCommitment(config, t, payouts, index);
    SignedBlockVerifies(hash, b, index, CommitmentOps(t.witnessCommit.value), sign(DataToSign(hash, b, index)));
    ExtranonceFixedPoint(start, owner, extraNonce2);
  }

  /** The block that is signed for a job: its coinbase as built, with the extranonces in place. */
  function BlockToSign(config: JobConfig, t: Template, payouts: seq<Output>, owner: string, extraNonce2: string): SignetBlock
    requires t.height <= 0x7fffffff
  {
    var full := FullCoinbase(config, t, KeptIdentifier(config, t, payouts), payouts);
    BlockOf(t, t.version, t.timestamp, full.(script := NextScript(full.script, owner, extraNonce2)))
  }

  lemma JobBlockLocks(hash: Hash, config: JobConfig, t: Template, payouts: seq<Output>, sign: seq<byte> -> seq<byte>,
                      owner: string, extraNonce2: string, b: SignetBlock, index: nat)
    requires CarriesCommitment(config, t) && TextMessage(config) && Spendable(payouts) && t.height <= 0x7fffffff && 0 <= t.timestamp
    requires IsHex8(owner) && IsHex8(extraNonce2)
    requires Searchable(config, t, payouts)
    requires b == BlockToSign(config, t, payouts, owner, extraNonce2)
    requires index < |b.coinbase.outs| && IsCommitment(b.coinbase.outs[index].script)
    requires forall i :: 0 <= i < index ==> !IsCommitment(b.coinbase.outs[i].script)
    requires |sign(DataToSign(hash, b, index))| <= 0xffffffff - 10
    ensures var data := DataToSign(hash, b, index);
      LockedCoinbase(hash, t, sign, data, owner, ToLower(extraNonce2), SignedCoinbase(b, index, sign(data)))
  {
    var kept := KeptIdentifier(config, t, payouts);
    InputScriptDistinctiveIff(t.height, kept);
    SigningLocks(hash, config, t, payouts, sign, InputScript(t.height, kept), owner, extraNonce2, b, index);
  }

  lemma OnlyOwnCommitment(config: JobConfig, t: Template, payouts: seq<Output>)
    requires TextMessage(config) && Spendable(payouts)
    ensures HasCommitment(payouts + ExtraOutputs(config, t)) <==> CarriesCommitment(config, t)
  {
    if CarriesCommitment(config, t) {
      JobCommitmentIsUnique(config, t, payouts);
    } else {
      NoStrayCommitment(config, t, payouts);
    }
  }

  /** Signing succeeds exactly with the right key and a commitment to sign at, and what it returns is locked. */
  method SignJobBlock(hash: Hash, signer: Signer, t: Template, ghost config: JobConfig, ghost payouts: seq<Output>,
                      ghost owner: string, ghost extraNonce2: string, b: SignetBlock)
    returns (r: Result<SignetBlock, SignError>, ghost data: seq<byte>)
    requires signer.enabled && t.height <= 0x7fffffff && 0 <= t.timestamp < 0x1_0000_0000
    requires TextMessage(config) && Spendable(payouts) && IsHex8(owner) && IsHex8(extraNonce2)
    requires Searchable(config, t, payouts)
    requires b == BlockToSign(config, t, payouts, owner, extraNonce2)
    requires forall d: seq<byte> :: |signer.sign(d)| <= 0xffffffff - 10
    ensures r.Ok? <==> SameChallenge(signer, t.signetChallenge) && CarriesCommitment(config, t)
    ensures r.Ok? ==> LockedCoinbase(hash, t, signer.sign, data, owner, ToLower(extraNonce2), r.value.coinbase)
  {
    ghost var index;
    r, index := SignBlock(hash, signer, b, t.signetChallenge);
    data := [];
    assert HasCommitment(b.coinbase.outs) <==> CarriesCommitment(config, t) by {
      OnlyOwnCommitment(config, t, payouts);
    }
    if r.Ok? {
      data := DataToSign(hash, b, index);
      JobBlockLocks(hash, config, t, payouts, signer.sign, owner, extraNonce2, b, index);
    }
  }

  /** Signs a fresh job once, with the extranonce, time and mask that submissions will have to repeat. */
  method PrepareSignetLockedJob(hash: Hash, signer: Signer, job: Job, t: Template, config: JobConfig,
                                ghost payouts: seq<Output>, extraNonce2: string)
    returns (r: Result<(), SignError>, ghost data: seq<byte>)
    requires WellFormed(hash, t) && 0 <= t.timestamp < 0x1_0000_0000
    requires TextMessage(config) && Spendable(payouts)
    requires Searchable(config, t, payouts)
    requires job.coinbaseTransaction.Value() == FullCoinbase(config, t, KeptIdentifier(config, t, payouts), payouts)
    requires job.Valid() && IsHex8(job.ownerSessionId) && IsHex8(extraNonce2) && !job.signetLocked
    requires forall d: seq<byte> :: |signer.sign(d)| <= 0xffffffff - 10
    modifies job, job.coinbaseTransaction
    ensures r.Ok? <==> !signer.enabled || (SameChallenge(signer, t.signetChallenge) && CarriesCommitment(config, t))
    ensures r.Err? ==> !job.signetLocked
    ensures r.Ok? && !signer.enabled ==> !job.signetLocked && job.Valid()
    ensures r.Ok? && signer.enabled ==> LockedTo(job, hash, t, signer.sign, data)
    ensures r.Ok? && signer.enabled ==> job.lockedExtraNonce2 == ToLower(extraNonce2)
  {
    data := [];
    if !signer.enabled {
      return Ok(()), [];
    }
    var b := job.CopyAndUpdateBlock(hash, t, 0, 0, job.ownerSessionId, extraNonce2, t.timestamp);
    var unsigned := BlockOf(t, b.version, b.timestamp, job.coinbaseTransaction.Value());
    var signed;
    signed, data := SignJobBlock(hash, signer, t, config, payouts, job.ownerSessionId, extraNonce2, unsigned);
    if signed.Err? {
      return Err(signed.error), [];
    }
    job.ApplySignedCoinbase(signed.value.coinbase, extraNonce2, t.timestamp, 0);
    r := Ok(());
  }

  /** The share check of a job: when it is locked to signed data it stays so, and whatever the nonce, the rebuilt block is
      the one that was signed. */
  method RebuildLockedShare(job: Job, hash: Hash, t: Template, ghost sign: seq<byte> -> seq<byte>, ghost data: seq<byte>,
                            versionMask: int, nonce: int, extraNonce2: string, ntime: int)
    returns (b: Option<Block>)
    requires WellFormed(hash, t)
    modifies job.coinbaseTransaction
    ensures old(LockedTo(job, hash, t, sign, data)) ==> LockedTo(job, hash, t, sign, data)
    ensures b.Some? <==> job.MatchesLockedSubmission(extraNonce2, ntime, versionMask)
    ensures b.Some? ==>
      && b.value.coinbase == job.coinbaseTransaction && b.value.nonce == nonce
      && b.value.merkleRoot == RootWith(hash, b.value.coinbase.Value(), t.others)
    ensures old(LockedTo(job, hash, t, sign, data)) && b.Some? ==>
      VerifierView(hash, SignetBlock(b.value.version, b.value.prevHash, b.value.timestamp,
                                        b.value.coinbase.Value(), b.value.others)) == Some((data, sign(data)))
  {
    if !job.MatchesLockedSubmission(extraNonce2, ntime, versionMask) {
      return None;
    }
    if LockedTo(job, hash, t, sign, data) {
      ExtranonceCaseIsIrrelevant(job.coinbaseTransaction.script, job.ownerSessionId, job.lockedExtraNonce2, extraNonce2);
      ExtranoncesDecode(job.ownerSessionId, extraNonce2);
    }
    var block := job.CopyAndUpdateBlock(hash, t, versionMask, nonce, job.ownerSessionId, extraNonce2, ntime);
    b := Some(block);
  }
}
