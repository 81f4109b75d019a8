/** The header of a submission: what of its texts reaches it, and what it tells of them. */
module ShareHeader {
  import opened Bytes
  import S = Script
  import opened Coinbase
  import opened Merkle
  import opened MiningJob
  import opened StratumClient

  /** The header of a submission over a coinbase that carries its extranonces. */
  function PoolHeader(hash: Hash, t: Template, tx: CoinbaseTx, sub: Submission): Option<seq<byte>> {
    HeaderBytes(ApplyMask(t.version, ParseHexInt(sub.versionMask)), t.prevHash, RootWith(hash, tx, t.others),
      ParseHexInt(sub.ntime), t.bits, ParseHexInt(sub.nonce))
  }

  function WithExtranonces(tx: CoinbaseTx, owner: string, sub: Submission): CoinbaseTx {
    tx.(script := NextScript(tx.script, owner, sub.extraNonce2))
  }

  /** The header of a submission on a job whose coinbase is, at any time, `tx`. */
  function HeaderOf(hash: Hash, t: Template, tx: CoinbaseTx, owner: string, sub: Submission): Option<seq<byte>> {
    PoolHeader(hash, t, WithExtranonces(tx, owner, sub), sub)
  }

  // ---------- jobs that rebuild one header ----------

  /** Alike but for the eight extranonce bytes. */
  ghost predicate SameHead(a: CoinbaseTx, b: CoinbaseTx) {
    && |a.script| == |b.script| >= 8 && a.script[..|a.script| - 8] == b.script[..|b.script| - 8]
    && a.outs == b.outs && a.witnessStack == b.witnessStack
  }

  lemma SameHeadSameHeader(hash: Hash, t: Template, a: CoinbaseTx, b: CoinbaseTx, owner: string, sub: Submission)
    requires SameHead(a, b)
    ensures WithExtranonces(a, owner, sub) == WithExtranonces(b, owner, sub)
    ensures HeaderOf(hash, t, a, owner, sub) == HeaderOf(hash, t, b, owner, sub)
  {
    NextScriptIs(a.script, owner, sub.extraNonce2);
    NextScriptIs(b.script, owner, sub.extraNonce2);
  }

  /** A share check keeps the head when its extranonce2 decodes to four bytes. */
  lemma CheckKeepsHead(tx: CoinbaseTx, owner: string, sub: Submission)
    requires |tx.script| >= 8 && IsHex8(owner) && |FromHex(sub.extraNonce2)| == 4
    ensures SameHead(WithExtranonces(tx, owner, sub), tx)
  {
    ExtranoncesDecode(owner, sub.extraNonce2);
    NextScriptIs(tx.script, owner, sub.extraNonce2);
  }

  /** Two jobs that one session is sent for one template and one payout list rebuild the same header for every submission. */
  method ResendTemplate(hash: Hash, config: JobConfig, first: string, second: string, owner: string, payouts: seq<Output>, t: Template)
    returns (a: Job, b: Job)
    requires t.height <= 0x7fffffff
    ensures fresh(a) && fresh(b) && a.jobId == first && b.jobId == second && a.ownerSessionId == b.ownerSessionId == owner
    ensures SameHead(a.coinbaseTransaction.Value(), b.coinbaseTransaction.Value())
    ensures forall sub: Submission ::
      HeaderOf(hash, t, a.coinbaseTransaction.Value(), owner, sub) == HeaderOf(hash, t, b.coinbaseTransaction.Value(), owner, sub)
  {
    a := new Job(config, first, owner, payouts, t);
    b := new Job(config, second, owner, payouts, t);
    assert |InputScript(t.height, KeptIdentifier(config, t, payouts))| >= 8;
  }

  // ---------- values make the header ----------

  /** Also when there is no mask. */
  lemma MaskIsXor(version: nat, mask: int)
    requires version < 0x1_0000_0000
    ensures ApplyMask(version, mask) == Xor(version, Word(mask))
    ensures ApplyMask(version, mask) < 0x1_0000_0000
  {
    WordXor(version, Word(mask));
  }

  lemma WordXor(a: nat, b: nat)
    requires a < 0x1_0000_0000
    ensures Xor(a, b) < 0x1_0000_0000
    ensures b == 0 ==> Xor(a, b) == a
  {
    Pow2Of32();
    XorBelow(a, b, 32);
    if b == 0 {
      XorNothing(a, b, 32);
    }
  }

  /** Equal values give one header, for every hash, template and coinbase. */
  lemma ValuesMakeTheHeader(hash: Hash, t: Template, tx: CoinbaseTx, owner: string, f: Submission, g: Submission)
    requires t.version < 0x1_0000_0000 && |tx.script| >= 8 && IsHex8(owner) && ValuesOf(f) == ValuesOf(g)
    ensures HeaderOf(hash, t, tx, owner, f) == HeaderOf(hash, t, tx, owner, g)
  {
    MaskIsXor(t.version, ParseHexInt(f.versionMask));
    MaskIsXor(t.version, ParseHexInt(g.versionMask));
    SameExtranonces(tx, owner, f, g);
  }

  lemma SameExtranonces(tx: CoinbaseTx, owner: string, f: Submission, g: Submission)
    requires |tx.script| >= 8 && IsHex8(owner) && FromHex(f.extraNonce2) == FromHex(g.extraNonce2)
    ensures WithExtranonces(tx, owner, f) == WithExtranonces(tx, owner, g)
  {
    ExtranoncesDecode(owner, f.extraNonce2);
    ExtranoncesDecode(owner, g.extraNonce2);
    NextScriptIs(tx.script, owner, f.extraNonce2);
    NextScriptIs(tx.script, owner, g.extraNonce2);
  }

  // ---------- the header tells the values, or shows a collision ----------

  /** Somewhere on the way from two leaves up one branch, two different inputs have one hash. */
  ghost predicate FoldCollides(hash: Hash, a: Digest, b: Digest, branch: seq<Digest>)
    decreases |branch|
  {
    && branch != [] && a != b
    && (Pair(hash, a, branch[0]) == Pair(hash, b, branch[0])
        || FoldCollides(hash, Pair(hash, a, branch[0]), Pair(hash, b, branch[0]), branch[1..]))
  }

  lemma {:induction false} EqualFoldsMean(hash: Hash, a: Digest, b: Digest, branch: seq<Digest>)
    requires Fold(hash, a, branch) == Fold(hash, b, branch)
    ensures a == b || FoldCollides(hash, a, b, branch)
    decreases |branch|
  {
    if branch != [] && a != b {
      EqualFoldsMean(hash, Pair(hash, a, branch[0]), Pair(hash, b, branch[0]), branch[1..]);
    }
  }

  /** The two coinbases, or the nodes above them, are different inputs of one hash. */
  ghost predicate Collides(hash: Hash, t: Template, a: CoinbaseTx, b: CoinbaseTx) {
    || (NonWitness(a) != NonWitness(b) && hash(NonWitness(a)) == hash(NonWitness(b)))
    || FoldCollides(hash, hash(NonWitness(a)), hash(NonWitness(b)),
                    Branch(hash, Leaves(hash, hash(NonWitness(PLACEHOLDER)), t.others)))
  }

  lemma EqualRootsMean(hash: Hash, t: Template, a: CoinbaseTx, b: CoinbaseTx)
    requires RootWith(hash, a, t.others) == RootWith(hash, b, t.others)
    ensures NonWitness(a) == NonWitness(b) || Collides(hash, t, a, b)
  {
    BranchTextDecodes(hash, t.others);
    FoldIsRoot(hash, hash(NonWitness(a)), t.others);
    FoldIsRoot(hash, hash(NonWitness(b)), t.others);
    EqualFoldsMean(hash, hash(NonWitness(a)), hash(NonWitness(b)), Branch(hash, Leaves(hash, hash(NonWitness(PLACEHOLDER)), t.others)));
  }

  lemma LeInjective(a: nat, b: nat)
    requires a < 0x1_0000_0000 && b < 0x1_0000_0000 && Le(a, 4) == Le(b, 4)
    ensures a == b
  {
    S.Pow256Values();
    LeRoundTrip(a, 4);
    LeRoundTrip(b, 4);
  }

  lemma EqualHeadersMean(version: nat, other: nat, prevHash: Digest, root: Digest, root': Digest, time: int, time': int, bits: nat,
                         nonce: int, nonce': int)
    requires version < 0x1_0000_0000 && other < 0x1_0000_0000
    requires HeaderBytes(version, prevHash, root, time, bits, nonce).Some?
    requires HeaderBytes(version, prevHash, root, time, bits, nonce) == HeaderBytes(other, prevHash, root', time', bits, nonce')
    ensures version == other && root == root' && time == time' && nonce == nonce'
  {
    SixFields(Le(version, 4), prevHash, root, Le(time, 4), Le(bits, 4), Le(nonce, 4));
    SixFields(Le(other, 4), prevHash, root', Le(time', 4), Le(bits, 4), Le(nonce', 4));
    LeInjective(version, other);
    LeInjective(time, time');
    LeInjective(nonce, nonce');
  }

  lemma SameMaskedVersion(version: nat, f: int, g: int)
    requires version < 0x1_0000_0000 && ApplyMask(version, f) == ApplyMask(version, g)
    ensures Word(f) == Word(g)
  {
    Pow2Of32();
    MaskIsXor(version, f);
    MaskIsXor(version, g);
    XorTwice(version, Word(f), 32);
    XorTwice(version, Word(g), 32);
  }

  lemma EqualCoinbasesMean(tx: CoinbaseTx, owner: string, f: Submission, g: Submission)
    requires 8 <= |tx.script| < 253 && IsHex8(owner) && IsHex8(f.extraNonce2) && IsHex8(g.extraNonce2)
    requires NonWitness(WithExtranonces(tx, owner, f)) == NonWitness(WithExtranonces(tx, owner, g))
    ensures FromHex(f.extraNonce2) == FromHex(g.extraNonce2)
  {
    ScriptOfSubmission(tx, owner, f);
    ScriptOfSubmission(tx, owner, g);
  }

  lemma ScriptOfSubmission(tx: CoinbaseTx, owner: string, sub: Submission)
    requires 8 <= |tx.script| < 253 && IsHex8(owner) && IsHex8(sub.extraNonce2)
    ensures var bytes := NonWitness(WithExtranonces(tx, owner, sub));
      |bytes| >= 42 + |tx.script| && bytes[38 + |tx.script|..42 + |tx.script|] == FromHex(sub.extraNonce2)
  {
    var next, n := WithExtranonces(tx, owner, sub), |tx.script|;
    ExtranoncesDecode(owner, sub.extraNonce2);
    NextScriptIs(tx.script, owner, sub.extraNonce2);
    NonWitnessLayout(next);
    assert next.script[n - 4..] == FromHex(sub.extraNonce2);
    assert NonWitness(next)[42..42 + n] == next.script;
  }

  /** One header of one job comes of equal values, or shows two different inputs of one hash. */
  lemma HeaderTellsTheValues(hash: Hash, t: Template, tx: CoinbaseTx, owner: string, f: Submission, g: Submission)
    requires t.version < 0x1_0000_0000 && 8 <= |tx.script| < 253
    requires IsHex8(owner) && IsHex8(f.extraNonce2) && IsHex8(g.extraNonce2)
    requires HeaderOf(hash, t, tx, owner, f).Some? && HeaderOf(hash, t, tx, owner, f) == HeaderOf(hash, t, tx, owner, g)
    ensures ValuesOf(f) == ValuesOf(g) || Collides(hash, t, WithExtranonces(tx, owner, f), WithExtranonces(tx, owner, g))
  {
    var a, b := WithExtranonces(tx, owner, f), WithExtranonces(tx, owner, g);
    var m, n := ParseHexInt(f.versionMask), ParseHexInt(g.versionMask);
    MaskIsXor(t.version, m);
    MaskIsXor(t.version, n);
    EqualHeadersMean(ApplyMask(t.version, m), ApplyMask(t.version, n), t.prevHash, RootWith(hash, a, t.others), RootWith(hash, b, t.others),
      ParseHexInt(f.ntime), ParseHexInt(g.ntime), t.bits, ParseHexInt(f.nonce), ParseHexInt(g.nonce));
    SameMaskedVersion(t.version, m, n);
    EqualRootsMean(hash, t, a, b);
    if NonWitness(a) == NonWitness(b) {
      EqualCoinbasesMean(tx, owner, f, g);
    }
  }

  /** On one job, canonical submissions with masks of at most eight digits have one header exactly when they have one
      fingerprint, but for a collision of the hash. */
  lemma OneHeaderIsOneFingerprint(hash: Hash, t: Template, tx: CoinbaseTx, owner: string, f: Submission, g: Submission, maskWidth: nat)
    requires t.version < 0x1_0000_0000 && 8 <= |tx.script| < 253 && IsHex8(owner)
    requires Canonical(f, maskWidth) && Canonical(g, maskWidth) && maskWidth <= 8 && f.jobId == g.jobId
    requires HeaderOf(hash, t, tx, owner, f).Some?
    ensures FingerprintText(f) == FingerprintText(g) ==> HeaderOf(hash, t, tx, owner, f) == HeaderOf(hash, t, tx, owner, g)
    ensures HeaderOf(hash, t, tx, owner, f) == HeaderOf(hash, t, tx, owner, g) ==>
      FingerprintText(f) == FingerprintText(g) || Collides(hash, t, WithExtranonces(tx, owner, f), WithExtranonces(tx, owner, g))
  {
    FingerprintIsTheHeaderIff(f, g, maskWidth);
    if FingerprintText(f) == FingerprintText(g) {
      ValuesMakeTheHeader(hash, t, tx, owner, f, g);
    }
    if HeaderOf(hash, t, tx, owner, f) == HeaderOf(hash, t, tx, owner, g) {
      HeaderTellsTheValues(hash, t, tx, owner, f, g);
    }
  }
}
