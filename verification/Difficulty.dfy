/** Hash values, compact targets and the two difficulties that decide whether a share is a block. */
module Difficulty {
  import opened Bytes

  datatype Difficulty = Finite(value: real) | Infinite

  predicate AtLeast(a: Difficulty, b: Difficulty) {
    a.Infinite? || (b.Finite? && a.value >= b.value)
  }

  /** Any rounding of a quotient that never reverses an order. */
  ghost predicate Monotone(round: real -> real) {
    forall x: real, y: real :: x <= y ==> round(x) <= round(y)
  }

  /** `reduceRight`: the accumulator moves up one byte for every byte taken from the back. */
  function ReduceRight(hash: seq<byte>, acc: nat): nat {
    if hash == [] then acc else ReduceRight(hash[..|hash| - 1], 256 * acc + hash[|hash| - 1])
  }

  function Le256ToInteger(hash: Digest): nat {
    ReduceRight(hash, 0)
  }

  lemma {:induction false} ReduceRightIs(hash: seq<byte>, acc: nat)
    ensures ReduceRight(hash, acc) == LeValue(hash) + Pow256(|hash|) * acc
  {
    if hash != [] {
      var n := |hash| - 1;
      ReduceRightIs(hash[..n], 256 * acc + hash[n]);
      LeValueSnoc(hash[..n], hash[n]);
      assert hash[..n] + [hash[n]] == hash;
      var p := Pow256(n);
      assert p * (256 * acc + hash[n]) == 256 * p * acc + p * hash[n];
    }
  }

  /** The fold is the 256-bit little-endian value of the hash. */
  lemma Le256IsValue(hash: Digest)
    ensures Le256ToInteger(hash) == LeValue(hash) < Pow256(32)
  {
    ReduceRightIs(hash, 0);
    LeValueBound(hash);
  }

  function Quotient(maxTarget: nat, divisor: nat, round: real -> real): Difficulty {
    if divisor == 0 then Infinite else Finite(round(maxTarget as real / divisor as real))
  }

  function SubmissionDifficulty(hash: Digest, maxTarget: nat, round: real -> real): Difficulty {
    Quotient(maxTarget, Le256ToInteger(hash), round)
  }

  function Times(a: nat, b: nat): nat {
    a * b
  }

  function Divide(a: nat, b: nat): nat
    requires b > 0
  {
    a / b
  }

  /** Mantissa moved by whole bytes; bits that fall off the right end are lost. */
  function Shifted(mantissa: nat, exponent: nat): nat {
    if exponent <= 3 then Divide(mantissa, Pow2(8 * (3 - exponent))) else Times(mantissa, Pow2(8 * (exponent - 3)))
  }

  function Exponent(bits: nat): nat {
    bits / 0x1000000 % 0x100
  }

  /** The share check's decoder keeps all 24 low bits of the mantissa. */
  function TargetFromBits(bits: nat): nat {
    Shifted(bits % 0x1000000, Exponent(bits))
  }

  /** The template's decoder drops bit 23, the sign bit of the compact form. */
  function TemplateTarget(bits: nat): nat {
    Shifted(bits % 0x800000, Exponent(bits))
  }

  function CalculateDifficultyFromBits(bits: nat, maxTarget: nat, round: real -> real): Difficulty {
    Quotient(maxTarget, TargetFromBits(bits), round)
  }

  function CalculateNetworkDifficulty(bits: nat, maxTarget: nat, round: real -> real): Difficulty {
    Quotient(maxTarget, TemplateTarget(bits), round)
  }

  lemma ProductOrder(x: real, y: real, z: real)
    requires z > 0.0
    ensures x < y <==> x * z < y * z
  {
  }

  lemma DivisionOrder(m: real, small: real, large: real)
    requires m >= 0.0 && 0.0 < small <= large
    ensures m / large <= m / small
    ensures m > 0.0 && small < large ==> m / large < m / small
  {
    var q, r := m / small, m / large;
    assert q * small == m && r * large == m;
    assert q * large == m + q * (large - small);
    ProductOrder(q, r, large);
    ProductOrder(r, q, large);
    if m > 0.0 {
      ProductOrder(0.0, q, small);
      assert q > 0.0;
      assert small < large ==> q * (large - small) > 0.0;
    }
  }

  /** The smaller divisor gives the larger quotient. */
  lemma QuotientIsAntitone(maxTarget: nat, small: nat, large: nat, round: real -> real)
    requires Monotone(round) && small <= large
    ensures AtLeast(Quotient(maxTarget, small, round), Quotient(maxTarget, large, round))
  {
    if small > 0 {
      DivisionOrder(maxTarget as real, small as real, large as real);
    }
  }

  /** A hash that meets the target has at least the network's difficulty, however both quotients are rounded. */
  lemma MetTargetMeansNetworkDifficulty(hash: Digest, bits: nat, maxTarget: nat, round: real -> real)
    requires Monotone(round)
    requires LeValue(hash) <= TargetFromBits(bits)
    ensures AtLeast(SubmissionDifficulty(hash, maxTarget, round), CalculateDifficultyFromBits(bits, maxTarget, round))
  {
    Le256IsValue(hash);
    QuotientIsAntitone(maxTarget, LeValue(hash), TargetFromBits(bits), round);
  }

  /** Without rounding the comparison of difficulties is the comparison with the target, in both directions. */
  lemma ExactDifficultyIsTheTargetTest(hash: Digest, bits: nat, maxTarget: nat)
    requires maxTarget > 0
    ensures AtLeast(SubmissionDifficulty(hash, maxTarget, x => x), CalculateDifficultyFromBits(bits, maxTarget, x => x))
            <==> LeValue(hash) <= TargetFromBits(bits)
  {
    Le256IsValue(hash);
    var exact: real -> real := x => x;
    var h, t := LeValue(hash), TargetFromBits(bits);
    if h <= t {
      QuotientIsAntitone(maxTarget, h, t, exact);
    } else if t > 0 {
      DivisionOrder(maxTarget as real, t as real, h as real);
    }
  }

  /** With exact quotients a share has a difficulty exactly when its hash times the difficulty fits the largest target. */
  lemma ShareMeetsDifficultyIff(hash: Digest, maxTarget: nat, difficulty: real)
    requires difficulty > 0.0
    ensures AtLeast(SubmissionDifficulty(hash, maxTarget, x => x), Finite(difficulty))
            <==> LeValue(hash) as real * difficulty <= maxTarget as real
  {
    SubmissionIs(hash, maxTarget, x => x);
    if LeValue(hash) > 0 {
      QuotientAtLeastIff(maxTarget as real, LeValue(hash) as real, difficulty);
    }
  }

  lemma SubmissionIs(hash: Digest, maxTarget: nat, round: real -> real)
    ensures SubmissionDifficulty(hash, maxTarget, round)
            == if LeValue(hash) == 0 then Infinite else Finite(round(maxTarget as real / LeValue(hash) as real))
  {
    Le256IsValue(hash);
  }

  lemma QuotientAtLeastIff(m: real, h: real, d: real)
    requires h > 0.0
    ensures m / h >= d <==> h * d <= m
  {
    var q := m / h;
    assert q * h == m;
    ProductOrder(q, d, h);
    assert d * h == h * d;
  }

  /** A hash above the target passes the comparison all the same exactly when rounding makes the two quotients one. */
  lemma NearMissPassesIff(hash: Digest, bits: nat, maxTarget: nat, round: real -> real)
    requires Monotone(round) && 0 < TargetFromBits(bits) < LeValue(hash)
    ensures AtLeast(SubmissionDifficulty(hash, maxTarget, round), CalculateDifficultyFromBits(bits, maxTarget, round))
            <==> SubmissionDifficulty(hash, maxTarget, round) == CalculateDifficultyFromBits(bits, maxTarget, round)
  {
    Le256IsValue(hash);
    QuotientIsAntitone(maxTarget, TargetFromBits(bits), LeValue(hash), round);
  }

  // ---------- when a share becomes a block ----------

  /** The submission test of the share check, for a share of a known template. */
  predicate SubmitsBlock(stale: bool, share: Difficulty, session: real, network: Difficulty, gateRejected: bool) {
    && AtLeast(share, Finite(session))
    && !gateRejected
    && !stale
    && AtLeast(share, network)
  }

  /** A hash that meets the target of a fresh template is submitted exactly when its share would be credited. */
  lemma ValidBlockSubmittedIff(hash: Digest, bits: nat, maxTarget: nat, round: real -> real, session: real, gateRejected: bool)
    requires Monotone(round) && LeValue(hash) <= TargetFromBits(bits)
    ensures var share := SubmissionDifficulty(hash, maxTarget, round);
      SubmitsBlock(false, share, session, CalculateDifficultyFromBits(bits, maxTarget, round), gateRejected)
      <==> AtLeast(share, Finite(session)) && !gateRejected
  {
    MetTargetMeansNetworkDifficulty(hash, bits, maxTarget, round);
  }

  /** With a session difficulty up to the network's, and the gate open, no valid block is withheld. */
  lemma NoValidBlockWithheld(hash: Digest, bits: nat, maxTarget: nat, round: real -> real, session: real)
    requires Monotone(round) && LeValue(hash) <= TargetFromBits(bits)
    requires AtLeast(CalculateDifficultyFromBits(bits, maxTarget, round), Finite(session))
    ensures SubmitsBlock(false, SubmissionDifficulty(hash, maxTarget, round), session,
                         CalculateDifficultyFromBits(bits, maxTarget, round), false)
  {
    MetTargetMeansNetworkDifficulty(hash, bits, maxTarget, round);
  }

  // ---------- the two decoders ----------

  lemma {:induction false} EightBitsAreAByte(n: nat)
    ensures Pow2(8 * n) == Pow256(n)
  {
    if n > 0 {
      EightBitsAreAByte(n - 1);
      Pow2Adds(8 * (n - 1), 8);
      Pow2Values();
    }
  }

  /** The compact form: a mantissa and the number of bytes of the target, of which it is the first three. */
  lemma CompactTargetIs(mantissa: nat, size: nat)
    requires mantissa < 0x1000000 && size < 0x100
    ensures var bits := size * 0x1000000 + mantissa;
      && TargetFromBits(bits) == (if size >= 3 then mantissa * Pow256(size - 3) else mantissa / Pow256(3 - size))
      && (mantissa < 0x800000 ==> TemplateTarget(bits) == TargetFromBits(bits))
  {
    CompactFields(mantissa, size);
    ShiftedByBytes(mantissa, size);
    DecodersAgreeIff(size * 0x1000000 + mantissa);
  }

  lemma CompactFields(mantissa: nat, size: nat)
    requires mantissa < 0x1000000 && size < 0x100
    ensures var bits := size * 0x1000000 + mantissa;
      bits % 0x1000000 == mantissa && Exponent(bits) == size
  {
  }

  lemma ShiftedByBytes(mantissa: nat, size: nat)
    ensures Shifted(mantissa, size) == if size >= 3 then mantissa * Pow256(size - 3) else mantissa / Pow256(3 - size)
  {
    if size > 3 {
      EightBitsAreAByte(size - 3);
    } else {
      EightBitsAreAByte(3 - size);
    }
    if size == 3 {
      assert Pow2(0) == 1 && Pow256(0) == 1;
    }
  }

  /** A job's advertised and checked network difficulty are one, under any rounding, where the decoders agree. */
  lemma NetworkDifficultiesAgree(bits: nat, maxTarget: nat, round: real -> real)
    requires bits % 0x1000000 < 0x800000 || Exponent(bits) == 0
    ensures CalculateNetworkDifficulty(bits, maxTarget, round) == CalculateDifficultyFromBits(bits, maxTarget, round)
  {
    DecodersAgreeIff(bits);
  }

  lemma TimesOrder(a: nat, b: nat, p: nat)
    requires a < b && p >= 1
    ensures Times(a, p) < Times(b, p)
  {
    assert b * p == a * p + (b - a) * p;
    assert (b - a) * p >= 1;
  }

  /** The decoders agree exactly when the sign bit is clear, or when exponent 0 shifts everything away. */
  lemma DecodersAgreeIff(bits: nat)
    ensures TargetFromBits(bits) == TemplateTarget(bits)
            <==> bits % 0x1000000 < 0x800000 || Exponent(bits) == 0
  {
    var full, low, e := bits % 0x1000000, bits % 0x800000, Exponent(bits);
    assert low == full % 0x800000;
    Pow2Values();
    if full >= 0x800000 {
      assert full == low + 0x800000;
      if e == 0 {
        assert Pow2(8 * (3 - e)) == 0x1000000;
      } else if e == 1 {
        assert Pow2(8 * (3 - e)) == 0x10000;
      } else if e == 2 {
        assert Pow2(8 * (3 - e)) == 0x100;
      } else if e == 3 {
        assert Pow2(8 * (3 - e)) == 1;
      } else {
        TimesOrder(low, full, Pow2(8 * (e - 3)));
      }
    }
  }
}
