/** The split of a block reward over its recipients, with the remainder going to the first one. */
module Payout {
  import opened Bytes
  import opened Coinbase

  /** A recipient; None stands for an address that does not decode to an output script. */
  datatype Recipient = Recipient(script: Option<seq<byte>>, percent: real)

  datatype PayoutError = InvalidPayoutAddress | NoRecipients

  /** The whole units below a percentage of the reward. */
  function Amount(percent: real, reward: nat): int {
    (percent / 100.0 * reward as real).Floor
  }

  function Sum(xs: seq<int>): int {
    if xs == [] then 0 else Sum(xs[..|xs| - 1]) + xs[|xs| - 1]
  }

  function RealSum(xs: seq<real>): real {
    if xs == [] then 0.0 else RealSum(xs[..|xs| - 1]) + xs[|xs| - 1]
  }

  function Values(outs: seq<Output>): seq<int> {
    seq(|outs|, i requires 0 <= i < |outs| => outs[i].value)
  }

  function Amounts(recipients: seq<Recipient>, reward: nat): seq<int> {
    seq(|recipients|, i requires 0 <= i < |recipients| => Amount(recipients[i].percent, reward))
  }

  function Percents(recipients: seq<Recipient>): seq<real> {
    seq(|recipients|, i requires 0 <= i < |recipients| => recipients[i].percent)
  }

  ghost predicate AllDecode(recipients: seq<Recipient>) {
    forall i :: 0 <= i < |recipients| ==> recipients[i].script.Some?
  }

  /** One output a recipient, then the balance that rounding left over onto the first output. */
  method CreateOutputs(recipients: seq<Recipient>, reward: nat) returns (r: Result<seq<Output>, PayoutError>)
    ensures r.Ok? <==> AllDecode(recipients) && recipients != []
    ensures r == Err(NoRecipients) <==> recipients == []
    ensures r.Ok? ==>
      && |r.value| == |recipients|
      && (forall i :: 0 <= i < |recipients| ==> r.value[i].script == recipients[i].script.value)
      && (forall i :: 1 <= i < |recipients| ==> r.value[i].value == Amount(recipients[i].percent, reward))
      && Sum(Values(r.value)) == reward
    ensures r.Ok? ==> forall i :: 1 <= i < |recipients| ==>
      r.value[i].value as real <= recipients[i].percent / 100.0 * reward as real < r.value[i].value as real + 1.0
  {
    var outs: seq<Output> := [];
    var balance: int := reward;
    for n := 0 to |recipients|
      invariant |outs| == n
      invariant forall i :: 0 <= i < n ==> recipients[i].script.Some? && outs[i].script == recipients[i].script.value
      invariant forall i :: 0 <= i < n ==> outs[i].value == Amount(recipients[i].percent, reward)
      invariant balance == reward - Sum(Values(outs))
    {
      if recipients[n].script.None? {
        return Err(InvalidPayoutAddress);
      }
      var amount := Amount(recipients[n].percent, reward);
      SumValuesSnoc(outs, Output(amount, recipients[n].script.value));
      balance := balance - amount;
      outs := outs + [Output(amount, recipients[n].script.value)];
    }
    if outs == [] {
      return Err(NoRecipients);
    }
    AddToFirst(outs, balance);
    outs := outs[0 := outs[0].(value := outs[0].value + balance)];
    r := Ok(outs);
  }

  lemma SumValuesSnoc(outs: seq<Output>, last: Output)
    ensures Sum(Values(outs + [last])) == Sum(Values(outs)) + last.value
  {
    assert Values(outs + [last])[..|outs|] == Values(outs);
  }

  lemma {:induction false} AddToFirst(outs: seq<Output>, extra: int)
    requires outs != []
    ensures Sum(Values(outs[0 := outs[0].(value := outs[0].value + extra)])) == Sum(Values(outs)) + extra
  {
    var more := outs[0 := outs[0].(value := outs[0].value + extra)];
    if |outs| == 1 {
      assert Values(more) == [outs[0].value + extra] && Values(outs) == [outs[0].value];
      assert Sum([outs[0].value + extra]) == Sum([outs[0].value + extra][..0]) + outs[0].value + extra;
    } else {
      var n := |outs| - 1;
      AddToFirst(outs[..n], extra);
      assert Values(outs)[..n] == Values(outs[..n]);
      assert Values(more)[..n] == Values(outs[..n][0 := outs[0].(value := outs[0].value + extra)]);
    }
  }

  /** Outputs of value zero, such as OP_RETURN ones, change no sum. */
  lemma {:induction false} ZeroOutputsKeepSum(outs: seq<Output>, more: seq<Output>)
    requires forall i :: 0 <= i < |more| ==> more[i].value == 0
    ensures Sum(Values(outs + more)) == Sum(Values(outs))
  {
    if more == [] {
      assert outs + more == outs;
    } else {
      var n := |more| - 1;
      ZeroOutputsKeepSum(outs, more[..n]);
      SumValuesSnoc(outs + more[..n], more[n]);
      assert outs + more == outs + more[..n] + [more[n]];
    }
  }

  /** The floors of nonnegative shares miss the reward by less than one unit a recipient. */
  lemma {:induction false} FloorsMissLittle(recipients: seq<Recipient>, reward: nat)
    ensures Sum(Amounts(recipients, reward)) as real <= RealSum(Percents(recipients)) / 100.0 * reward as real
    ensures recipients != [] ==>
      RealSum(Percents(recipients)) / 100.0 * reward as real < (Sum(Amounts(recipients, reward)) + |recipients|) as real
  {
    if recipients != [] {
      var n := |recipients| - 1;
      FloorsMissLittle(recipients[..n], reward);
      assert Amounts(recipients, reward)[..n] == Amounts(recipients[..n], reward);
      assert Percents(recipients)[..n] == Percents(recipients[..n]);
      var before, last := RealSum(Percents(recipients[..n])), recipients[n].percent;
      assert (before + last) / 100.0 * reward as real
          == before / 100.0 * reward as real + last / 100.0 * reward as real;
    }
  }

  lemma {:induction false} SumOfEqualTails(values: seq<int>, amounts: seq<int>)
    requires |values| == |amounts| >= 1
    requires forall i :: 1 <= i < |values| ==> values[i] == amounts[i]
    ensures Sum(values) - values[0] == Sum(amounts) - amounts[0]
  {
    if |values| == 1 {
      assert Sum(values[..0]) == 0 && Sum(amounts[..0]) == 0;
    } else {
      var n := |values| - 1;
      SumOfEqualTails(values[..n], amounts[..n]);
    }
  }

  /** The recipients of a job: the miner alone, or a developer's fee in front of the rest. */
  function Recipients(miner: Option<seq<byte>>, fee: Option<(Option<seq<byte>>, real)>): seq<Recipient> {
    match fee
    case None => [Recipient(miner, 100.0)]
    case Some((developer, configured)) =>
      var percent := if 0.0 < configured < 100.0 then configured else 1.5;
      [Recipient(developer, percent), Recipient(miner, 100.0 - percent)]
  }

  /** Whatever fee is configured, the shares add up to the whole and none is negative. */
  lemma RecipientsShareTheWhole(miner: Option<seq<byte>>, fee: Option<(Option<seq<byte>>, real)>)
    ensures var recipients := Recipients(miner, fee);
      && recipients != [] && RealSum(Percents(recipients)) == 100.0
      && (forall i :: 0 <= i < |recipients| ==> recipients[i].percent >= 0.0)
      && recipients[|recipients| - 1].script == miner
      && (fee.None? ==> |recipients| == 1)
      && (fee.Some? ==>
            && |recipients| == 2 && recipients[0].script == fee.value.0
            && (0.0 < fee.value.1 < 100.0 ==> recipients[0].percent == fee.value.1)
            && (!(0.0 < fee.value.1 < 100.0) ==> recipients[0].percent == 1.5))
  {
    var percents := Percents(Recipients(miner, fee));
    if fee.Some? {
      assert percents[..1] == [percents[0]] && RealSum([percents[0]]) == RealSum([percents[0]][..0]) + percents[0];
    } else {
      assert percents == [100.0] && RealSum([100.0]) == RealSum([100.0][..0]) + 100.0;
    }
  }

  /** Every unit of the reward is paid out, none is negative and the first recipient gains under one unit a recipient. */
  lemma RewardIsConserved(recipients: seq<Recipient>, reward: nat, outs: seq<Output>, zeros: seq<Output>)
    requires |outs| == |recipients| >= 1
    requires forall i :: 0 <= i < |recipients| ==> recipients[i].percent >= 0.0
    requires RealSum(Percents(recipients)) == 100.0
    requires forall i :: 1 <= i < |outs| ==> outs[i].value == Amount(recipients[i].percent, reward)
    requires Sum(Values(outs)) == reward
    requires forall i :: 0 <= i < |zeros| ==> zeros[i].value == 0
    ensures Sum(Values(outs + zeros)) == reward
    ensures forall i :: 0 <= i < |outs + zeros| ==> (outs + zeros)[i].value >= 0
    ensures 0 <= outs[0].value - Amount(recipients[0].percent, reward) < |recipients|
  {
    ZeroOutputsKeepSum(outs, zeros);
    FloorsMissLittle(recipients, reward);
    SumOfEqualTails(Values(outs), Amounts(recipients, reward));
    assert Amount(recipients[0].percent, reward) >= 0;
  }
}
