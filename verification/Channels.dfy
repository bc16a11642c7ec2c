/** Payment channels: what each would cost, how likely it is to fail, and which one is recommended. */
module Channels {
  import opened Collections
  import opened Rounding

  // ----- Fee schedule -----

  /** A dict from channel to fee percentage, in insertion order. */
  type FeeMap = seq<(string, real)>

  const DEFAULT_FEES: FeeMap := [
    ("mobile_money_mtn", 1.0), ("mobile_money_airtel", 1.0), ("bank_transfer", 0.5), ("cash", 0.0), ("other", 0.0)]

  predicate Distinct(fees: FeeMap)
  {
    forall i, j | 0 <= i < j < |fees| :: fees[i].0 != fees[j].0
  }

  function Position(fees: FeeMap, channel: string): (i: nat)
    ensures i <= |fees|
    ensures i < |fees| ==> fees[i].0 == channel
    ensures forall j | 0 <= j < i :: fees[j].0 != channel
  {
    if fees == [] || fees[0].0 == channel then 0 else 1 + Position(fees[1..], channel)
  }

  /** `d[channel] = pct`: in place for a known key, at the end for a new one. */
  function Put(fees: FeeMap, channel: string, pct: real): FeeMap
  {
    var i := Position(fees, channel);
    if i < |fees| then fees[i := (channel, pct)] else fees + [(channel, pct)]
  }

  /** `{**base, **custom}` */
  function Merge(base: FeeMap, custom: FeeMap): FeeMap
    decreases |custom|
  {
    if custom == [] then base else Merge(Put(base, custom[0].0, custom[0].1), custom[1..])
  }

  /** `_get_org_channel_fees` */
  function ChannelFees(custom: FeeMap): FeeMap
  {
    if custom != [] then Merge(DEFAULT_FEES, custom) else DEFAULT_FEES
  }

  predicate Has(fees: FeeMap, channel: string, pct: real)
  {
    (channel, pct) in fees
  }

  lemma PutSets(fees: FeeMap, channel: string, pct: real)
    requires Distinct(fees)
    ensures Distinct(Put(fees, channel, pct))
    ensures forall c, p :: Has(Put(fees, channel, pct), c, p) <==> if c == channel then p == pct else Has(fees, c, p)
  {
    var i, put := Position(fees, channel), Put(fees, channel, pct);
    forall c, p ensures Has(put, c, p) <==> if c == channel then p == pct else Has(fees, c, p) {
      if c != channel && Has(fees, c, p) {
        var j :| 0 <= j < |fees| && fees[j] == (c, p);
        assert put[j] == (c, p);
      }
      assert put[i] == (channel, pct);
    }
  }

  predicate Mentions(fees: FeeMap, channel: string)
  {
    exists i :: 0 <= i < |fees| && fees[i].0 == channel
  }

  /** The organisation's own fee wins, and the default applies to every other channel. */
  lemma {:induction false} MergeOverrides(base: FeeMap, custom: FeeMap)
    requires Distinct(base) && Distinct(custom)
    ensures Distinct(Merge(base, custom))
    ensures forall c, p :: Has(Merge(base, custom), c, p) <==>
              if Mentions(custom, c) then Has(custom, c, p) else Has(base, c, p)
    decreases |custom|
  {
    if custom != [] {
      PutSets(base, custom[0].0, custom[0].1);
      MergeOverrides(Put(base, custom[0].0, custom[0].1), custom[1..]);
      forall c ensures Mentions(custom, c) <==> c == custom[0].0 || Mentions(custom[1..], c) {
        if j :| 0 <= j < |custom| && custom[j].0 == c {
          assert j > 0 ==> custom[1..][j - 1].0 == c;
        }
        if j :| 0 <= j < |custom[1..]| && custom[1..][j].0 == c {
          assert custom[j + 1].0 == c;
        }
      }
      assert custom[0].0 == custom[0].0 && !Mentions(custom[1..], custom[0].0);
      forall c, p ensures Has(custom, c, p) <==> (c, p) == custom[0] || Has(custom[1..], c, p) {}
    }
  }

  // ----- Costs -----

  datatype Offer = Offer(channel: string, feePercent: real, fee: real, total: real)

  function Fee(amount: real, pct: real): real
  {
    RoundTo(amount * pct / 100.0, Cents)
  }

  function OfferFor(amount: real, channel: string, pct: real): Offer
  {
    Offer(channel, pct, Fee(amount, pct), RoundTo(amount + Fee(amount, pct), Cents))
  }

  /** The fee is within half a cent of the exact percentage. */
  lemma FeeWithinHalfCent(amount: real, pct: real)
    ensures -0.005 <= Fee(amount, pct) - amount * pct / 100.0 <= 0.005
  {
    RoundToClose(amount * pct / 100.0, Cents);
  }

  lemma FeeGrowsWithAmount(amount: real, more: real, pct: real)
    requires amount <= more && 0.0 <= pct
    ensures Fee(amount, pct) <= Fee(more, pct)
  {
    assert (more - amount) * pct >= 0.0;
    RoundToMonotone(amount * pct / 100.0, more * pct / 100.0, Cents);
  }

  lemma FeeGrowsWithPercent(amount: real, pct: real, higher: real)
    requires 0.0 <= amount && pct <= higher
    ensures Fee(amount, pct) <= Fee(amount, higher)
  {
    assert amount * (higher - pct) >= 0.0;
    RoundToMonotone(amount * pct / 100.0, amount * higher / 100.0, Cents);
  }

  /** For amounts in whole cents the total is the amount plus the fee, to the cent. */
  lemma TotalExact(amount: real, channel: string, pct: real)
    requires IsMultiple(amount, Cents)
    ensures OfferFor(amount, channel, pct).total == amount + OfferFor(amount, channel, pct).fee
  {
    var fee := Fee(amount, pct);
    RoundToExact(amount * pct / 100.0, Cents);
    assert (amount + fee) * 100.0 == ((amount * 100.0).Floor + (fee * 100.0).Floor) as real;
    RoundToExact(amount + fee, Cents);
  }

  // ----- Failure prediction -----

  /** A tenant's recent payments on one channel. */
  datatype History = History(failed: nat, total: nat)

  function BaseRate(channel: string): real
  {
    if channel == "mobile_money_mtn" then 0.12
    else if channel == "mobile_money_airtel" then 0.15
    else if channel == "bank_transfer" then 0.03
    else if channel == "cash" then 0.0
    else 0.05
  }

  predicate IsMobileMoney(channel: string)
  {
    "mobile_money" <= channel
  }

  function Blended(base: real, history: Option<History>): real
  {
    if history.Some? && history.value.total >= 3 then
      RoundTo(0.5 * base + 0.5 * (history.value.failed as real / history.value.total as real), Thousandths)
    else base
  }

  function Clamp(x: real): real
  {
    var atLeast := if x < 0.0 then 0.0 else x;
    if atLeast > 1.0 then 1.0 else atLeast
  }

  /** The surcharge on large mobile-money amounts. */
  function Penalised(score: real, amount: real, channel: string): real
  {
    if IsMobileMoney(channel) && amount > 2_000_000.0 then (if score + 0.1 > 1.0 then 1.0 else score + 0.1) else score
  }

  function FailureScore(amount: real, channel: string, history: Option<History>): real
  {
    RoundTo(Clamp(Penalised(Blended(BaseRate(channel), history), amount, channel)), Thousandths)
  }

  /** `predict_failure_score`, adjusting one variable step by step. */
  method PredictFailureScore(amount: real, channel: string, history: Option<History>) returns (score: real)
    ensures score == FailureScore(amount, channel, history)
    ensures 0.0 <= score <= 1.0
  {
    score := BaseRate(channel);
    if history.Some? {
      var h := history.value;
      if h.total >= 3 {
        var tenantRate := h.failed as real / h.total as real;
        score := RoundTo(0.5 * score + 0.5 * tenantRate, Thousandths);
      }
    }
    if IsMobileMoney(channel) && amount > 2_000_000.0 {
      score := if score + 0.1 > 1.0 then 1.0 else score + 0.1;
    }
    var atLeast := if score < 0.0 then 0.0 else score;
    score := RoundTo(if atLeast > 1.0 then 1.0 else atLeast, Thousandths);
    ScoreIsProbability(amount, channel, history);
  }

  lemma ScoreIsProbability(amount: real, channel: string, history: Option<History>)
    ensures 0.0 <= FailureScore(amount, channel, history) <= 1.0
  {
    assert IsMultiple(0.0, Thousandths) && IsMultiple(1.0, Thousandths);
    RoundToExact(0.0, Thousandths);
    RoundToExact(1.0, Thousandths);
    var penalised := Penalised(Blended(BaseRate(channel), history), amount, channel);
    RoundToMonotone(0.0, Clamp(penalised), Thousandths);
    RoundToMonotone(Clamp(penalised), 1.0, Thousandths);
  }

  lemma BlendMonotone(base: real, failed: nat, more: nat, total: nat)
    requires failed <= more
    ensures Blended(base, Some(History(failed, total))) <= Blended(base, Some(History(more, total)))
  {
    if total >= 3 {
      var t := total as real;
      assert failed as real / t <= more as real / t;
      RoundToMonotone(0.5 * base + 0.5 * (failed as real / t), 0.5 * base + 0.5 * (more as real / t), Thousandths);
    }
  }

  /** More failures among the same number of recent payments never lower the score. */
  lemma ScoreMonotone(amount: real, channel: string, failed: nat, more: nat, total: nat)
    requires failed <= more
    ensures FailureScore(amount, channel, Some(History(failed, total)))
            <= FailureScore(amount, channel, Some(History(more, total)))
  {
    BlendMonotone(BaseRate(channel), failed, more, total);
    var fewer := Penalised(Blended(BaseRate(channel), Some(History(failed, total))), amount, channel);
    var most := Penalised(Blended(BaseRate(channel), Some(History(more, total))), amount, channel);
    RoundToMonotone(Clamp(fewer), Clamp(most), Thousandths);
  }

  // ----- The fees that apply -----

  /** An organisation's own percentage for a channel applies, if it has one, and otherwise 1 for mobile money,
      0.5 for bank transfers and 0 for cash and the rest; no other channel has a fee. */
  lemma EffectiveFees(custom: FeeMap, channel: string, pct: real)
    requires Distinct(custom)
    ensures Distinct(ChannelFees(custom))
    ensures Mentions(custom, channel) ==> (Has(ChannelFees(custom), channel, pct) <==> Has(custom, channel, pct))
    ensures !Mentions(custom, channel) ==>
              (Has(ChannelFees(custom), channel, pct) <==>
               ((channel == "mobile_money_mtn" || channel == "mobile_money_airtel") && pct == 1.0)
               || (channel == "bank_transfer" && pct == 0.5)
               || ((channel == "cash" || channel == "other") && pct == 0.0))
  {
    DefaultsDistinct();
    MergeOverrides(DEFAULT_FEES, custom);
    DefaultHas(channel, pct);
  }

  lemma DefaultsDistinct()
    ensures Distinct(DEFAULT_FEES)
  {
    assert "mobile_money_mtn"[13] != "mobile_money_airtel"[13];
  }

  lemma DefaultHas(channel: string, pct: real)
    ensures Has(DEFAULT_FEES, channel, pct) <==>
            ((channel == "mobile_money_mtn" || channel == "mobile_money_airtel") && pct == 1.0)
            || (channel == "bank_transfer" && pct == 0.5)
            || ((channel == "cash" || channel == "other") && pct == 0.0)
  {
    assert DEFAULT_FEES[0] == ("mobile_money_mtn", 1.0) && DEFAULT_FEES[1] == ("mobile_money_airtel", 1.0);
    assert DEFAULT_FEES[2] == ("bank_transfer", 0.5) && DEFAULT_FEES[3] == ("cash", 0.0) && DEFAULT_FEES[4] == ("other", 0.0);
  }

  // ----- What the score is -----

  /** The share of a channel's payments that fail, and the surcharge on a large amount of mobile money. */
  predicate RateIs(channel: string, rate: real)
  {
    (channel == "mobile_money_mtn" ==> rate == 0.12)
    && (channel == "mobile_money_airtel" ==> rate == 0.15)
    && (channel == "bank_transfer" ==> rate == 0.03)
    && (channel == "cash" ==> rate == 0.0)
    && (channel !in {"mobile_money_mtn", "mobile_money_airtel", "bank_transfer", "cash"} ==> rate == 0.05)
  }

  predicate SurchargeIs(amount: real, channel: string, surcharge: real)
  {
    surcharge == if |channel| >= 12 && channel[..12] == "mobile_money" && amount > 2_000_000.0 then 0.1 else 0.0
  }

  lemma RateOf(channel: string)
    ensures RateIs(channel, BaseRate(channel)) && IsMultiple(BaseRate(channel), Thousandths)
    ensures 0.0 <= BaseRate(channel) <= 0.15
  {
  }

  lemma RateUnique(channel: string, rate: real)
    requires RateIs(channel, rate)
    ensures rate == BaseRate(channel)
  {
  }

  lemma PenalisedBy(score: real, amount: real, channel: string, surcharge: real)
    requires 0.0 <= score && SurchargeIs(amount, channel, surcharge)
    ensures Clamp(Penalised(score, amount, channel)) == if score + surcharge > 1.0 then 1.0 else score + surcharge
  {
  }

  /** Sums and limits of whole thousandths are whole thousandths, so the last rounding does nothing. */
  lemma LastRounding(score: real, surcharge: real)
    requires IsMultiple(score, Thousandths) && (surcharge == 0.1 || surcharge == 0.0)
    ensures var capped := if score + surcharge > 1.0 then 1.0 else score + surcharge;
            RoundTo(capped, Thousandths) == capped
  {
    var capped := if score + surcharge > 1.0 then 1.0 else score + surcharge;
    var thousandths := if surcharge == 0.1 then (score * 1000.0).Floor + 100 else (score * 1000.0).Floor;
    assert (score + surcharge) * 1000.0 == thousandths as real;
    RoundToExact(capped, Thousandths);
  }

  /** With fewer than three recent payments the score is the channel's rate plus the surcharge. With three or
      more it is the mean of that rate and the share of them that failed, rounded to thousandths, plus the
      surcharge, and at most 1: within half a thousandth of the unrounded value. */
  lemma ScoreValue(amount: real, channel: string, history: Option<History>, rate: real, surcharge: real)
    requires RateIs(channel, rate) && SurchargeIs(amount, channel, surcharge)
    ensures history.None? || history.value.total < 3 ==> FailureScore(amount, channel, history) == rate + surcharge
    ensures history.Some? && history.value.total >= 3 ==>
              var mean := (rate + history.value.failed as real / history.value.total as real) / 2.0;
              var rounded, exact := RoundTo(mean, Thousandths) + surcharge, mean + surcharge;
              FailureScore(amount, channel, history) == (if rounded > 1.0 then 1.0 else rounded)
              && -0.0005 <= FailureScore(amount, channel, history) - (if exact > 1.0 then 1.0 else exact) <= 0.0005
  {
    RateOf(channel);
    RateUnique(channel, rate);
    if history.Some? && history.value.total >= 3 {
      ScoreOfHistory(amount, channel, history.value, surcharge);
    } else {
      PenalisedBy(rate, amount, channel, surcharge);
      LastRounding(rate, surcharge);
    }
  }

  lemma ScoreOfHistory(amount: real, channel: string, h: History, surcharge: real)
    requires h.total >= 3 && SurchargeIs(amount, channel, surcharge)
    ensures var mean := (BaseRate(channel) + h.failed as real / h.total as real) / 2.0;
            var rounded, exact := RoundTo(mean, Thousandths) + surcharge, mean + surcharge;
            FailureScore(amount, channel, Some(h)) == (if rounded > 1.0 then 1.0 else rounded)
            && -0.0005 <= FailureScore(amount, channel, Some(h)) - (if exact > 1.0 then 1.0 else exact) <= 0.0005
  {
    var share := h.failed as real / h.total as real;
    var mean := (BaseRate(channel) + share) / 2.0;
    assert mean == 0.5 * BaseRate(channel) + 0.5 * share;
    RateOf(channel);
    RoundToExact(mean, Thousandths);
    RoundToExact(0.0, Thousandths);
    RoundToMonotone(0.0, mean, Thousandths);
    RoundToClose(mean, Thousandths);
    PenalisedBy(RoundTo(mean, Thousandths), amount, channel, surcharge);
    LastRounding(RoundTo(mean, Thousandths), surcharge);
  }
}
