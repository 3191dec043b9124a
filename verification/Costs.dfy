/** The ETF cost model (src/quant/research/etf/costs.py). */
module Costs {
  import opened Sums

  datatype Side = Buy | Sell

  datatype LegProfile = LegProfile(spreadBps: real, sttSellBps: real)

  datatype ChargeSchedule = ChargeSchedule(
    brokeragePerOrder: real, exchangeTxnRate: real, sebiRate: real, stampBuyRate: real, gstRate: real,
    dpChargePerSell: real)

  datatype CostModel = CostModel(legs: seq<LegProfile>, charges: ChargeSchedule)

  datatype TradeCost = TradeCost(
    spread: real, brokerage: real, stt: real, exchangeTxn: real, sebi: real, stamp: real, gst: real, dp: real)
  {
    function Total(): real {
      spread + brokerage + stt + exchangeTxn + sebi + stamp + gst + dp
    }
  }

  function TradeCostOf(m: CostModel, s: nat, value: real, side: Side): TradeCost
    requires s < |m.legs|
  {
    var leg, c := m.legs[s], m.charges;
    var exchangeTxn, sebi := value * c.exchangeTxnRate, value * c.sebiRate;
    TradeCost(
      value * (leg.spreadBps / 2.0) / 10000.0,
      c.brokeragePerOrder,
      if side == Sell then value * leg.sttSellBps / 10000.0 else 0.0,
      exchangeTxn,
      sebi,
      if side == Buy then value * c.stampBuyRate else 0.0,
      c.gstRate * (c.brokeragePerOrder + exchangeTxn + sebi),
      if side == Sell then c.dpChargePerSell else 0.0)
  }

  // ---- a trade costs a flat part plus a rate times its value ----

  ghost function Flat(m: CostModel, side: Side): real {
    m.charges.brokeragePerOrder + m.charges.gstRate * m.charges.brokeragePerOrder
    + if side == Sell then m.charges.dpChargePerSell else 0.0
  }

  ghost function Rate(m: CostModel, s: nat, side: Side): real
    requires s < |m.legs|
  {
    m.legs[s].spreadBps / 20000.0 + (1.0 + m.charges.gstRate) * (m.charges.exchangeTxnRate + m.charges.sebiRate)
    + if side == Sell then m.legs[s].sttSellBps / 10000.0 else m.charges.stampBuyRate
  }

  /** Itemised or as flat part plus rate, the total is the same. */
  lemma TotalIsAffine(m: CostModel, s: nat, value: real, side: Side)
    requires s < |m.legs|
    ensures TradeCostOf(m, s, value, side).Total() == Flat(m, side) + Rate(m, s, side) * value
  {
    var leg, c := m.legs[s], m.charges;
    assert value * (leg.spreadBps / 2.0) / 10000.0 == (leg.spreadBps / 20000.0) * value;
    assert c.gstRate * (c.brokeragePerOrder + value * c.exchangeTxnRate + value * c.sebiRate)
        == c.gstRate * c.brokeragePerOrder + c.gstRate * (c.exchangeTxnRate + c.sebiRate) * value;
    assert (1.0 + c.gstRate) * (c.exchangeTxnRate + c.sebiRate) * value
        == (c.exchangeTxnRate + c.sebiRate) * value + c.gstRate * (c.exchangeTxnRate + c.sebiRate) * value;
    assert value * leg.sttSellBps / 10000.0 == (leg.sttSellBps / 10000.0) * value;
  }

  ghost function RoundTripBps(m: CostModel, s: nat, value: real): real
    requires s < |m.legs| && value > 0.0
  {
    (TradeCostOf(m, s, value, Buy).Total() + TradeCostOf(m, s, value, Sell).Total()) / value * 10000.0
  }

  lemma PerUnit(flat: real, rate: real, value: real)
    requires value != 0.0
    ensures (flat + rate * value) / value == flat / value + rate
  {
    Quotient(flat + rate * value, value);
    Quotient(flat, value);
    CancelFactor((flat + rate * value) / value, flat / value + rate, value);
  }

  lemma RoundTripIs(m: CostModel, s: nat, value: real)
    requires s < |m.legs| && value > 0.0
    ensures RoundTripBps(m, s, value)
         == ((Flat(m, Buy) + Flat(m, Sell)) / value + Rate(m, s, Buy) + Rate(m, s, Sell)) * 10000.0
  {
    TotalIsAffine(m, s, value, Buy);
    TotalIsAffine(m, s, value, Sell);
    var flat, rate := Flat(m, Buy) + Flat(m, Sell), Rate(m, s, Buy) + Rate(m, s, Sell);
    PerUnit(flat, rate, value);
  }

  /** The flat charges make trading regressive: a smaller ticket never pays fewer basis points. */
  lemma RoundTripRegressive(m: CostModel, s: nat, small: real, large: real)
    requires s < |m.legs| && 0.0 < small <= large && Flat(m, Buy) + Flat(m, Sell) >= 0.0
    ensures RoundTripBps(m, s, small) >= RoundTripBps(m, s, large)
  {
    RoundTripIs(m, s, small);
    RoundTripIs(m, s, large);
    var flat := Flat(m, Buy) + Flat(m, Sell);
    var a, b := flat / small, flat / large;
    Quotient(flat, small);
    Quotient(flat, large);
    FactorNonNegative(b, large);
    ProductNonNegative(b, large - small);
    assert (a - b) * small == b * (large - small);
    FactorNonNegative(a - b, small);
  }
}
