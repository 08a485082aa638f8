/**
 From a trade intent to the offer on the ledger (src/execution/offerBuilder.ts) and from a recorded offer
 back to its price (src/analytics/offerOutcomeExplainer.ts).
 */
module OfferPricing {
  import opened Basics

  /** An amount as the offer carries it: whole drops of XRP, or a decimal value of an issued currency. */
  datatype Amount = Drops(drops: int) | Issued(value: real)

  datatype Leg = Xrp | Token

  datatype Intent = Intent(base: Leg, quote: Leg, side: Side, amount: real, price: real)

  datatype Offer = Offer(takerGets: Amount, takerPays: Amount)

  const DROPS_PER_XRP := 1000000.0
  const ONE_DROP := 0.000001
  const SANITY_DEVIATION_THRESHOLD_BPS := 2.0

  // ---------------------------------------------------------------- building

  /** An intent is refused (`None`) unless its amount and price are positive; inverting the pair inverts the price. */
  function NormalizeIntent(intent: Intent, invertPair: bool): (r: Option<Intent>)
    ensures r.Some? <==> intent.amount > 0.0 && intent.price > 0.0
    ensures r.Some? ==> r.value.amount > 0.0 && r.value.price > 0.0
    ensures r.Some? ==> r.value.amount == intent.amount && r.value.side == intent.side
    ensures r.Some? && !invertPair ==> r.value == intent
    ensures r.Some? && invertPair ==> r.value.base == intent.quote && r.value.quote == intent.base
    ensures r.Some? && invertPair ==> r.value.price * intent.price == 1.0
  {
    if intent.price <= 0.0 || intent.amount <= 0.0 then None
    else if invertPair then
      QuotientSign(1.0, intent.price);
      QuotientTimes(1.0, intent.price);
      Some(intent.(base := intent.quote, quote := intent.base, price := 1.0 / intent.price))
    else Some(intent)
  }

  /** Inverting an accepted intent and inverting it back gives the intent again. */
  lemma InvertingTwiceRestores(intent: Intent)
    requires intent.amount > 0.0 && intent.price > 0.0
    ensures NormalizeIntent(intent, true).Some?
    ensures NormalizeIntent(NormalizeIntent(intent, true).value, true) == Some(intent)
  {
    var inverse := 1.0 / intent.price;
    QuotientSign(1.0, intent.price);
    QuotientTimes(1.0, intent.price);
    QuotientTimes(1.0, inverse);
    CancelFactor(inverse, 1.0 / inverse, intent.price);
  }

  /** XRP is cut to whole drops; an issued value must be positive. */
  function ToXRPLAmount(leg: Leg, value: real): Option<Amount> {
    if leg.Xrp? then Some(Drops((value * DROPS_PER_XRP).Floor))
    else if value <= 0.0 then None
    else Some(Issued(value))
  }

  function QuoteAmount(intent: Intent): real {
    intent.amount * intent.price
  }

  function BuildOfferCreate(intent: Intent): Option<Offer> {
    var quote := ToXRPLAmount(intent.quote, QuoteAmount(intent));
    var base := ToXRPLAmount(intent.base, intent.amount);
    if quote.None? || base.None? then None
    else if intent.side.Buy? then Some(Offer(quote.value, base.value))
    else Some(Offer(base.value, quote.value))
  }

  // ---------------------------------------------------------------- reading back

  function ParseIntentAmountValue(amount: Amount): Option<real> {
    match amount
    case Drops(drops) => if drops <= 0 then None else Some(drops as real / DROPS_PER_XRP)
    case Issued(value) => if value <= 0.0 then None else Some(value)
  }

  function ComputeImpliedOfferPriceQuotePerBase(offer: Offer, side: Side): (r: Option<real>)
    ensures r.Some? <==> ParseIntentAmountValue(offer.takerGets).Some? && ParseIntentAmountValue(offer.takerPays).Some?
    ensures r.Some? ==> r.value > 0.0
  {
    var takerGets := ParseIntentAmountValue(offer.takerGets);
    var takerPays := ParseIntentAmountValue(offer.takerPays);
    if takerGets.None? || takerPays.None? then None
    else
      var base := if side.Buy? then takerPays.value else takerGets.value;
      var quote := if side.Buy? then takerGets.value else takerPays.value;
      QuotientSign(quote, base);
      Some(quote / base)
  }

  function ComputeAbsoluteDiffBps(reference: real, observed: real): Option<real> {
    if reference <= 0.0 then None else Some(Abs((observed - reference) / reference * 10000.0))
  }

  /** The price read back from the offer built for an intent. */
  function Recovered(intent: Intent): Option<real> {
    var offer := BuildOfferCreate(intent);
    if offer.None? then None else ComputeImpliedOfferPriceQuotePerBase(offer.value, intent.side)
  }

  ghost predicate WellFormed(intent: Intent) {
    intent.amount > 0.0 && intent.price > 0.0
  }

  lemma BuildShape(intent: Intent)
    requires ToXRPLAmount(intent.quote, QuoteAmount(intent)).Some? && ToXRPLAmount(intent.base, intent.amount).Some?
    ensures var quote := ToXRPLAmount(intent.quote, QuoteAmount(intent)).value;
            var base := ToXRPLAmount(intent.base, intent.amount).value;
            BuildOfferCreate(intent) == Some(if intent.side.Buy? then Offer(quote, base) else Offer(base, quote))
  {
    hide QuoteAmount, ToXRPLAmount;
  }

  lemma ImpliedShape(base: Amount, quote: Amount, side: Side)
    ensures var offer := if side.Buy? then Offer(quote, base) else Offer(base, quote);
            var b, q := ParseIntentAmountValue(base), ParseIntentAmountValue(quote);
            ComputeImpliedOfferPriceQuotePerBase(offer, side)
            == if b.None? || q.None? || b.value == 0.0 then None else Some(q.value / b.value)
  {
    ParsedIsPositive(base);
    ParsedIsPositive(quote);
  }

  /** What is left of a value on a leg of the offer. */
  function OnLedger(leg: Leg, value: real): real {
    if leg.Xrp? then (value * DROPS_PER_XRP).Floor as real / DROPS_PER_XRP else value
  }

  /** Cutting to drops loses less than one drop, and keeps something exactly from one drop on. */
  lemma OnLedgerRange(leg: Leg, value: real)
    requires value > 0.0
    ensures value - ONE_DROP < OnLedger(leg, value) <= value
    ensures OnLedger(leg, value) > 0.0 <==> leg.Token? || value >= ONE_DROP
    ensures leg.Token? ==> OnLedger(leg, value) == value
  {
    if leg.Xrp? {
      var n := (value * DROPS_PER_XRP).Floor;
      if value >= ONE_DROP {
        assert n >= 1;
      } else {
        assert n <= 0;
      }
    }
  }

  lemma LegRoundTrip(leg: Leg, value: real)
    requires value > 0.0
    ensures ToXRPLAmount(leg, value).Some?
    ensures ParseIntentAmountValue(ToXRPLAmount(leg, value).value)
         == if OnLedger(leg, value) > 0.0 then Some(OnLedger(leg, value)) else None
  {
  }

  /**
   For either side, the offer of a well-formed intent can be built, and its price is the ratio of what the
   two legs keep; no price comes back exactly when an XRP leg is worth less than one drop.
   */
  lemma RecoveredIsLegRatio(intent: Intent)
    requires WellFormed(intent)
    ensures BuildOfferCreate(intent).Some?
    ensures var value := QuoteAmount(intent);
            var base, quote := OnLedger(intent.base, intent.amount), OnLedger(intent.quote, value);
            && (Recovered(intent).Some? <==> base > 0.0 && quote > 0.0)
            && (Recovered(intent).Some? ==> Recovered(intent).value == quote / base)
            && (Recovered(intent).Some? <==>
                  ((intent.base.Token? || intent.amount >= ONE_DROP) && (intent.quote.Token? || value >= ONE_DROP)))
  {
    hide OnLedger, ToXRPLAmount, ParseIntentAmountValue, BuildOfferCreate, ComputeImpliedOfferPriceQuotePerBase;
    var value := QuoteAmount(intent);
    PositiveProduct(intent.amount, intent.price);
    LegRoundTrip(intent.base, intent.amount);
    LegRoundTrip(intent.quote, value);
    OnLedgerRange(intent.base, intent.amount);
    OnLedgerRange(intent.quote, value);
    BuildShape(intent);
    ImpliedShape(ToXRPLAmount(intent.base, intent.amount).value, ToXRPLAmount(intent.quote, value).value, intent.side);
  }

  /** A leg on the ledger: whole drops, a million to one XRP, nothing rounded up; or the value itself. */
  predicate IsLeg(leg: Leg, value: real, a: Amount) {
    match a
    case Drops(drops) => leg == Xrp && drops as real <= value * 1000000.0 < drops as real + 1.0
    case Issued(v) => leg == Token && v == value && v > 0.0
  }

  /**
   The offer in the intent's numbers, for every intent: a BUY gives the quote and receives the base, a SELL the other
   way round; there is none exactly when an issued leg is not positive.
   */
  lemma OfferMeaning(intent: Intent, value: real)
    requires value == intent.amount * intent.price
    ensures var offer := BuildOfferCreate(intent);
            && (offer == None <==> (intent.base == Token && intent.amount <= 0.0)
                                   || (intent.quote == Token && value <= 0.0))
            && (offer.Some? && intent.side == Buy ==>
                  IsLeg(intent.quote, value, offer.value.takerGets)
                  && IsLeg(intent.base, intent.amount, offer.value.takerPays))
            && (offer.Some? && intent.side == Sell ==>
                  IsLeg(intent.base, intent.amount, offer.value.takerGets)
                  && IsLeg(intent.quote, value, offer.value.takerPays))
  {
    hide ToXRPLAmount, IsLeg;
    assert QuoteAmount(intent) == value;
    LegMeaning(intent.quote, value);
    LegMeaning(intent.base, intent.amount);
  }

  lemma LegMeaning(leg: Leg, value: real)
    ensures ToXRPLAmount(leg, value) == None <==> leg == Token && value <= 0.0
    ensures ToXRPLAmount(leg, value).Some? ==> IsLeg(leg, value, ToXRPLAmount(leg, value).value)
  {
  }

  // ---------------------------------------------------------------- how far off the price is

  lemma CancelFactor(p: real, x: real, y: real)
    requires p > 0.0 && p * x == p * y
    ensures x == y
  {
  }

  lemma CancelPositive(x: real, y: real, f: real)
    requires f > 0.0
    ensures x * f <= y * f <==> x <= y
  {
    if x <= y {
      ScaleLe(x, y, f);
    } else {
      PositiveProduct(x - y, f);
      assert (x - y) * f == x * f - y * f;
    }
  }

  /** The price if the base lost a whole drop, and the price if the value did. */
  function PriceIfBaseLosesDrop(price: real, amount: real): real
    requires amount > ONE_DROP
  {
    price * amount / (amount - ONE_DROP)
  }

  function PriceIfValueLosesDrop(price: real, amount: real): real
    requires amount > 0.0
  {
    price - ONE_DROP / amount
  }

  /** A price read from a base cut short: value unchanged, base less. */
  lemma CutBasePrice(price: real, amount: real, base: real, recovered: real)
    requires price > 0.0 && 0.0 < base <= amount && recovered * base == price * amount
    ensures price <= recovered
  {
    ScaleLe(base, amount, price);
    CancelPositive(price, recovered, base);
  }

  lemma CutBaseCap(price: real, amount: real, base: real, recovered: real)
    requires recovered > 0.0 && recovered * base == price * amount && amount > ONE_DROP && base > amount - ONE_DROP
    ensures recovered < PriceIfBaseLosesDrop(price, amount)
  {
    hide PriceIfBaseLosesDrop;
    CapTimes(price, amount);
    StrictlyScaled(amount - ONE_DROP, base, recovered);
    CancelPositive(PriceIfBaseLosesDrop(price, amount), recovered, amount - ONE_DROP);
  }

  lemma CapTimes(price: real, amount: real)
    requires amount > ONE_DROP
    ensures PriceIfBaseLosesDrop(price, amount) * (amount - ONE_DROP) == price * amount
  {
    QuotientTimes(price * amount, amount - ONE_DROP);
  }

  lemma StrictlyScaled(x: real, y: real, f: real)
    requires f > 0.0 && x < y
    ensures f * x < f * y
  {
    PositiveProduct(f, y - x);
    assert f * (y - x) == f * y - f * x;
  }

  /** A price read from a value cut short: base unchanged, value less. */
  lemma CutValuePrice(price: real, amount: real, value: real, kept: real, recovered: real)
    requires price > 0.0 && amount > 0.0 && value == amount * price
    requires value - ONE_DROP < kept <= value && recovered * amount == kept
    ensures PriceIfValueLosesDrop(price, amount) < recovered <= price
  {
    CancelPositive(recovered, price, amount);
    var drop := ONE_DROP / amount;
    QuotientTimes(ONE_DROP, amount);
    assert (price - drop) * amount == value - ONE_DROP;
    CancelPositive(recovered, price - drop, amount);
  }

  /**
   Round trip of the price, for either side: exact between issued currencies, never below the intended
   price when XRP is the base, never above it when XRP is the quote, and off by less than a drop's worth.
   */
  lemma PriceRoundTrip(intent: Intent)
    requires WellFormed(intent) && Recovered(intent).Some?
    ensures var price, amount, recovered := intent.price, intent.amount, Recovered(intent).value;
            && (intent.base.Token? && intent.quote.Token? ==> recovered == price)
            && (intent.base.Xrp? && intent.quote.Token? ==>
                  price <= recovered && (amount > ONE_DROP ==> recovered < PriceIfBaseLosesDrop(price, amount)))
            && (intent.base.Token? && intent.quote.Xrp? ==> PriceIfValueLosesDrop(price, amount) < recovered <= price)
  {
    hide OnLedger, Recovered, PriceIfBaseLosesDrop, PriceIfValueLosesDrop, QuoteAmount;
    var value := QuoteAmount(intent);
    var base, quote := OnLedger(intent.base, intent.amount), OnLedger(intent.quote, value);
    QuoteAmountPositive(intent);
    RecoveredIsLegRatio(intent);
    OnLedgerRange(intent.base, intent.amount);
    OnLedgerRange(intent.quote, value);
    QuotientTimes(quote, base);
    var recovered := Recovered(intent).value;
    if intent.base.Token? && intent.quote.Token? {
      CancelFactor(intent.amount, recovered, intent.price);
    } else if intent.quote.Token? {
      CutBasePrice(intent.price, intent.amount, base, recovered);
      if intent.amount > ONE_DROP {
        CutBaseCap(intent.price, intent.amount, base, recovered);
      }
    } else if intent.base.Token? {
      CutValuePrice(intent.price, intent.amount, value, quote, recovered);
    }
  }

  lemma QuoteAmountPositive(intent: Intent)
    requires WellFormed(intent)
    ensures QuoteAmount(intent) == intent.amount * intent.price > 0.0
  {
    PositiveProduct(intent.amount, intent.price);
  }

  /** Reading an offer with the other side gives the inverse price. */
  lemma OtherSideInverts(offer: Offer, side: Side)
    requires ComputeImpliedOfferPriceQuotePerBase(offer, side).Some?
    ensures var other := if side.Buy? then Side.Sell else Side.Buy;
            && ComputeImpliedOfferPriceQuotePerBase(offer, other).Some?
            && ComputeImpliedOfferPriceQuotePerBase(offer, side).value
               * ComputeImpliedOfferPriceQuotePerBase(offer, other).value == 1.0
  {
    hide ParseIntentAmountValue;
    var gets, pays := ParseIntentAmountValue(offer.takerGets).value, ParseIntentAmountValue(offer.takerPays).value;
    ParsedIsPositive(offer.takerGets);
    ParsedIsPositive(offer.takerPays);
    InverseQuotients(gets, pays);
  }

  lemma ParsedIsPositive(amount: Amount)
    ensures ParseIntentAmountValue(amount).Some? ==> ParseIntentAmountValue(amount).value > 0.0
  {
  }

  lemma InverseQuotients(a: real, b: real)
    requires a > 0.0 && b > 0.0
    ensures (a / b) * (b / a) == 1.0 && (b / a) * (a / b) == 1.0
  {
    var x, y := a / b, b / a;
    QuotientTimes(a, b);
    QuotientTimes(b, a);
    assert x * b == a && y * a == b;
    assert x * y * a == x * b;
    CancelFactor(a, x * y, 1.0);
  }

  // ---------------------------------------------------------------- the 2 bps sanity threshold

  /** The recovered price passes the sanity check against the intended one. */
  predicate WithinThreshold(intent: Intent)
    requires intent.price > 0.0 && Recovered(intent).Some?
  {
    ComputeAbsoluteDiffBps(intent.price, Recovered(intent).value).value <= SANITY_DEVIATION_THRESHOLD_BPS
  }

  /** Deviation of a price whose base was cut: it is the share of the base that was lost. */
  lemma CutBaseDeviation(price: real, amount: real, base: real, recovered: real)
    requires price > 0.0 && 0.0 < base <= amount && recovered * base == price * amount
    ensures ComputeAbsoluteDiffBps(price, recovered).value <= 2.0 <==> 10000.0 * (amount - base) <= 2.0 * base
  {
    CutBasePrice(price, amount, base, recovered);
    var share := (recovered - price) / price;
    QuotientTimes(recovered - price, price);
    ShareOfBase(price, amount, base, recovered, share);
    CancelPositive(0.0, share, price);
    ScaledThreshold(share, base, amount - base);
  }

  lemma ScaledThreshold(share: real, whole: real, lost: real)
    requires whole > 0.0 && share * whole == lost
    ensures 10000.0 * share <= 2.0 <==> 10000.0 * lost <= 2.0 * whole
  {
    CancelPositive(share, 0.0002, whole);
  }

  lemma ShareOfBase(price: real, amount: real, base: real, recovered: real, share: real)
    requires price > 0.0 && recovered * base == price * amount && share * price == recovered - price
    ensures share * base == amount - base
  {
    assert price * (share * base) == (share * price) * base;
    assert (share * price) * base == recovered * base - price * base;
    assert price * (amount - base) == price * amount - price * base;
    CancelFactor(price, share * base, amount - base);
  }

  /** Deviation of a price whose value was cut: it is the share of the value that was lost. */
  lemma CutValueDeviation(price: real, amount: real, value: real, kept: real, recovered: real)
    requires price > 0.0 && amount > 0.0 && value == amount * price && kept <= value && recovered * amount == kept
    ensures ComputeAbsoluteDiffBps(price, recovered).value <= 2.0 <==> 10000.0 * (value - kept) <= 2.0 * value
  {
    PositiveProduct(amount, price);
    CancelPositive(recovered, price, amount);
    var share := (recovered - price) / price;
    QuotientTimes(recovered - price, price);
    assert share * value == (share * price) * amount;
    assert (share * price) * amount == kept - value;
    CancelPositive(share, 0.0, price);
    var lost := -share;
    assert lost * value == value - kept;
    ScaledThreshold(lost, value, value - kept);
  }

  /**
   With XRP as base, drop rounding alone breaks the threshold exactly when it loses more than 1/5000 of the
   kept base.
   */
  lemma XrpBaseWithinIff(intent: Intent)
    requires WellFormed(intent) && intent.base.Xrp? && intent.quote.Token? && intent.amount >= ONE_DROP
    ensures Recovered(intent).Some?
    ensures var kept := OnLedger(Xrp, intent.amount);
            WithinThreshold(intent) <==> 10000.0 * (intent.amount - kept) <= 2.0 * kept
  {
    hide OnLedger, Recovered, ComputeAbsoluteDiffBps;
    var value, kept := QuoteAmount(intent), OnLedger(Xrp, intent.amount);
    PositiveProduct(intent.amount, intent.price);
    RecoveredIsLegRatio(intent);
    OnLedgerRange(Xrp, intent.amount);
    OnLedgerRange(Token, value);
    QuotientTimes(value, kept);
    CutBaseDeviation(intent.price, intent.amount, kept, Recovered(intent).value);
  }

  /** With XRP as quote, exactly when it loses more than 1/5000 of the value. */
  lemma XrpQuoteWithinIff(intent: Intent)
    requires WellFormed(intent) && intent.base.Token? && intent.quote.Xrp? && QuoteAmount(intent) >= ONE_DROP
    ensures Recovered(intent).Some?
    ensures var value := QuoteAmount(intent);
            WithinThreshold(intent) <==> 10000.0 * (value - OnLedger(Xrp, value)) <= 2.0 * value
  {
    hide OnLedger, Recovered, ComputeAbsoluteDiffBps;
    var value := QuoteAmount(intent);
    var kept := OnLedger(Xrp, value);
    RecoveredIsLegRatio(intent);
    OnLedgerRange(Token, intent.amount);
    OnLedgerRange(Xrp, value);
    QuotientTimes(kept, intent.amount);
    CutValueDeviation(intent.price, intent.amount, value, kept, Recovered(intent).value);
  }

  /** Every well-formed XRP-base intent of at least this amount gets its price back within the threshold. */
  ghost predicate SafeBaseAmount(minimum: real) {
    forall intent: Intent ::
      WellFormed(intent) && intent.base.Xrp? && intent.quote.Token? && intent.amount >= minimum ==>
        Recovered(intent).Some? && WithinThreshold(intent)
  }

  /** Every well-formed XRP-quote intent worth at least this value gets its price back within the threshold. */
  ghost predicate SafeQuoteValue(minimum: real) {
    forall intent: Intent ::
      WellFormed(intent) && intent.base.Token? && intent.quote.Xrp? && QuoteAmount(intent) >= minimum ==>
        Recovered(intent).Some? && WithinThreshold(intent)
  }

  lemma EnoughBase(amount: real)
    requires amount >= 0.005
    ensures 10000.0 * (amount - OnLedger(Xrp, amount)) <= 2.0 * OnLedger(Xrp, amount)
  {
    assert (amount * DROPS_PER_XRP).Floor >= 5000;
  }

  lemma TooLittleBase(amount: real)
    requires 0.0049999999 <= amount < 0.005
    ensures 10000.0 * (amount - OnLedger(Xrp, amount)) > 2.0 * OnLedger(Xrp, amount)
  {
    assert (amount * DROPS_PER_XRP).Floor == 4999;
  }

  lemma EnoughValue(value: real)
    requires value >= 0.004999
    ensures 10000.0 * (value - OnLedger(Xrp, value)) <= 2.0 * value
  {
    assert (value * DROPS_PER_XRP).Floor >= 4999;
  }

  lemma TooLittleValue(value: real)
    requires 0.0049989999 <= value < 0.004999
    ensures 10000.0 * (value - OnLedger(Xrp, value)) > 2.0 * value
  {
    assert (value * DROPS_PER_XRP).Floor == 4998;
  }

  /**
   Drop rounding alone never trips the threshold for XRP-base offers from 5000 drops on, and no smaller
   minimum will do.
   */
  lemma SafeBaseAmountIff(minimum: real)
    ensures SafeBaseAmount(minimum) <==> minimum >= 0.005
  {
    hide Recovered, OnLedger, WithinThreshold;
    if minimum >= 0.005 {
      forall intent: Intent
        | WellFormed(intent) && intent.base.Xrp? && intent.quote.Token? && intent.amount >= minimum
        ensures Recovered(intent).Some? && WithinThreshold(intent)
      {
        XrpBaseWithinIff(intent);
        EnoughBase(intent.amount);
      }
    } else {
      var intent := Intent(Xrp, Token, Buy, Max(minimum, 0.0049999999), 1.0);
      TooLittleBase(intent.amount);
      XrpBaseWithinIff(intent);
    }
  }

  /** For XRP-quote offers the exact minimum is one drop lower. */
  lemma SafeQuoteValueIff(minimum: real)
    ensures SafeQuoteValue(minimum) <==> minimum >= 0.004999
  {
    hide Recovered, OnLedger, WithinThreshold;
    if minimum >= 0.004999 {
      forall intent: Intent
        | WellFormed(intent) && intent.base.Token? && intent.quote.Xrp? && QuoteAmount(intent) >= minimum
        ensures Recovered(intent).Some? && WithinThreshold(intent)
      {
        XrpQuoteWithinIff(intent);
        EnoughValue(QuoteAmount(intent));
      }
    } else {
      var intent := Intent(Token, Xrp, Buy, Max(minimum, 0.0049989999), 1.0);
      TooLittleValue(intent.amount);
      assert QuoteAmount(intent) == intent.amount;
      XrpQuoteWithinIff(intent);
    }
  }
}
