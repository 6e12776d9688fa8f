/** Prices of commodities, and what they mean for the requests two peers exchange. */
module Commodity {
  import opened Types
  import opened Debts
  import opened Floats

  /** The float64 constants written 0.00000002 and 0.1. */
  const FIFTY_MILLIONTH := Float(6_044_629_098_073_146, 0x4000_0000_0000_0000_0000)    // 2^78
  const TENTH := Float(7_205_759_403_792_794, 0x100_0000_0000_0000)                    // 2^56

  datatype Descriptor = Descriptor(unitPrice: Float, asset: string)

  const PPTOKEN := "pptoken"

  const PRICE_TABLE: map<string, map<string, Descriptor>> := map[
    "ipfs" := map["data" := Descriptor(FIFTY_MILLIONTH, PPTOKEN)],
    "tor" := map["data" := Descriptor(TENTH, PPTOKEN)],
    "http" := map["attention" := Descriptor(TENTH, PPTOKEN)]
  ]

  function Lookup(service: string, commodity: string): (r: Result<Descriptor>)
    ensures r.Ok? ==> (r.value.unitPrice == FIFTY_MILLIONTH || r.value.unitPrice == TENTH) && r.value.asset == PPTOKEN
  {
    if service !in PRICE_TABLE || commodity !in PRICE_TABLE[service] then Err(UnknownCommodity)
    else Ok(PRICE_TABLE[service][commodity])
  }

  /** The product of the unit price and a quantity, rounded to a float64 and cut to an
      integer. */
  function Product(price: Float, quantity: Amount): nat
    requires price.scale > 0
  {
    Truncate(Times(quantity, price))
  }

  /** The quotient of an amount by the unit price, likewise. */
  function Quotient(amount: Amount, price: Float): nat
    requires price.mantissa > 0
  {
    Truncate(DividedBy(Float(amount, 1), price))
  }

  /** `Calculate`. */
  function Calculate(service: string, commodity: string, quantity: Amount): Result<Amount> {
    match Lookup(service, commodity)
    case Err(e) => Err(e)
    case Ok(d) => Ok(ToU32(Product(d.unitPrice, quantity)))
  }

  /** `ReverseCalculate`; 32 bits of the quantity are kept. */
  function ReverseCalculate(service: string, commodity: string, price: Amount, asset: string): Result<Amount> {
    match Lookup(service, commodity)
    case Err(e) => Err(e)
    case Ok(d) => if d.asset != asset then Err(AssetMismatch) else Ok(ToU32(Quotient(price, d.unitPrice)))
  }

  // ----- Float64 prices behave like the fractions they are written as -----

  /** The number of units one token buys. */
  function PerToken(price: Float): nat {
    if price == FIFTY_MILLIONTH then 50_000_000 else 10
  }

  /** The two constants are the float64 numbers nearest to these fractions. */
  lemma PricesAreNearest()
    ensures RoundHalfEven(FIFTY_MILLIONTH.scale, 50_000_000) == FIFTY_MILLIONTH.mantissa
    ensures RoundHalfEven(TENTH.scale, 10) == TENTH.mantissa
    ensures DOUBLE_FLOOR <= FIFTY_MILLIONTH.mantissa < 2 * DOUBLE_FLOOR
    ensures DOUBLE_FLOOR <= TENTH.mantissa < 2 * DOUBLE_FLOOR
  {
  }

  /** The mantissa of a product, for `u` whole tokens' worth and `v` in addition, all times
      the scale `s`: it lies in the range that is cut to the whole tokens. */
  lemma ProductMantissa(price: Float, u: nat, v: nat, s: nat)
    requires price == FIFTY_MILLIONTH || price == TENTH
    requires s * price.mantissa > price.scale && u <= 429_496_730 * s && v <= (PerToken(price) - 1) * s
    requires price == FIFTY_MILLIONTH ==> u <= 86 * s
    ensures
      var n := PerToken(price);
      u <= RoundHalfEven((n * u + v) * price.mantissa, price.scale) < u + s
  {
    if price == TENTH { TenthMantissa(u, v, s); } else { FiftyMillionthMantissa(u, v, s); }
  }

  lemma TenthMantissa(u: nat, v: nat, s: nat)
    requires s * TENTH.mantissa > TENTH.scale && u <= 429_496_730 * s && v <= 9 * s
    ensures u <= RoundHalfEven((10 * u + v) * TENTH.mantissa, TENTH.scale) < u + s
  {
    RoundingBounds((10 * u + v) * TENTH.mantissa, TENTH.scale);
  }

  lemma FiftyMillionthMantissa(u: nat, v: nat, s: nat)
    requires s * FIFTY_MILLIONTH.mantissa > FIFTY_MILLIONTH.scale && u <= 86 * s && v <= 49_999_999 * s
    ensures u <= RoundHalfEven((50_000_000 * u + v) * FIFTY_MILLIONTH.mantissa, FIFTY_MILLIONTH.scale) < u + s
  {
    RoundingBounds((50_000_000 * u + v) * FIFTY_MILLIONTH.mantissa, FIFTY_MILLIONTH.scale);
  }

  lemma Regroup(n: nat, k: nat, r: nat, s: nat, num: nat, quantity: nat)
    requires quantity == k * n + r
    ensures (n * (k * s) + r * s) * num == quantity * num * s
  {
    assert n * (k * s) + r * s == quantity * s by {
      assert n * (k * s) == (k * n) * s;
      assert quantity * s == (k * n) * s + r * s;
    }
    assert quantity * num * s == quantity * s * num;
  }

  lemma Bounds(a: nat, aMax: nat, b: nat, bMax: nat, s: nat)
    requires a <= aMax && b <= bMax
    ensures a * s <= aMax * s && b * s <= bMax * s
  {
    MulMonotone(s, a, aMax);
    MulMonotone(s, b, bMax);
  }

  lemma ProductRange(price: Float, k: nat, r: nat, s: nat)
    requires price == FIFTY_MILLIONTH || price == TENTH
    requires s * price.mantissa > price.scale && r < PerToken(price)
    requires k <= if price == FIFTY_MILLIONTH then 86 else 429_496_730
    ensures
      var x := (PerToken(price) * (k * s) + r * s) * price.mantissa;
      k * s <= RoundHalfEven(x, price.scale) < k * s + s
  {
    if price == FIFTY_MILLIONTH {
      Bounds(k, 86, r, 49_999_999, s);
    } else {
      Bounds(k, 429_496_730, r, 9, s);
    }
    ProductMantissa(price, k * s, r * s, s);
  }

  /** So the price of a quantity is what a fraction would give, for every quantity. */
  lemma ProductIsExact(price: Float, quantity: Amount)
    requires price == FIFTY_MILLIONTH || price == TENTH
    ensures Product(price, quantity) == quantity / PerToken(price)
  {
    if quantity > 0 {
      var n, num, den := PerToken(price), price.mantissa, price.scale;
      var k, r := quantity / n, quantity % n;
      assert quantity == k * n + r;
      var s := Scale(quantity * num, den, DOUBLE_FLOOR);
      ProductScale(price, quantity, s);
      ProductRange(price, k, r, s);
      Regroup(n, k, r, s, num, quantity);
      QuotientIs(RoundHalfEven(quantity * num * s, den), s, k);
    }
  }

  lemma ProductScale(price: Float, quantity: Amount, s: nat)
    requires price == FIFTY_MILLIONTH || price == TENTH
    requires quantity * price.mantissa * s >= DOUBLE_FLOOR * price.scale
    ensures s * price.mantissa > price.scale
  {
    assert quantity * price.mantissa * s == quantity * (s * price.mantissa);
    MulMonotone(s * price.mantissa, quantity, U32);
  }

  lemma ScaledBy(amount: nat, n: nat, den: nat, s: nat)
    ensures amount * den * s == den * (amount * s) && n * (amount * s) == (amount * n) * s
  {
    assert amount * den * s == den * amount * s;
    assert n * (amount * s) == n * amount * s;
  }

  lemma QuotientFits(price: Float, amount: Amount)
    requires (price == FIFTY_MILLIONTH && amount <= 85) || (price == TENTH && amount <= 429_496_729)
    ensures amount * price.scale < 2 * (DOUBLE_FLOOR * price.mantissa)
  {
    MulMonotone(price.scale, amount, if price == TENTH then 429_496_729 else 85);
  }

  /** And the quantity a price stands for is the exact multiple, as long as it fits 32 bits. */
  lemma QuotientIsExact(price: Float, amount: Amount)
    requires (price == FIFTY_MILLIONTH && amount <= 85) || (price == TENTH && amount <= 429_496_729)
    ensures Quotient(amount, price) == amount * PerToken(price)
  {
    if amount > 0 {
      var n, num, den := PerToken(price), price.mantissa, price.scale;
      var s := Scale(amount * den, num, DOUBLE_FLOOR);
      QuotientFits(price, amount);
      ScaledBy(amount, n, den, s);
      QuotientMantissa(price, amount * s);
      QuotientIs(n * (amount * s), s, amount * n);
    }
  }

  lemma QuotientMantissa(price: Float, t: nat)
    requires price == FIFTY_MILLIONTH || price == TENTH
    requires price.scale * t < 2 * (DOUBLE_FLOOR * price.mantissa)
    ensures RoundHalfEven(price.scale * t, price.mantissa) == PerToken(price) * t
  {
    RoundsToMultiple(price.scale * t, price.mantissa, PerToken(price) * t);
  }

  /** The price list: what a quantity costs. */
  lemma PriceList(service: string, commodity: string, quantity: Amount)
    ensures
      var price := Calculate(service, commodity, quantity);
      && (service == "ipfs" && commodity == "data" ==> price == Ok(quantity / 50_000_000))
      && (service == "tor" && commodity == "data" ==> price == Ok(quantity / 10))
      && (service == "http" && commodity == "attention" ==> price == Ok(quantity / 10))
      && (!OnSale(service, commodity) ==> price == Err(UnknownCommodity))
  {
    OnSaleExactly(service, commodity);
    if OnSale(service, commodity) { CalculateIsExact(service, commodity, quantity); }
  }

  /** And what a price stands for, as long as that fits 32 bits. */
  lemma QuantityList(service: string, commodity: string, price: Amount, asset: string)
    ensures
      var quantity := ReverseCalculate(service, commodity, price, asset);
      && (!OnSale(service, commodity) ==> quantity == Err(UnknownCommodity))
      && (OnSale(service, commodity) && asset != "pptoken" ==> quantity == Err(AssetMismatch))
      && (OnSale(service, commodity) && asset == "pptoken" ==> quantity.Ok?)
      && (asset == "pptoken" && service == "ipfs" && commodity == "data" && price <= 85
          ==> quantity == Ok(price * 50_000_000))
      && (asset == "pptoken" && service == "tor" && commodity == "data" && price <= 429_496_729
          ==> quantity == Ok(price * 10))
      && (asset == "pptoken" && service == "http" && commodity == "attention" && price <= 429_496_729
          ==> quantity == Ok(price * 10))
  {
    OnSaleExactly(service, commodity);
    if OnSale(service, commodity) && asset == PPTOKEN {
      if service == "ipfs" {
        if price <= 85 { ReverseIsExact(service, commodity, price, price * 50_000_000); }
      } else if price <= 429_496_729 {
        ReverseIsExact(service, commodity, price, price * 10);
      }
    }
  }

  predicate OnSale(service: string, commodity: string) {
    || (service == "ipfs" && commodity == "data")
    || (service == "tor" && commodity == "data")
    || (service == "http" && commodity == "attention")
  }

  lemma OnSaleExactly(service: string, commodity: string)
    ensures Lookup(service, commodity)
         == if service == "ipfs" && commodity == "data" then Ok(Descriptor(FIFTY_MILLIONTH, PPTOKEN))
            else if OnSale(service, commodity) then Ok(Descriptor(TENTH, PPTOKEN))
            else Err(UnknownCommodity)
  {
  }

  lemma CalculateIsExact(service: string, commodity: string, quantity: Amount)
    requires Lookup(service, commodity).Ok?
    ensures Calculate(service, commodity, quantity)
         == Ok(quantity / PerToken(Lookup(service, commodity).value.unitPrice))
  {
    var unitPrice := Lookup(service, commodity).value.unitPrice;
    ProductIsExact(unitPrice, quantity);
    FitsAlready(quantity, PerToken(unitPrice));
  }

  lemma FitsAlready(quantity: Amount, n: nat)
    requires n == 50_000_000 || n == 10
    ensures quantity / n <= quantity && ToU32(quantity / n) == quantity / n
  {
  }

  lemma ReverseIsExact(service: string, commodity: string, price: Amount, quantity: Amount)
    requires Lookup(service, commodity).Ok? && quantity == price * PerToken(Lookup(service, commodity).value.unitPrice)
    ensures ReverseCalculate(service, commodity, price, PPTOKEN) == Ok(quantity)
  {
    var unitPrice := Lookup(service, commodity).value.unitPrice;
    AmountsThatFit(unitPrice, price, quantity);
    QuotientIsExact(unitPrice, price);
    KeptWhole(quantity);
  }

  lemma AmountsThatFit(price: Float, amount: Amount, quantity: Amount)
    requires (price == FIFTY_MILLIONTH || price == TENTH) && quantity == amount * PerToken(price)
    ensures amount <= if price == FIFTY_MILLIONTH then 85 else 429_496_729
  {
    if price == FIFTY_MILLIONTH { assert quantity == amount * 50_000_000; } else { assert quantity == amount * 10; }
  }

  lemma KeptWhole(quantity: Amount)
    ensures ToU32(quantity) == quantity
  {
  }

  lemma WholeTokens(quantity: Amount, n: nat)
    requires n == 50_000_000 || n == 10
    ensures quantity - n < quantity / n * n <= quantity
    ensures quantity / n * n == quantity <==> quantity % n == 0
  {
    assert quantity == quantity / n * n + quantity % n;
  }

  /** Pricing a quantity and going back gives at most the quantity, and loses less than
      what one token buys; it loses nothing exactly when the quantity is a multiple of it. */
  lemma ReverseInverts(service: string, commodity: string, quantity: Amount)
    requires Lookup(service, commodity).Ok?
    ensures
      var n := PerToken(Lookup(service, commodity).value.unitPrice);
      var back := ReverseCalculate(service, commodity, Calculate(service, commodity, quantity).value, PPTOKEN);
      && back == Ok(quantity / n * n)
      && quantity - n < back.value <= quantity
      && (back.value == quantity <==> quantity % n == 0)
  {
    var n := PerToken(Lookup(service, commodity).value.unitPrice);
    CalculateIsExact(service, commodity, quantity);
    WholeTokens(quantity, n);
    ReverseIsExact(service, commodity, quantity / n, quantity / n * n);
  }

  // ----- Two peers -----

  /** The quantity a peer reads out of the request for `bytes`. */
  function RequestedQuantity(bytes: Amount): Amount {
    ReverseCalculate("ipfs", "data", Calculate("ipfs", "data", bytes).value, PPTOKEN).value
  }

  /** What the event loops of the sender and the receiver are told when messages of these sizes
      pass between them. */
  function Sent(sizes: seq<Amount>, peer: Peer): (messages: seq<Message>)
    ensures |messages| == |sizes|
  {
    if sizes == [] then [] else Sent(sizes[..|sizes| - 1], peer) + [SentTo(peer, sizes[|sizes| - 1])]
  }

  function Got(sizes: seq<Amount>, peer: Peer): (messages: seq<Message>)
    ensures |messages| == |sizes|
  {
    if sizes == [] then [] else Got(sizes[..|sizes| - 1], peer) + [ReceivedFrom(peer, sizes[|sizes| - 1])]
  }

  /** What the sender has counted since its last request. */
  function Counted(sizes: seq<Amount>, peer: Peer): Amount {
    DebtOf(BookAfter(map[], Sent(sizes, peer)), peer).transferred
  }

  function Total(sizes: seq<Amount>): nat {
    if sizes == [] then 0 else Total(sizes[..|sizes| - 1]) + sizes[|sizes| - 1]
  }

  /** What the receiver's loop, which reads the quantity `read(bytes)` out of a request, makes of
      the one that a further message gives rise to at the sender's, if any. */
  function VerdictBy(read: Amount -> Amount, sizes: seq<Amount>, size: Amount, peer: Peer): Outcome {
    var asked := Handled(BookAfter(map[], Sent(sizes, peer)), SentTo(peer, size)).1;
    if asked.Request?
    then Handled(BookAfter(map[], Got(sizes + [size], peer)), RequestBy(peer, read(asked.amount))).1
    else Quiet
  }

  function Verdict(sizes: seq<Amount>, size: Amount, peer: Peer): Outcome {
    VerdictBy(RequestedQuantity, sizes, size, peer)
  }

  lemma {:induction false} AllReceived(sizes: seq<Amount>, peer: Peer)
    ensures BytesFrom(Got(sizes, peer), peer) == Total(sizes)
  {
    if sizes != [] {
      AllReceived(sizes[..|sizes| - 1], peer);
      assert Got(sizes, peer)[..|sizes| - 1] == Got(sizes[..|sizes| - 1], peer);
    }
  }

  /** The sender's loop at a further message: it asks at the threshold, and counts on otherwise. */
  lemma OneMoreSent(sizes: seq<Amount>, size: Amount, peer: Peer)
    ensures
      var bytes := Add(Counted(sizes, peer), size);
      && Handled(BookAfter(map[], Sent(sizes, peer)), SentTo(peer, size)).1
         == (if bytes >= REQUEST_PAYMENT_AFTER_BYTES then Request(bytes) else Quiet)
      && Counted(sizes + [size], peer) == (if bytes >= REQUEST_PAYMENT_AFTER_BYTES then 0 else bytes)
  {
    KeptWhole(size);
    var more := sizes + [size];
    assert more[..|more| - 1] == sizes;
    assert Sent(more, peer)[..|more| - 1] == Sent(sizes, peer);
  }

  lemma {:induction false} CountedAtMost(sizes: seq<Amount>, peer: Peer)
    ensures Counted(sizes, peer) <= Total(sizes)
  {
    if sizes != [] {
      var front, size := sizes[..|sizes| - 1], sizes[|sizes| - 1];
      CountedAtMost(front, peer);
      OneMoreSent(front, size, peer);
      assert front + [size] == sizes;
    }
  }

  lemma IpfsDataIsPriced(bytes: Amount)
    ensures RequestedQuantity(bytes) == bytes / 50_000_000 * 50_000_000 <= bytes
  {
    ReverseInverts("ipfs", "data", bytes);
  }

  /** What the receiver's loop makes of a request after these messages. */
  lemma ReceiverSays(sizes: seq<Amount>, size: Amount, peer: Peer, quantity: Amount)
    ensures Handled(BookAfter(map[], Got(sizes + [size], peer)), RequestBy(peer, quantity)).1
         == if quantity > (Total(sizes) + size) % U32 then Stop else Process
  {
    var all := sizes + [size];
    ReceivedIsCounted(Got(all, peer), peer);
    AllReceived(all, peer);
    assert all[..|all| - 1] == sizes;
  }

  lemma VerdictByExactly(read: Amount -> Amount, sizes: seq<Amount>, size: Amount, peer: Peer)
    ensures
      var bytes := Add(Counted(sizes, peer), size);
      VerdictBy(read, sizes, size, peer)
      == if bytes < REQUEST_PAYMENT_AFTER_BYTES then Quiet
         else if read(bytes) > (Total(sizes) + size) % U32 then Stop
         else Process
  {
    OneMoreSent(sizes, size, peer);
    ReceiverSays(sizes, size, peer, read(Add(Counted(sizes, peer), size)));
  }

  /** The request of an honest sender is refused if and only if what it stands for exceeds
      the bytes received so far modulo 2^32. */
  lemma VerdictExactly(sizes: seq<Amount>, size: Amount, peer: Peer)
    ensures
      var bytes := Add(Counted(sizes, peer), size);
      && (Verdict(sizes, size, peer) == Stop
          <==> bytes >= REQUEST_PAYMENT_AFTER_BYTES && bytes / 50_000_000 * 50_000_000 > (Total(sizes) + size) % U32)
      && (Verdict(sizes, size, peer) == Quiet <==> bytes < REQUEST_PAYMENT_AFTER_BYTES)
  {
    IpfsDataIsPriced(Add(Counted(sizes, peer), size));
    VerdictByExactly(RequestedQuantity, sizes, size, peer);
  }

  lemma HonestByAccepted(read: Amount -> Amount, sizes: seq<Amount>, size: Amount, peer: Peer)
    requires Total(sizes) + size < U32 && forall b: Amount :: read(b) <= b
    ensures VerdictBy(read, sizes, size, peer) != Stop
  {
    VerdictByExactly(read, sizes, size, peer);
    CountedAtMost(sizes, peer);
  }

  /** So it is accepted as long as the receiver's 32-bit count does not wrap. */
  lemma HonestRequestsAccepted(sizes: seq<Amount>, size: Amount, peer: Peer)
    requires Total(sizes) + size < U32
    ensures Verdict(sizes, size, peer) != Stop
  {
    forall b: Amount ensures RequestedQuantity(b) <= b {
      IpfsDataIsPriced(b);
    }
    HonestByAccepted(RequestedQuantity, sizes, size, peer);
  }

  /** `k` messages that each reach the threshold. */
  function Full(k: nat): seq<Amount> {
    if k == 0 then [] else Full(k - 1) + [REQUEST_PAYMENT_AFTER_BYTES]
  }

  lemma {:induction false} FullMessages(k: nat, peer: Peer)
    ensures Counted(Full(k), peer) == 0 && Total(Full(k)) == 52_428_800 * k
  {
    if k > 0 {
      FullMessages(k - 1, peer);
      OneMoreSent(Full(k - 1), REQUEST_PAYMENT_AFTER_BYTES, peer);
      assert Full(k)[..|Full(k)| - 1] == Full(k - 1);
    }
  }

  lemma WrappedRun(peer: Peer) returns (sizes: seq<Amount>)
    ensures sizes == Full(81) + [38_234_496]
    ensures Counted(sizes, peer) == 38_234_496 && Total(sizes) == 4_284_967_296
  {
    sizes := Full(81) + [38_234_496];
    FullMessages(81, peer);
    OneMoreSent(Full(81), 38_234_496, peer);
    assert sizes[..|sizes| - 1] == Full(81);
  }

  lemma WrappedByRefuses(read: Amount -> Amount, sizes: seq<Amount>, peer: Peer)
    requires forall b: Amount :: read(b) == b / 50_000_000 * 50_000_000
    requires Counted(sizes, peer) == 38_234_496 && Total(sizes) == 4_284_967_296
    ensures VerdictBy(read, sizes, REQUEST_PAYMENT_AFTER_BYTES, peer) == Stop
  {
    VerdictByExactly(read, sizes, REQUEST_PAYMENT_AFTER_BYTES, peer);
  }

  /** Once it has wrapped they need not be: after 4 GiB in all, this one ends the receiver. */
  lemma WrappedCountRefuses(peer: Peer)
    ensures
      var sizes := Full(81) + [38_234_496];
      && Total(sizes) + REQUEST_PAYMENT_AFTER_BYTES >= U32
      && Verdict(sizes, REQUEST_PAYMENT_AFTER_BYTES, peer) == Stop
  {
    var sizes := WrappedRun(peer);
    forall b: Amount ensures RequestedQuantity(b) == b / 50_000_000 * 50_000_000 {
      IpfsDataIsPriced(b);
    }
    WrappedByRefuses(RequestedQuantity, sizes, peer);
  }
}
