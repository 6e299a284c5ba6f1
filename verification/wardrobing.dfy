/** The deterministic part of the server's wardrobing (buy, use, return)
    risk model: the high-risk address test, the feature vector handed to the
    classifier, and the rule that labels a generated sample before noise is
    added. Addresses are 32-bit values, as the source and destination
    address fields of section 3.1 of RFC 791 are; amounts and ratios are
    reals. */
module Wardrobing {
  import opened Base

  type Octet = n: int | 0 <= n < 256
  type IPv4 = n: int | 0 <= n < 0x1_0000_0000

  /** The address written `a.b.c.d`. */
  function Dotted(a: Octet, b: Octet, c: Octet, d: Octet): IPv4
  {
    assert (a * 256 + b) * 256 + c <= 0xFF_FFFF;
    ((a * 256 + b) * 256 + c) * 256 + d
  }

  datatype IpRange = IpRange(start: IPv4, end: IPv4)

  /** Both endpoints belong to the range. */
  predicate InRange(r: IpRange, ip: IPv4)
  {
    r.start <= ip <= r.end
  }

  const HighRiskIpRanges: seq<IpRange> := [
    IpRange(Dotted(192, 168, 1, 0), Dotted(192, 168, 1, 255)),
    IpRange(Dotted(203, 0, 113, 0), Dotted(203, 0, 113, 255)),
    IpRange(Dotted(45, 134, 56, 0), Dotted(45, 134, 56, 255))
  ]

  /** The loop of `is_high_risk_ip` over a list of ranges: 1 at the first
      range holding the address, 0 when none does. */
  function RiskFlag(ranges: seq<IpRange>, ip: IPv4): (flag: int)
    ensures flag == 0 || flag == 1
    ensures flag == 1 <==> exists k :: 0 <= k < |ranges| && InRange(ranges[k], ip)
  {
    if |ranges| == 0 then 0
    else if InRange(ranges[0], ip) then 1
    else
      var rest := RiskFlag(ranges[1..], ip);
      assert forall k :: 1 <= k < |ranges| ==> ranges[k] == ranges[1..][k - 1];
      rest
  }

  function IsHighRiskIp(ip: IPv4): (flag: int)
    ensures flag == 0 || flag == 1
    ensures flag == 1 <==> exists k :: 0 <= k < |HighRiskIpRanges| && InRange(HighRiskIpRanges[k], ip)
  {
    RiskFlag(HighRiskIpRanges, ip)
  }

  /** The three listed blocks, spelled out. */
  lemma HighRiskIpExactly(ip: IPv4)
    ensures IsHighRiskIp(ip) == 1 <==>
      || 3232235776 <= ip <= 3232236031
      || 3405803776 <= ip <= 3405804031
      || 763770880 <= ip <= 763771135
    ensures IsHighRiskIp(ip) == 0 || IsHighRiskIp(ip) == 1
  {
    assert Dotted(192, 168, 1, 0) == 3232235776 && Dotted(192, 168, 1, 255) == 3232236031;
    assert Dotted(203, 0, 113, 0) == 3405803776 && Dotted(203, 0, 113, 255) == 3405804031;
    assert Dotted(45, 134, 56, 0) == 763770880 && Dotted(45, 134, 56, 255) == 763771135;
    var flag := IsHighRiskIp(ip);
    if flag == 1 {
      var k :| 0 <= k < 3 && InRange(HighRiskIpRanges[k], ip);
    } else {
      assert !InRange(HighRiskIpRanges[0], ip);
      assert !InRange(HighRiskIpRanges[1], ip);
      assert !InRange(HighRiskIpRanges[2], ip);
    }
  }

  /** Endpoints are inclusive: the sample user's 45.134.56.0 is high risk,
      the neighbours of the 192.168.1.0/24 block are not. */
  lemma HighRiskIpExamples()
    ensures IsHighRiskIp(Dotted(45, 134, 56, 0)) == 1
    ensures IsHighRiskIp(Dotted(203, 0, 113, 255)) == 1
    ensures IsHighRiskIp(Dotted(192, 168, 2, 0)) == 0
    ensures IsHighRiskIp(Dotted(192, 168, 0, 255)) == 0
  {
    HighRiskIpExactly(Dotted(45, 134, 56, 0));
    HighRiskIpExactly(Dotted(203, 0, 113, 255));
    HighRiskIpExactly(Dotted(192, 168, 2, 0));
    HighRiskIpExactly(Dotted(192, 168, 0, 255));
  }

  const PaymentMethodCodes: map<string, int> := map["credit_card" := 0, "paypal" := 1, "crypto" := 2]

  /** `payment_method_map.get(user_data.get("payment_method", "credit_card"), 0)`;
      None stands for a missing key or a hashable value that is not a string.
      An unhashable value (a list or a dict) makes the lookup raise, which is
      not modelled. */
  function PaymentCode(paymentMethod: Option<string>): (code: int)
    ensures code == 0 || code == 1 || code == 2
    ensures code == 1 <==> paymentMethod == Some("paypal")
    ensures code == 2 <==> paymentMethod == Some("crypto")
  {
    var name := match paymentMethod case None => "credit_card" case Some(m) => m;
    if name in PaymentMethodCodes then PaymentMethodCodes[name] else 0
  }

  /** A missing method and an unknown one both fall back to the credit-card
      code. */
  lemma PaymentCodeDefaults()
    ensures PaymentCode(None) == 0
    ensures PaymentCode(Some("credit_card")) == 0
    ensures PaymentCode(Some("bank_transfer")) == 0
  {
  }

  datatype UserData = UserData(
    ip: IPv4,
    amountReturned: real,
    amountBought: real,
    productsBought: real,
    productsReturned: real,
    numFailedAttempts: int,
    paymentMethod: Option<string>)

  /** Returned value over bought value, guarded against a zero or negative
      purchase history. */
  function ReturnRate(u: UserData): (rate: real)
    ensures !(u.productsBought > 0.0 && u.amountBought > 0.0) ==> rate == 0.0
    ensures u.productsBought > 0.0 && u.amountBought > 0.0 ==>
      rate * (u.productsBought * u.amountBought) == u.productsReturned * u.amountReturned
  {
    if u.productsBought > 0.0 && u.amountBought > 0.0 then
      (u.productsReturned * u.amountReturned) / (u.productsBought * u.amountBought)
    else 0.0
  }

  /** A user who returned no more than they bought, in both counts and
      amounts, has a return rate between 0 and 1. */
  lemma ReturnRateBounded(u: UserData)
    requires 0.0 <= u.productsReturned <= u.productsBought
    requires 0.0 <= u.amountReturned <= u.amountBought
    ensures 0.0 <= ReturnRate(u) <= 1.0
  {
    if u.productsBought > 0.0 && u.amountBought > 0.0 {
      var bought := u.productsBought * u.amountBought;
      var returned := u.productsReturned * u.amountReturned;
      ScaleMonotone(u.productsReturned, u.productsBought, u.amountReturned);
      ScaleMonotone(u.amountReturned, u.amountBought, u.productsBought);
      assert 0.0 <= returned <= u.productsBought * u.amountReturned <= bought;
      assert ReturnRate(u) * bought == returned;
      RatioBounded(ReturnRate(u), bought, returned);
    }
  }

  lemma ScaleMonotone(a: real, b: real, c: real)
    requires a <= b && 0.0 <= c
    ensures a * c <= b * c
  {
    assert b * c - a * c == (b - a) * c;
  }

  /** A ratio of a part to a positive whole lies in [0, 1]. */
  lemma RatioBounded(rate: real, whole: real, part: real)
    requires 0.0 < whole && 0.0 <= part <= whole && rate * whole == part
    ensures 0.0 <= rate <= 1.0
  {
    assert (1.0 - rate) * whole == whole - part;
  }

  /** The five classifier features, in the order of `preprocess_user_data`. */
  function PreprocessUserData(u: UserData): (features: seq<real>)
    ensures |features| == 5
    ensures features[0] == u.amountReturned && features[2] == u.numFailedAttempts as real
    ensures features[3] == ReturnRate(u)
    ensures features[1] == 0.0 || features[1] == 1.0
    ensures features[4] == 0.0 || features[4] == 1.0 || features[4] == 2.0
    ensures features[1] == 1.0 <==> exists k :: 0 <= k < |HighRiskIpRanges| && InRange(HighRiskIpRanges[k], u.ip)
    ensures features[3] == 0.0 || u.productsBought > 0.0
    ensures features[1] == IsHighRiskIp(u.ip) as real
    ensures features[4] == PaymentCode(u.paymentMethod) as real
  {
    [u.amountReturned,
     IsHighRiskIp(u.ip) as real,
     u.numFailedAttempts as real,
     ReturnRate(u),
     PaymentCode(u.paymentMethod) as real]
  }

  /** The sample user of the module. */
  const SampleUser: UserData := UserData(Dotted(45, 134, 56, 0), 10.0, 200.0, 5.0, 1.0, 0, None)

  lemma SampleUserFeatures()
    ensures PreprocessUserData(SampleUser) == [10.0, 1.0, 0.0, 0.01, 0.0]
  {
    HighRiskIpExamples();
    SampleUserReturnRate();
    PaymentCodeDefaults();
  }

  lemma SampleUserReturnRate()
    ensures ReturnRate(SampleUser) == 0.01
  {
    var u := SampleUser;
    assert u.productsBought * u.amountBought == 1000.0;
    assert u.productsReturned * u.amountReturned == 10.0;
  }

  /** The generator's label before the random flip: `ipFlag` is used for its
      Python truth value. */
  function FraudLabel(amount: real, failedAttempts: int, returnRate: real, ipFlag: int): (fraud: int)
    ensures fraud == 0 || fraud == 1
    ensures fraud == 0 <==> amount <= 1000.0 && failedAttempts <= 3 && returnRate <= 0.7 && ipFlag == 0
  {
    if amount > 1000.0 || failedAttempts > 3 || returnRate > 0.7 || ipFlag != 0 then 1 else 0
  }

  /** The label is 0 or 1 and is fraud exactly when one of the four signals
      fires; every threshold is strict. */
  lemma FraudLabelThresholds(amount: real, failedAttempts: int, returnRate: real, ipFlag: int)
    ensures FraudLabel(amount, failedAttempts, returnRate, ipFlag) == 0 || FraudLabel(amount, failedAttempts, returnRate, ipFlag) == 1
    ensures FraudLabel(1000.0, 3, 0.7, 0) == 0
    ensures amount <= 1000.0 && failedAttempts <= 3 && returnRate <= 0.7 && ipFlag == 0 ==>
      FraudLabel(amount, failedAttempts, returnRate, ipFlag) == 0
    ensures amount > 1000.0 || failedAttempts > 3 || returnRate > 0.7 || ipFlag != 0 ==>
      FraudLabel(amount, failedAttempts, returnRate, ipFlag) == 1
  {
  }

  /** Raising any signal never turns a fraud label into a non-fraud one. */
  lemma FraudLabelMonotone(a: real, f: int, r: real, ip: int, a': real, f': int, r': real, ip': int)
    requires a <= a' && f <= f' && r <= r'
    requires ip != 0 ==> ip' != 0
    ensures FraudLabel(a, f, r, ip) <= FraudLabel(a', f', r', ip')
  {
  }

  /** A sample from a listed block is always labelled fraud before noise,
      whatever its other signals. */
  lemma HighRiskIpAlwaysFraud(amount: real, failedAttempts: int, returnRate: real, ip: IPv4)
    requires exists k :: 0 <= k < |HighRiskIpRanges| && InRange(HighRiskIpRanges[k], ip)
    ensures FraudLabel(amount, failedAttempts, returnRate, IsHighRiskIp(ip)) == 1
  {
  }
}
