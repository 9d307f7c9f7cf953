/** Bitrate units, their saturating conversion, their lossy printed form, and the
    aggregation of rate profiles over wrapping 64-bit integers. */
module Bitrate {
  import opened Prelude
  import opened Models

  const KBPS: int := 1_000
  const MBPS: int := 1_000_000
  const GBPS: int := 1_000_000_000

  // ---------- machine integers ----------

  function Wrap64(x: int): int64 {
    var m := x % TWO_TO_64;
    if m >= TWO_TO_63 then m - TWO_TO_64 else m
  }

  /** Wrapping adds a multiple of 2^64; by WrapUnique there is only one in range. */
  lemma WrapIs(x: int) returns (k: int)
    ensures Wrap64(x) == x + k * TWO_TO_64
  {
    k := -(x / TWO_TO_64);
    assert x % TWO_TO_64 == x + k * TWO_TO_64;
    if x % TWO_TO_64 >= TWO_TO_63 {
      k := k - 1;
    }
  }

  /** The uint64(x) conversion of an int64. */
  function ToUint64(x: int64): (r: uint64) {
    if x < 0 then x + TWO_TO_64 else x
  }

  lemma WrapUnique(x: int, y: int64, k: int)
    requires y == x + k * TWO_TO_64
    ensures Wrap64(x) == y
  {
    var w := Wrap64(x);
    var j := WrapIs(x);
    assert w - y == (j - k) * TWO_TO_64;
    assert -1 < j - k < 1;
  }

  lemma WrapAdd(x: int, y: int)
    ensures Wrap64(Wrap64(x) + y) == Wrap64(x + y)
  {
    var j := WrapIs(x);
    var k := WrapIs(Wrap64(x) + y);
    WrapUnique(x + y, Wrap64(Wrap64(x) + y), j + k);
  }

  // ---------- units ----------

  function ToLowerChar(c: char): char {
    if 'A' <= c <= 'Z' then (c as int + 32) as char else c
  }

  function ToLower(s: string): string {
    if s == [] then [] else [ToLowerChar(s[0])] + ToLower(s[1..])
  }

  /** Bits per second in one unit; an unknown unit counts as bps. */
  function UnitFactor(unit: string): int {
    var u := ToLower(unit);
    if u == "kbps" then KBPS else if u == "mbps" then MBPS else if u == "gbps" then GBPS else 1
  }

  /** The unit is this word, in capitals or not. */
  predicate Says(unit: string, word: string) {
    |unit| == |word| && forall i :: 0 <= i < |unit| ==>
      unit[i] == word[i] || ('A' <= unit[i] <= 'Z' && unit[i] as int + 32 == word[i] as int)
  }

  lemma UnitFactorIs(unit: string)
    ensures UnitFactor(unit) == if Says(unit, "kbps") then 1_000 else if Says(unit, "mbps") then 1_000_000
                                else if Says(unit, "gbps") then 1_000_000_000 else 1
  {
    LowerSays(unit, "kbps");
    LowerSays(unit, "mbps");
    LowerSays(unit, "gbps");
  }

  lemma LowerSays(unit: string, word: string)
    requires forall i :: 0 <= i < |word| ==> 'a' <= word[i] <= 'z'
    ensures ToLower(unit) == word <==> Says(unit, word)
  {
    LowerCharwise(unit);
  }

  lemma {:induction false} LowerCharwise(s: string)
    ensures |ToLower(s)| == |s| && forall i :: 0 <= i < |s| ==> ToLower(s)[i] == ToLowerChar(s[i])
  {
    if s != [] { LowerCharwise(s[1..]); }
  }

  function ConvertToBps(val: int64, unit: string): int64 {
    Wrap64(val * UnitFactor(unit))
  }

  /** The clamp deviceGroupPostHelper applies after the conversion. */
  function PostedRate(val: int64, unit: string): int64 {
    var bps := ConvertToBps(val, unit);
    if bps < 0 then MAX_INT64 else bps
  }

  function ConvertBitrateToInt32(bitrate: int64): int32 {
    if bitrate < 0 || bitrate > MAX_INT32 then MAX_INT32 else bitrate
  }

  function Min(a: int, b: int): int { if a <= b then a else b }

  lemma WrapSmall(x: int)
    requires -TWO_TO_63 <= x < TWO_TO_63
    ensures Wrap64(x) == x
  {
    WrapUnique(x, x, 0);
  }

  /** The clamp saturates a group rate exactly when the wrapped product still shows the
      overflow in its sign bit: a rate so large that it wraps to a small number is stored as
      that small number. */
  lemma PostedRateSaturatesIff(val: int64, unit: string)
    requires val >= 0
    ensures PostedRate(val, unit) == Min(val * UnitFactor(unit), MAX_INT64)
       <==> val * UnitFactor(unit) < TWO_TO_63 || ConvertToBps(val, unit) < 0
  {
    var exact := val * UnitFactor(unit);
    ProductOfHalf(val, unit);
    if exact < TWO_TO_63 {
      WrapSmall(exact);
    } else {
      WrapOfEven(exact, val * (UnitFactor(unit) / 2));
    }
  }

  /** A product with an even factor never wraps to the odd maximum. */
  lemma WrapOfEven(x: int, half: int)
    requires x == 2 * half
    ensures Wrap64(x) != MAX_INT64
  {
    var k := WrapIs(x);
    assert Wrap64(x) == 2 * (half + k * TWO_TO_63);
  }

  lemma UnitFactors(unit: string)
    ensures UnitFactor(unit) == 1 || UnitFactor(unit) == 2 * (UnitFactor(unit) / 2)
    ensures UnitFactor(unit) in {1, KBPS, MBPS, GBPS}
  {
  }

  lemma ProductOfHalf(val: int, unit: string)
    ensures UnitFactor(unit) != 1 ==> val * UnitFactor(unit) == 2 * (val * (UnitFactor(unit) / 2))
    ensures val >= 0 ==> val * UnitFactor(unit) >= val
    ensures -TWO_TO_31 <= val < TWO_TO_31 ==> -TWO_TO_63 <= val * UnitFactor(unit) < TWO_TO_63
    ensures val < 0 ==> val * UnitFactor(unit) < 0
  {
    hide UnitFactor;
    UnitFactors(unit);
    var f := UnitFactor(unit);
    if f == KBPS {
      assert val * f == val * KBPS;
    } else if f == MBPS {
      assert val * f == val * MBPS;
    } else if f == GBPS {
      assert val * f == val * GBPS;
    }
  }

  lemma PostedRateBelowTwoTo64(val: int64, unit: string)
    requires val >= 0 && val * UnitFactor(unit) < TWO_TO_64
    ensures PostedRate(val, unit) == Min(val * UnitFactor(unit), MAX_INT64)
  {
    var exact := val * UnitFactor(unit);
    ProductOfHalf(val, unit);
    if exact < TWO_TO_63 { WrapSmall(exact); } else { WrapUnique(exact, exact - TWO_TO_64, -1); }
  }

  /** 18 446 744 074 Gbps is accepted and stored as 290 448 384 bps. */
  lemma PostedRateCanWrap()
    ensures PostedRate(18_446_744_074, "Gbps") == 290_448_384
  {
    assert ToLower("Gbps") == "gbps" by {
      assert "Gbps"[1..] == "bps" && "bps"[1..] == "ps" && "ps"[1..] == "s";
      assert ToLower("s") == "s" && ToLower("ps") == "ps" && ToLower("bps") == "bps";
    }
    WrapUnique(18_446_744_074 * GBPS, 290_448_384, -1);
  }

  /** Application rates never wrap before they are clamped to 32 bits. */
  lemma RuleRateSaturates(val: int32, unit: string)
    ensures ConvertBitrateToInt32(ConvertToBps(val, unit))
         == if val < 0 then MAX_INT32 else Min(val * UnitFactor(unit), MAX_INT32)
  {
    ProductOfHalf(val, unit);
    WrapSmall(val * UnitFactor(unit));
  }

  function NormalizedRule(rule: Rule): Rule {
    rule.(uplink := ConvertBitrateToInt32(ConvertToBps(rule.uplink, rule.unit)),
          downlink := ConvertBitrateToInt32(ConvertToBps(rule.downlink, rule.unit)))
  }

  /** Each rate of a stored rule is its own posted rate in bps, cut off at 2^31 - 1, and nothing
      else of the rule changes. */
  lemma NormalizedRuleIs(r: Rule)
    ensures r.uplink >= 0 ==> NormalizedRule(r).uplink == Min(r.uplink * UnitFactor(r.unit), 0x7fff_ffff)
    ensures r.downlink >= 0 ==> NormalizedRule(r).downlink == Min(r.downlink * UnitFactor(r.unit), 0x7fff_ffff)
    ensures NormalizedRule(r).(uplink := r.uplink, downlink := r.downlink) == r
  {
    RuleRateSaturates(r.uplink, r.unit);
    RuleRateSaturates(r.downlink, r.unit);
  }

  /** Rewrites the rates of every rule in place; the unit text stays as it was. */
  method NormalizeApplicationFilteringRules(rules: array<Rule>)
    modifies rules
    ensures forall i :: 0 <= i < rules.Length ==> rules[i] == NormalizedRule(old(rules[i]))
  {
    for i := 0 to rules.Length
      invariant forall k :: 0 <= k < i ==> rules[k] == NormalizedRule(old(rules[k]))
      invariant forall k :: i <= k < rules.Length ==> rules[k] == old(rules[k])
    {
      var ul := ConvertToBps(rules[i].uplink, rules[i].unit);
      rules[i] := rules[i].(uplink := ConvertBitrateToInt32(ul));
      var dl := ConvertToBps(rules[i].downlink, rules[i].unit);
      rules[i] := rules[i].(downlink := ConvertBitrateToInt32(dl));
    }
  }

  function NormalizedDomain(d: IpDomain): IpDomain {
    match d.qos
    case None => d
    case Some(q) =>
      d.(qos := Some(q.(downlink := PostedRate(q.downlink, q.unit), uplink := PostedRate(q.uplink, q.unit))))
  }

  /** Each rate of a stored IP domain is its own posted rate in bps, cut off at 2^63 - 1 as long as
      the product is below 2^64, and nothing else of the domain changes. */
  lemma NormalizedDomainIs(d: IpDomain, q: Qos)
    requires d.qos == Some(q)
    ensures NormalizedDomain(d).qos.Some?
    ensures q.uplink >= 0 && q.uplink * UnitFactor(q.unit) < 0x1_0000_0000_0000_0000 ==>
              NormalizedDomain(d).qos.value.uplink == Min(q.uplink * UnitFactor(q.unit), 0x7fff_ffff_ffff_ffff)
    ensures q.downlink >= 0 && q.downlink * UnitFactor(q.unit) < 0x1_0000_0000_0000_0000 ==>
              NormalizedDomain(d).qos.value.downlink == Min(q.downlink * UnitFactor(q.unit), 0x7fff_ffff_ffff_ffff)
    ensures NormalizedDomain(d).qos.value.(uplink := q.uplink, downlink := q.downlink) == q
    ensures NormalizedDomain(d).(qos := d.qos) == d
  {
    if q.uplink >= 0 && q.uplink * UnitFactor(q.unit) < TWO_TO_64 { PostedRateBelowTwoTo64(q.uplink, q.unit); }
    if q.downlink >= 0 && q.downlink * UnitFactor(q.unit) < TWO_TO_64 { PostedRateBelowTwoTo64(q.downlink, q.unit); }
  }

  function NormalizedDomains(ds: seq<IpDomain>): (r: seq<IpDomain>)
    ensures |r| == |ds| && forall i :: 0 <= i < |ds| ==> r[i] == NormalizedDomain(ds[i])
  {
    seq(|ds|, i requires 0 <= i < |ds| => NormalizedDomain(ds[i]))
  }

  /** The loop at the head of deviceGroupPostHelper. */
  method NormalizeDomains(domains: array<IpDomain>)
    modifies domains
    ensures domains[..] == NormalizedDomains(old(domains[..]))
  {
    for i := 0 to domains.Length
      invariant forall k :: 0 <= k < i ==> domains[k] == NormalizedDomain(old(domains[k]))
      invariant forall k :: i <= k < domains.Length ==> domains[k] == old(domains[k])
    {
      if domains[i].qos.Some? {
        var q := domains[i].qos.value;
        var dl := ConvertToBps(q.downlink, q.unit);
        q := q.(downlink := if dl < 0 then MAX_INT64 else dl);
        var ul := ConvertToBps(q.uplink, q.unit);
        q := q.(uplink := if ul < 0 then MAX_INT64 else ul);
        domains[i] := domains[i].(qos := Some(q));
      }
    }
  }

  // ---------- printing ----------

  function Digit(d: int): char
    requires 0 <= d < 10
  {
    ('0' as int + d) as char
  }

  predicate IsDigit(c: char) { '0' <= c <= '9' }

  /** strconv.FormatUint(n, 10). */
  function FormatUint(n: nat): (s: string)
    ensures s != [] && forall c :: c in s ==> IsDigit(c)
  {
    if n < 10 then [Digit(n)] else FormatUint(n / 10) + [Digit(n % 10)]
  }

  /** strconv.Itoa. */
  function Itoa(n: int): string {
    if n < 0 then "-" + FormatUint(-n) else FormatUint(n)
  }

  function ConvertToString(val: uint64): string {
    var kb := val / 1_000;
    var mb := val / 1_000_000;
    var gb := val / 1_000_000_000;
    if gb != 0 then FormatUint(gb) + " Gbps"
    else if mb != 0 then FormatUint(mb) + " Mbps"
    else if kb != 0 then FormatUint(kb) + " Kbps"
    else FormatUint(val) + " bps"
  }

  /** Decimal value of a digit string. */
  function ParseUint(s: string): (n: nat)
    requires forall c :: c in s ==> IsDigit(c)
  {
    if s == [] then 0 else 
      assert IsDigit(s[|s| - 1]);
      ParseUint(s[..|s| - 1]) * 10 + (s[|s| - 1] as int - '0' as int)
  }

  lemma {:induction false} ParseFormatted(n: nat)
    ensures ParseUint(FormatUint(n)) == n
  {
    var s := FormatUint(n);
    if n < 10 {
      assert s[..|s| - 1] == [];
    } else {
      assert s[..|s| - 1] == FormatUint(n / 10);
      ParseFormatted(n / 10);
    }
  }

  /** A printed number has no leading zero, and reads back. */
  lemma {:induction false} PrintedNumber(n: nat)
    ensures |FormatUint(n)| > 1 ==> FormatUint(n)[0] != '0'
    ensures n > 0 ==> FormatUint(n)[0] != '0'
    ensures ParseUint(FormatUint(n)) == n
  {
    ParseFormatted(n);
    if n >= 10 { PrintedNumber(n / 10); }
  }

  /** Number of leading digits. */
  function DigitRun(s: string): (n: nat)
    ensures n <= |s| && forall c :: c in s[..n] ==> IsDigit(c)
  {
    if s == [] || !IsDigit(s[0]) then 0
    else
      var n := 1 + DigitRun(s[1..]);
      assert s[..n] == [s[0]] + s[1..][..n - 1];
      n
  }

  lemma {:induction false} DigitRunOf(digits: string, rest: string)
    requires forall c :: c in digits ==> IsDigit(c)
    requires rest == [] || !IsDigit(rest[0])
    ensures DigitRun(digits + rest) == |digits|
  {
    if digits == [] {
      assert digits + rest == rest;
    } else {
      assert (digits + rest)[1..] == digits[1..] + rest;
      DigitRunOf(digits[1..], rest);
    }
  }

  /** How a consumer reads a BitRate string (section 5.5.2 of 3GPP TS 29.571, integral
      part): digits, one space, unit. */
  function ReadRate(s: string): Option<int> {
    var n := DigitRun(s);
    if n == 0 || n >= |s| || s[n] != ' ' then None
    else
      var unit := s[n + 1..];
      if unit !in {"bps", "Kbps", "Mbps", "Gbps"} then None
      else
        var v := ParseUint(s[..n]);
        if v < TWO_TO_63 then Some(ConvertToBps(v, unit)) else None
  }

  /** The largest unit, in bps, not above v. */
  function UnitOf(v: nat): int {
    if v < KBPS then 1 else if v < MBPS then KBPS else if v < GBPS then MBPS else GBPS
  }

  function UnitName(factor: int): string {
    if factor == GBPS then "Gbps" else if factor == MBPS then "Mbps" else if factor == KBPS then "Kbps" else "bps"
  }

  lemma UnitNames()
    ensures UnitFactor("bps") == 1 && UnitFactor("Kbps") == KBPS
    ensures UnitFactor("Mbps") == MBPS && UnitFactor("Gbps") == GBPS
  {
    var tail := "bps";
    assert ToLower(tail) == tail by {
      assert tail[1..] == "ps" && "ps"[1..] == "s";
      assert ToLower("s") == "s" && ToLower("ps") == "ps";
    }
    assert "Kbps"[1..] == tail && "Mbps"[1..] == tail && "Gbps"[1..] == tail;
    assert ToLower("Kbps") == "kbps" && ToLower("Mbps") == "mbps" && ToLower("Gbps") == "gbps";
  }

  /** The printed form is the truncated count of the largest unit that fits, then the unit. */
  lemma PrintedForm(v: uint64)
    ensures ConvertToString(v) == FormatUint(v / UnitOf(v)) + " " + UnitName(UnitOf(v))
  {
    var n := FormatUint(v / UnitOf(v));
    assert n + " " + "Gbps" == n + " Gbps" && n + " " + "Mbps" == n + " Mbps";
    assert n + " " + "Kbps" == n + " Kbps" && n + " " + "bps" == n + " bps";
  }

  /** v cut down to a whole number of units. */
  function ReadBackValue(v: nat): int { v / UnitOf(v) * UnitOf(v) }

  lemma ReadBackBounds(v: nat)
    ensures 0 <= ReadBackValue(v) <= v && v - ReadBackValue(v) < UnitOf(v)
    ensures UnitOf(v) == 1 || UnitOf(v) <= ReadBackValue(v)
    ensures 0 <= v / UnitOf(v) <= v
    ensures ReadBackValue(v) == v <==> v % UnitOf(v) == 0
    ensures UnitOf(ReadBackValue(v)) == UnitOf(v)
    ensures ReadBackValue(v) / UnitOf(v) == v / UnitOf(v)
  {
    if v < KBPS {
      assert ReadBackValue(v) == v;
    } else if v < MBPS {
      assert ReadBackValue(v) == v / KBPS * KBPS;
    } else if v < GBPS {
      assert ReadBackValue(v) == v / MBPS * MBPS;
    } else {
      assert ReadBackValue(v) == v / GBPS * GBPS;
    }
  }

  lemma ReadBackIs(v: uint64)
    requires v <= MAX_INT64
    ensures ReadRate(ConvertToString(v)) == Some(ReadBackValue(v))
  {
    var u := UnitOf(v);
    var digits := FormatUint(v / u);
    var rest := " " + UnitName(u);
    PrintedForm(v);
    var s := digits + rest;
    assert digits + " " + UnitName(u) == s;
    DigitRunOf(digits, rest);
    assert s[..|digits|] == digits && s[|digits|] == ' ' && s[|digits| + 1..] == UnitName(u);
    ParseFormatted(v / u);
    UnitNames();
    ReadBackBounds(v);
    WrapSmall(v / u * u);
  }

  /** Printing loses less than one unit and never half of the rate, is exact below 1 Kbps
      and exactly on whole multiples of the unit, and printing again changes nothing. */
  lemma PrintedRateBounds(v: uint64)
    requires v <= MAX_INT64
    ensures ReadRate(ConvertToString(v)).Some?
    ensures var r := ReadRate(ConvertToString(v)).value;
      && 0 <= r <= v && v - r < UnitOf(v)
      && (v > 0 ==> v < 2 * r)
      && (v < 1_000 ==> r == v)
      && (r == v <==> v % UnitOf(v) == 0)
      && ConvertToString(r) == ConvertToString(v)
  {
    ReadBackIs(v);
    ReadBackBounds(v);
    PrintedForm(v);
    PrintedForm(ReadBackValue(v));
  }

  lemma PrintedRateMonotone(v: uint64, w: uint64)
    requires v <= w <= MAX_INT64
    ensures ReadRate(ConvertToString(v)).Some? && ReadRate(ConvertToString(w)).Some?
    ensures ReadRate(ConvertToString(v)).value <= ReadRate(ConvertToString(w)).value
  {
    ReadBackIs(v);
    ReadBackIs(w);
    ReadBackBounds(v);
    ReadBackBounds(w);
    if UnitOf(v) == UnitOf(w) {
      SameUnitMonotone(v, w);
    }
  }

  lemma SameUnitMonotone(v: nat, w: nat)
    requires v <= w && UnitOf(v) == UnitOf(w)
    ensures ReadBackValue(v) <= ReadBackValue(w)
  {
  }

  // ---------- aggregation ----------

  const NoQos := Qos(0, 0, "", None)

  /** The traffic class kept after meeting one more profile: the first one with the least QCI. */
  function Prefer(kept: Option<TrafficClass>, next: Option<TrafficClass>): Option<TrafficClass> {
    if next.None? then kept
    else if kept.None? || next.value.qci < kept.value.qci then next
    else kept
  }

  function Combine(a: Qos, b: Qos): Qos {
    Qos(Wrap64(a.uplink + b.uplink), Wrap64(a.downlink + b.downlink),
        if a.unit == "" then b.unit else a.unit,
        Prefer(a.trafficClass, b.trafficClass))
  }

  /** The value aggregateQoS computes. */
  function Aggregate(qs: seq<Qos>): Qos {
    if qs == [] then NoQos else Combine(Aggregate(qs[..|qs| - 1]), qs[|qs| - 1])
  }

  method AggregateQoS(qs: seq<Qos>) returns (aggregated: Qos)
    ensures aggregated == Aggregate(qs)
  {
    hide Wrap64;
    aggregated := NoQos;
    if |qs| == 0 { return; }
    for i := 0 to |qs|
      invariant aggregated == Aggregate(qs[..i])
    {
      assert qs[..i + 1][..i] == qs[..i] && qs[..i + 1][i] == qs[i];
      var q := qs[i];
      aggregated := aggregated.(uplink := Wrap64(aggregated.uplink + q.uplink),
                                downlink := Wrap64(aggregated.downlink + q.downlink));
      if aggregated.unit == "" && q.unit != "" {
        aggregated := aggregated.(unit := q.unit);
      }
      if q.trafficClass.Some? {
        if aggregated.trafficClass.None? {
          aggregated := aggregated.(trafficClass := q.trafficClass);
        } else if q.trafficClass.value.qci < aggregated.trafficClass.value.qci {
          aggregated := aggregated.(trafficClass := q.trafficClass);
        }
      }
    }
    assert qs[..|qs|] == qs;
  }

  lemma WrapAddAssociative(x: int, y: int, z: int)
    ensures Wrap64(Wrap64(x + y) + z) == Wrap64(x + Wrap64(y + z))
  {
    WrapAdd(x + y, z);
    WrapAdd(y + z, x);
    assert x + Wrap64(y + z) == Wrap64(y + z) + x && y + z + x == x + y + z;
  }

  lemma PreferAssociative(x: Option<TrafficClass>, y: Option<TrafficClass>, z: Option<TrafficClass>)
    ensures Prefer(Prefer(x, y), z) == Prefer(x, Prefer(y, z))
  {
  }

  lemma CombineAssociative(a: Qos, b: Qos, c: Qos)
    ensures Combine(Combine(a, b), c) == Combine(a, Combine(b, c))
  {
    hide Wrap64, Prefer;
    PreferAssociative(a.trafficClass, b.trafficClass, c.trafficClass);
    WrapAddAssociative(a.uplink, b.uplink, c.uplink);
    WrapAddAssociative(a.downlink, b.downlink, c.downlink);
  }

  lemma CombineUnit(a: Qos)
    ensures Combine(a, NoQos) == a
  {
    WrapSmall(a.uplink);
    WrapSmall(a.downlink);
  }

  /** Aggregation turns concatenation into Combine. */
  lemma {:induction false} AggregateConcat(a: seq<Qos>, b: seq<Qos>)
    ensures Aggregate(a + b) == Combine(Aggregate(a), Aggregate(b))
  {
    if b == [] {
      assert a + b == a;
      CombineUnit(Aggregate(a));
    } else {
      var front, last := b[..|b| - 1], b[|b| - 1];
      assert (a + b)[..|a + b| - 1] == a + front;
      AggregateConcat(a, front);
      CombineAssociative(Aggregate(a), Aggregate(front), last);
    }
  }

  function SumUplink(qs: seq<Qos>): int {
    if qs == [] then 0 else SumUplink(qs[..|qs| - 1]) + qs[|qs| - 1].uplink
  }

  function SumDownlink(qs: seq<Qos>): int {
    if qs == [] then 0 else SumDownlink(qs[..|qs| - 1]) + qs[|qs| - 1].downlink
  }

  lemma {:induction false} AggregateRates(qs: seq<Qos>)
    ensures Aggregate(qs).uplink == Wrap64(SumUplink(qs))
    ensures Aggregate(qs).downlink == Wrap64(SumDownlink(qs))
  {
    if qs == [] {
      WrapSmall(0);
    } else {
      var front, last := qs[..|qs| - 1], qs[|qs| - 1];
      AggregateRates(front);
      WrapAdd(SumUplink(front), last.uplink);
      WrapAdd(SumDownlink(front), last.downlink);
    }
  }

  /** The rate printed from the wrapped sum is the exact total as long as it fits 64 unsigned bits. */
  lemma AggregateTotalExact(qs: seq<Qos>)
    requires forall q :: q in qs ==> q.uplink >= 0 && q.downlink >= 0
    ensures SumUplink(qs) < TWO_TO_64 ==> ToUint64(Aggregate(qs).uplink) == SumUplink(qs)
    ensures SumDownlink(qs) < TWO_TO_64 ==> ToUint64(Aggregate(qs).downlink) == SumDownlink(qs)
  {
    AggregateRates(qs);
    SumsNonNegative(qs);
    WrapThenUnsigned(SumUplink(qs));
    WrapThenUnsigned(SumDownlink(qs));
  }

  lemma WrapThenUnsigned(x: nat)
    ensures x < TWO_TO_64 ==> ToUint64(Wrap64(x)) == x
  {
    if x < TWO_TO_63 { WrapSmall(x); } else if x < TWO_TO_64 { WrapUnique(x, x - TWO_TO_64, -1); }
  }

  lemma SumsNonNegative(qs: seq<Qos>)
    requires forall q :: q in qs ==> q.uplink >= 0 && q.downlink >= 0
    ensures SumUplink(qs) >= 0 && SumDownlink(qs) >= 0
  {
    if qs != [] {
      SumsNonNegative(qs[..|qs| - 1]);
    }
  }

  /** The kept class has the least QCI of all profiles that have a class, and belongs to the
      first profile with that QCI; it is missing only if every profile lacks one. */
  ghost predicate FirstLeastQci(qs: seq<Qos>, kept: Option<TrafficClass>) {
    match kept
    case None => forall q :: q in qs ==> q.trafficClass.None?
    case Some(t) =>
      exists i :: 0 <= i < |qs| && qs[i].trafficClass == kept
        && (forall j :: 0 <= j < |qs| && qs[j].trafficClass.Some? ==> t.qci <= qs[j].trafficClass.value.qci)
        && (forall j :: 0 <= j < i && qs[j].trafficClass.Some? ==> t.qci < qs[j].trafficClass.value.qci)
  }

  lemma {:induction false} AggregateKeepsFirstLeastQci(qs: seq<Qos>)
    ensures FirstLeastQci(qs, Aggregate(qs).trafficClass)
  {
    if qs != [] {
      var n := |qs| - 1;
      var front, last := qs[..n], qs[n];
      AggregateKeepsFirstLeastQci(front);
      var kept := Aggregate(front).trafficClass;
      assert forall j :: 0 <= j < n ==> front[j] == qs[j];
      if kept.Some? {
        var i :| 0 <= i < n && front[i].trafficClass == kept
          && (forall j :: 0 <= j < n && front[j].trafficClass.Some? ==> kept.value.qci <= front[j].trafficClass.value.qci)
          && (forall j :: 0 <= j < i && front[j].trafficClass.Some? ==> kept.value.qci < front[j].trafficClass.value.qci);
        assert qs[i].trafficClass == kept;
      } else {
        assert forall j :: 0 <= j < n ==> front[j] in front && qs[j].trafficClass.None?;
      }
      assert qs[n].trafficClass == last.trafficClass;
    }
  }

  lemma {:induction false} AggregateKeepsFirstUnit(qs: seq<Qos>)
    ensures (forall q :: q in qs ==> q.unit == "") ==> Aggregate(qs).unit == ""
    ensures forall i :: 0 <= i < |qs| && qs[i].unit != "" && (forall j :: 0 <= j < i ==> qs[j].unit == "")
              ==> Aggregate(qs).unit == qs[i].unit
  {
    if qs != [] {
      var front := qs[..|qs| - 1];
      AggregateKeepsFirstUnit(front);
      assert forall j :: 0 <= j < |front| ==> front[j] == qs[j];
    }
  }

  /** Rates and the least QCI do not depend on the order in which a map hands out its lists. */
  lemma {:induction false} AggregatePermutation(a: seq<Qos>, b: seq<Qos>)
    requires multiset(a) == multiset(b)
    ensures Aggregate(a).uplink == Aggregate(b).uplink
    ensures Aggregate(a).downlink == Aggregate(b).downlink
    ensures Aggregate(a).trafficClass.Some? == Aggregate(b).trafficClass.Some?
    ensures Aggregate(a).trafficClass.Some?
        ==> Aggregate(a).trafficClass.value.qci == Aggregate(b).trafficClass.value.qci
  {
    AggregateRates(a);
    AggregateRates(b);
    SumsPermutation(a, b);
    AggregateKeepsFirstLeastQci(a);
    AggregateKeepsFirstLeastQci(b);
    forall q ensures q in a <==> q in b {
      assert q in a <==> q in multiset(a);
      assert q in b <==> q in multiset(b);
    }
    var s, t := Aggregate(a).trafficClass, Aggregate(b).trafficClass;
    if s.Some? { assert exists q :: q in a && q.trafficClass == s; }
    if t.Some? { assert exists q :: q in b && q.trafficClass == t; }
  }

  lemma {:induction false} SumsPermutation(a: seq<Qos>, b: seq<Qos>)
    requires multiset(a) == multiset(b)
    ensures SumUplink(a) == SumUplink(b) && SumDownlink(a) == SumDownlink(b)
  {
    assert |a| == |multiset(a)| == |multiset(b)| == |b|;
    if a != [] {
      var i := FindLast(a, b);
      SumsPermutation(a[..|a| - 1], b[..i] + b[i + 1..]);
      SumsSplit(b, i);
    }
  }

  lemma {:induction false} SumsSplit(qs: seq<Qos>, i: nat)
    requires i < |qs|
    ensures SumUplink(qs) == SumUplink(qs[..i] + qs[i + 1..]) + qs[i].uplink
    ensures SumDownlink(qs) == SumDownlink(qs[..i] + qs[i + 1..]) + qs[i].downlink
  {
    var n := |qs| - 1;
    if i == n {
      assert qs[..i] + qs[i + 1..] == qs[..n];
    } else {
      var front := qs[..n];
      SumsSplit(front, i);
      var rest := qs[..i] + qs[i + 1..];
      assert rest[..|rest| - 1] == front[..i] + front[i + 1..];
      assert rest[|rest| - 1] == qs[n];
    }
  }
}
