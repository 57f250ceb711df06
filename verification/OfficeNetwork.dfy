/**
  Matching IPv4 addresses against CIDR rules with 32-bit shifts and masks, as bitwise
  operators work on numbers (sections 6.1.6.1 and 7.1 of ECMA-262).
*/
module OfficeNetwork {
  import opened Arithmetic
  import opened Common
  import opened Text16

  const TWO_32 := 0x1_0000_0000

  // ------------------------------------------------------ 32-bit operators

  function ToUint32(x: int): (r: int)
    ensures 0 <= r < TWO_32
  {
    x % TWO_32
  }

  function ToInt32(x: int): (r: int)
    ensures -0x8000_0000 <= r < 0x8000_0000
  {
    var u := ToUint32(x);
    if u >= 0x8000_0000 then u - TWO_32 else u
  }

  function Pow2(n: nat): (r: int)
    ensures r >= 1
  {
    if n == 0 then 1 else 2 * Pow2(n - 1)
  }

  /** `x << n`: the count is taken modulo 32 and the result is signed. */
  function ShiftLeft(x: int, n: nat): int {
    ToInt32(ToUint32(x) * Pow2(n % 32))
  }

  /** Bitwise conjunction of two naturals. */
  function And(x: nat, y: nat): nat
    decreases x
  {
    if x == 0 || y == 0 then 0 else (x % 2) * (y % 2) + 2 * And(x / 2, y / 2)
  }

  /** `x & y` on numbers: the result is signed. */
  function BitAnd(x: int, y: int): int {
    ToInt32(And(ToUint32(x), ToUint32(y)))
  }

  // -------------------------------------------------------------- addresses

  type Octet = x: int | 0 <= x < 256 witness 0

  datatype Address = Address(a: Octet, b: Octet, c: Octet, d: Octet)

  /** The base-256 value of an address. */
  function Value(ip: Address): (r: int)
    ensures 0 <= r < TWO_32
  {
    ((ip.a * 256 + ip.b) * 256 + ip.c) * 256 + ip.d
  }

  /** The fold over the octets, with its signed intermediate values. */
  function FoldOctet(acc: int, num: Octet): int {
    ShiftLeft(acc, 8) + num
  }

  function Ipv4ToInt(ip: Address): int {
    ToUint32(FoldOctet(FoldOctet(FoldOctet(FoldOctet(0, ip.a), ip.b), ip.c), ip.d))
  }

  lemma Pow2Values()
    ensures Pow2(8) == 256 && Pow2(31) == 0x8000_0000 && Pow2(32) == TWO_32
  {
    assert Pow2(4) == 16;
    assert Pow2(8) == 256;
    assert Pow2(12) == 4096;
    assert Pow2(16) == 65536;
    Pow2Sum(16, 16);
    assert Pow2(32) == 2 * Pow2(31);
  }

  lemma {:induction false} Pow2Sum(m: nat, n: nat)
    ensures Pow2(m + n) == Pow2(m) * Pow2(n)
  {
    if m > 0 {
      Pow2Sum(m - 1, n);
      assert Pow2(m + n) == 2 * Pow2(m - 1 + n);
    }
  }

  lemma ShiftByByte(acc: int)
    ensures ShiftLeft(acc, 8) == ToInt32(ToUint32(acc) * 256)
  {
    Pow2Values();
  }

  lemma FoldSmall(acc: int, num: Octet)
    requires 0 <= acc < 0x80_0000
    ensures FoldOctet(acc, num) == acc * 256 + num
  {
    hide ShiftLeft;
    ShiftByByte(acc);
  }

  /** The fold is the base-256 value for every address, although its last shift may come out negative. */
  lemma FoldIsValue(ip: Address)
    ensures Ipv4ToInt(ip) == Value(ip)
  {
    hide FoldOctet;
    FoldSmall(0, ip.a);
    FoldSmall(ip.a, ip.b);
    FoldSmall(ip.a * 256 + ip.b, ip.c);
    LastFold((ip.a * 256 + ip.b) * 256 + ip.c, ip.d);
  }

  lemma LastFold(acc: int, num: Octet)
    requires 0 <= acc < 0x100_0000
    ensures ToUint32(FoldOctet(acc, num)) == acc * 256 + num
  {
    hide ShiftLeft;
    ShiftByByte(acc);
  }

  /** The fold goes through a negative number for the upper half of the address space. */
  lemma FoldGoesNegative()
    ensures FoldOctet(0xC0_A8_01, 7) < 0
  {
    Pow2Values();
  }

  // ------------------------------------------------------------------ masks

  /** Mask with the given number of leading ones. */
  function Mask(bits: nat): (r: int)
    requires bits <= 32
    ensures 0 <= r < TWO_32
  {
    if bits == 0 then 0 else ToUint32(ShiftLeft(0xFFFF_FFFF, 32 - bits))
  }

  lemma UnsignedAgain(x: int)
    ensures ToUint32(ToInt32(x)) == ToUint32(x)
  {
  }

  lemma Pow2Bound(n: nat)
    requires n <= 32
    ensures 1 <= Pow2(n) <= TWO_32
  {
    hide Pow2;
    Pow2Values();
    Pow2Sum(n, 32 - n);
    MulMono(1, Pow2(32 - n), Pow2(n));
  }

  lemma MaskValue(bits: nat)
    requires bits <= 32
    ensures Mask(bits) == TWO_32 - Pow2(32 - bits)
  {
    hide Pow2;
    Pow2Values();
    if bits > 0 {
      var p := Pow2(32 - bits);
      Pow2Bound(32 - bits);
      UnsignedAgain(0xFFFF_FFFF * p);
      AllOnesTimes(p);
    }
  }

  lemma AllOnesTimes(p: int)
    requires 1 <= p <= TWO_32
    ensures ToUint32(0xFFFF_FFFF * p) == TWO_32 - p
  {
    assert 0xFFFF_FFFF * p == TWO_32 * (p - 1) + (TWO_32 - p);
  }

  lemma AndStep(x: nat, y: nat)
    ensures And(x, y) == (x % 2) * (y % 2) + 2 * And(x / 2, y / 2)
  {
  }

  lemma AndEven(x: nat, y: nat)
    ensures And(x, 2 * y) == 2 * And(x / 2, y)
  {
    hide And;
    assert 2 * y % 2 == 0 && 2 * y / 2 == y;
    AndStep(x, 2 * y);
  }

  lemma AndOdd(x: nat, y: nat)
    ensures And(x, 2 * y + 1) == x % 2 + 2 * And(x / 2, y)
  {
    hide And;
    assert (2 * y + 1) % 2 == 1 && (2 * y + 1) / 2 == y;
    AndStep(x, 2 * y + 1);
  }

  lemma {:induction false} AndAllOnes(x: nat, k: nat)
    requires x < Pow2(k)
    ensures And(x, Pow2(k) - 1) == x
    decreases k
  {
    if k > 0 {
      AndAllOnes(x / 2, k - 1);
      AndOdd(x, Pow2(k - 1) - 1);
    }
  }

  // Masking with ones above position `n` clears the low `n` bits.
  lemma {:induction false} AndHighOnes(x: nat, n: nat, k: nat)
    requires x < Pow2(n + k)
    ensures (Pow2(k) - 1) * Pow2(n) >= 0
    ensures And(x, (Pow2(k) - 1) * Pow2(n)) == x / Pow2(n) * Pow2(n)
    decreases n
  {
    hide And;
    if n > 0 {
      var p := Pow2(n - 1);
      AndHighOnes(x / 2, n - 1, k);
      TwiceProduct(Pow2(k) - 1, p);
      AndEven(x, (Pow2(k) - 1) * p);
      HalfThenDivide(x, p);
      TwiceProduct(x / 2 / p, p);
    } else {
      AndAllOnes(x, k);
    }
  }

  lemma TwiceProduct(a: int, p: int)
    ensures a * (2 * p) == 2 * (a * p)
  {
  }

  lemma HalfThenDivide(x: nat, p: int)
    requires p >= 1
    ensures x / (2 * p) == x / 2 / p
  {
    var q, r := x / 2 / p, x / 2 % p;
    assert x == 2 * (q * p + r) + x % 2;
    assert x == q * (2 * p) + (2 * r + x % 2);
    QuotientUnique(x, 2 * p, q, 2 * r + x % 2);
  }

  // ---------------------------------------------------------------- matching

  predicate IsIpInCidr(ip: Address, base: Address, bits: nat)
    requires bits <= 32
  {
    BitAnd(Ipv4ToInt(ip), Mask(bits)) == BitAnd(Ipv4ToInt(base), Mask(bits))
  }

  /** The block of a prefix: the addresses that agree after dropping the host bits
      (section 3.1 of RFC 4632). */
  predicate SameBlock(ip: Address, base: Address, bits: nat)
    requires bits <= 32
  {
    Value(ip) / Pow2(32 - bits) == Value(base) / Pow2(32 - bits)
  }

  lemma MaskedValue(ip: Address, bits: nat)
    requires bits <= 32
    ensures And(Value(ip), Mask(bits)) == Value(ip) / Pow2(32 - bits) * Pow2(32 - bits)
    ensures 0 <= And(Value(ip), Mask(bits)) < TWO_32
  {
    hide And, Value, Mask;
    var p := Pow2(32 - bits);
    MaskValue(bits);
    Pow2Values();
    Pow2Sum(bits, 32 - bits);
    assert (Pow2(bits) - 1) * p == TWO_32 - p by { OneLess(Pow2(bits), p); }
    AndHighOnes(Value(ip), 32 - bits, bits);
    FloorMultiple(Value(ip), p);
  }

  lemma OneLess(a: int, p: int)
    ensures (a - 1) * p == a * p - p
  {
  }

  lemma FloorMultiple(x: nat, p: int)
    requires p >= 1
    ensures 0 <= x / p * p <= x
  {
  }

  lemma ToInt32Injective(x: int, y: int)
    requires 0 <= x < TWO_32 && 0 <= y < TWO_32
    ensures ToInt32(x) == ToInt32(y) <==> x == y
  {
  }

  /** Shift-and-mask matching is exactly block membership, for every address pair and prefix length. */
  lemma MatchIsSameBlock(ip: Address, base: Address, bits: nat)
    requires bits <= 32
    ensures IsIpInCidr(ip, base, bits) <==> SameBlock(ip, base, bits)
  {
    hide And, Mask, Value, Pow2, ToInt32, ToUint32, Ipv4ToInt;
    var p := Pow2(32 - bits);
    FoldIsValue(ip);
    FoldIsValue(base);
    MaskedValue(ip, bits);
    MaskedValue(base, bits);
    BitAndUnsigned(Value(ip), Mask(bits));
    BitAndUnsigned(Value(base), Mask(bits));
    ToInt32Injective(And(Value(ip), Mask(bits)), And(Value(base), Mask(bits)));
    MultipleInjective(Value(ip) / p, Value(base) / p, p);
  }

  lemma BitAndUnsigned(x: int, y: int)
    requires 0 <= x < TWO_32 && 0 <= y < TWO_32
    ensures BitAnd(x, y) == ToInt32(And(x, y))
  {
    hide And, ToInt32;
    assert ToUint32(x) == x && ToUint32(y) == y;
  }

  lemma MultipleInjective(a: int, b: int, p: int)
    requires p >= 1
    ensures a * p == b * p <==> a == b
  {
    if a < b {
      MulStrict(a, b, p);
    } else if b < a {
      MulStrict(b, a, p);
    }
  }

  lemma MulStrict(a: int, b: int, p: int)
    requires a < b && p >= 1
    ensures a * p < b * p
  {
    MulMono(1, b - a, p);
    assert (b - a) * p == b * p - a * p;
  }

  /** The special case for a zero prefix is needed: a shift by 32 would leave the full mask. */
  lemma ShiftBy32Keeps(x: int)
    ensures ShiftLeft(x, 32) == ToInt32(x)
  {
  }

  /** A longer prefix's block lies inside the shorter one's. */
  lemma LongerPrefixNests(ip: Address, base: Address, short: nat, long: nat)
    requires short <= long <= 32 && IsIpInCidr(ip, base, long)
    ensures IsIpInCidr(ip, base, short)
  {
    hide IsIpInCidr, Value, Pow2;
    MatchIsSameBlock(ip, base, long);
    MatchIsSameBlock(ip, base, short);
    var p, q := Pow2(32 - long), Pow2(long - short);
    Pow2Sum(32 - long, long - short);
    DivideTwice(Value(ip), p, q);
    DivideTwice(Value(base), p, q);
  }

  lemma DivideTwice(x: int, p: int, q: int)
    requires p >= 1 && q >= 1
    ensures p * q >= 1 && x / (p * q) == x / p / q
  {
    var a, r, b, s := x / p, x % p, x / p / q, x / p % q;
    Regroup(b, q, s, p);
    MulMono(s, q - 1, p);
    OneLess(q, p);
    MulMono(1, q, p);
    QuotientUnique(x, p * q, b, s * p + r);
  }

  lemma Regroup(b: int, q: int, s: int, p: int)
    ensures (b * q + s) * p == b * (p * q) + s * p
  {
  }

  lemma MulMono(a: int, b: int, p: int)
    requires 0 <= a <= b && p >= 1
    ensures 0 <= a * p <= b * p
  {
  }

  // ------------------------------------------------------------------- texts

  const DOT: Unit := 0x2E
  const SLASH: Unit := 0x2F

  predicate IsIpv4(num: Reader, ip: Text) {
    |Split(ip, DOT)| == 4 && forall part | part in Split(ip, DOT) :: ReadsWithin(num, part, 255)
  }

  function AddressOf(num: Reader, ip: Text): Address
    requires IsIpv4(num, ip)
  {
    var parts := Split(ip, DOT);
    assert forall k | 0 <= k < 4 :: parts[k] in parts && ReadsWithin(num, parts[k], 255);
    Address(num(parts[0]).value, num(parts[1]).value, num(parts[2]).value, num(parts[3]).value)
  }

  function Dotted(a: Text, b: Text, c: Text, d: Text): Text {
    a + [DOT] + (b + [DOT] + (c + [DOT] + d))
  }

  lemma SplitDotted(a: Text, b: Text, c: Text, d: Text)
    requires DOT !in a && DOT !in b && DOT !in c && DOT !in d
    ensures Split(Dotted(a, b, c, d), DOT) == [a, b, c, d]
  {
    hide Split;
    SplitTwo(c, DOT, d);
    SplitCons(b, DOT, c + [DOT] + d);
    SplitCons(a, DOT, b + [DOT] + (c + [DOT] + d));
  }

  /** Four parts between dots are an address exactly when each reads as a number up to 255; the address is
      their value in base 256, the first part counting most. */
  lemma AddressOfParts(num: Reader, a: Text, b: Text, c: Text, d: Text)
    requires DOT !in a && DOT !in b && DOT !in c && DOT !in d
    ensures var ip := Dotted(a, b, c, d);
            var octets := forall part | part in [a, b, c, d] :: num(part).Some? && 0 <= num(part).value < 256;
            && (IsIpv4(num, ip) <==> octets)
            && (octets ==>
                  Ipv4ToInt(AddressOf(num, ip)) ==
                  num(a).value * 0x100_0000 + num(b).value * 0x1_0000 + num(c).value * 0x100 + num(d).value)
  {
    hide Dotted, Split, Ipv4ToInt;
    SplitDotted(a, b, c, d);
    if IsIpv4(num, Dotted(a, b, c, d)) {
      FoldIsValue(AddressOf(num, Dotted(a, b, c, d)));
    }
  }

  /** The address itself, or the tail of a mapped one. */
  function NormalizeIp(num: Reader, input: Text): (r: Option<Text>)
    ensures r.Some? ==> IsIpv4(num, r.value) && COLON !in r.value
  {
    var raw := Trim(input);
    if COLON in raw then
      SplitJoin(raw, COLON);
      var tail := Split(raw, COLON)[|Split(raw, COLON)| - 1];
      if IsIpv4(num, tail) then Some(tail) else None
    else if IsIpv4(num, raw) then Some(raw)
    else None
  }

  /** A normalised address is exactly an IPv4 address without a colon that is the trimmed input or what
      follows its last colon. */
  lemma NormalizeIpIff(num: Reader, input: Text, r: Text)
    ensures NormalizeIp(num, input) == Some(r)
       <==> IsIpv4(num, r) && COLON !in r && EndsIn(Trim(input), COLON, r)
  {
    hide Trim, IsIpv4, Split, EndsIn;
    if COLON !in Trim(input) {
      NoEnd(Trim(input), COLON, r);
    }
    SplitLast(Trim(input), COLON, r);
  }

  /** The rule's text is a block: a base address and a prefix length the program can read. */
  predicate IsBlock(num: Reader, cidr: Text) {
    && SLASH in cidr && Split(cidr, SLASH)[0] != [] && IsIpv4(num, Split(cidr, SLASH)[0])
    && ReadsWithin(num, Split(cidr, SLASH)[1], 32)
  }

  predicate RuleMatches(num: Reader, ip: Text, cidr: Text)
    requires IsIpv4(num, ip)
  {
    if SLASH !in cidr then ip == cidr
    else
      var parts := Split(cidr, SLASH);
      IsBlock(num, cidr) && IsIpInCidr(AddressOf(num, ip), AddressOf(num, parts[0]), num(parts[1]).value)
  }

  /** A rule matches an address exactly when it is the same text, or a readable block that holds the
      address. */
  lemma RuleMatchesIff(num: Reader, ip: Text, cidr: Text)
    requires IsIpv4(num, ip)
    ensures RuleMatches(num, ip, cidr)
       <==> if SLASH !in cidr then ip == cidr
            else IsBlock(num, cidr)
                 && SameBlock(AddressOf(num, ip), AddressOf(num, Split(cidr, SLASH)[0]),
                      num(Split(cidr, SLASH)[1]).value)
  {
    hide IsIpInCidr, SameBlock, AddressOf, IsIpv4, Split;
    if IsBlock(num, cidr) {
      MatchIsSameBlock(AddressOf(num, ip), AddressOf(num, Split(cidr, SLASH)[0]), num(Split(cidr, SLASH)[1]).value);
    }
  }

  /** A bare address matches no more than the same address as a block of length 32. */
  lemma BareRuleIsBlock32(num: Reader, ip: Text, cidr: Text, bits: Text)
    requires IsIpv4(num, ip) && SLASH !in cidr && SLASH !in bits && num(bits) == Some(32)
    requires RuleMatches(num, ip, cidr)
    ensures RuleMatches(num, ip, cidr + [SLASH] + bits)
  {
    hide IsIpInCidr, AddressOf, Split, IsIpv4;
    var rule := cidr + [SLASH] + bits;
    assert rule[|cidr|] == SLASH;
    SplitTwo(cidr, SLASH, bits);
    NotEmpty(num, ip);
    assert IsBlock(num, rule);
    RuleMatchesIff(num, ip, rule);
  }

  lemma NotEmpty(num: Reader, ip: Text)
    requires IsIpv4(num, ip)
    ensures ip != []
  {
    assert DOT in ip;
  }

  // ------------------------------------------------------------------- rules

  /** The decision: whether access is allowed, for which address, and by which rule. */
  datatype Decision = Decision(allowed: bool, sourceIp: Text, matchedRule: Option<Text>)

  predicate FirstMatch(num: Reader, ip: Text, rules: seq<Text>, i: nat)
    requires IsIpv4(num, ip) && i < |rules|
  {
    RuleMatches(num, ip, rules[i]) && forall k | 0 <= k < i :: !RuleMatches(num, ip, rules[k])
  }

  /** The first active rule, in creation order, that the address matches; refused exactly when none does.
      Without a readable IPv4 address there is no decision. */
  method CheckPolicy(num: Reader, requestIp: Option<Text>, queryIp: Option<Text>, rules: seq<Text>)
    returns (r: Result<Decision>)
    ensures var source := if queryIp.Some? then queryIp else requestIp;
            if source.None? || source.value == [] || NormalizeIp(num, source.value).None? then r == Failure(BadRequest)
            else
              var ip := NormalizeIp(num, source.value).value;
              && r.Success? && r.value.sourceIp == ip
              && (r.value.allowed <==> exists i :: 0 <= i < |rules| && RuleMatches(num, ip, rules[i]))
              && (r.value.matchedRule.Some? <==> r.value.allowed)
              && (r.value.allowed ==>
                    exists i :: 0 <= i < |rules| && r.value.matchedRule == Some(rules[i])
                        && FirstMatch(num, ip, rules, i))
  {
    hide RuleMatches, NormalizeIp;
    var sourceIp := if queryIp.Some? then queryIp else requestIp;
    if sourceIp.None? || sourceIp.value == [] {
      return Failure(BadRequest);
    }
    var normalizedIp := NormalizeIp(num, sourceIp.value);
    if normalizedIp.None? {
      return Failure(BadRequest);
    }
    for i := 0 to |rules|
      invariant forall k | 0 <= k < i :: !RuleMatches(num, normalizedIp.value, rules[k])
    {
      if RuleMatches(num, normalizedIp.value, rules[i]) {
        return Success(Decision(true, normalizedIp.value, Some(rules[i])));
      }
    }
    return Success(Decision(false, normalizedIp.value, None));
  }
}
