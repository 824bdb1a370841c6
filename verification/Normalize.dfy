/** Turning a parsed request into comparable keys and a deadline. */
module Normalize {
  import opened Bytes
  import opened EngineTypes

  const NS_PER_MS: nat := 1_000_000
  const RESPONSE_SAFETY_MARGIN_NS: nat := 1_000_000

  // ---- Country ----

  function ToUpperAscii(character: byte): byte {
    if 'a' as int <= character <= 'z' as int then character - 32 else character
  }

  /** The 16-bit key of a two-byte code, upper-cased; 0, the null key, for anything else. */
  function NormalizeCountryKey(country: Text): (key: nat)
    ensures key < 0x1_0000
  {
    if |country| != 2 then 0 else ToUpperAscii(country[0]) as int * 0x100 + ToUpperAscii(country[1]) as int
  }

  /** Equal bytes, or the upper-case and the lower-case form of one ASCII letter. */
  predicate SameLetter(a: byte, b: byte) {
    a == b || (65 <= a <= 90 && b as int == a as int + 32) || (65 <= b <= 90 && a as int == b as int + 32)
  }

  /** Two-byte codes have the same key exactly when they agree position by position up to ASCII case. */
  lemma CountryKeysAgree(a: Text, b: Text)
    requires |a| == 2 && |b| == 2
    ensures NormalizeCountryKey(a) == NormalizeCountryKey(b) <==> SameLetter(a[0], b[0]) && SameLetter(a[1], b[1])
  {
    var p, q := NormalizeCountryKey(a), NormalizeCountryKey(b);
    assert p / 0x100 == ToUpperAscii(a[0]) && p % 0x100 == ToUpperAscii(a[1]);
    assert q / 0x100 == ToUpperAscii(b[0]) && q % 0x100 == ToUpperAscii(b[1]);
  }

  /** The key of an upper-case code is its two bytes, the first one high: "US" has 0x5553. */
  lemma CountryKeyOfUpperCase(country: Text)
    requires |country| == 2 && 65 <= country[0] <= 90 && 65 <= country[1] <= 90
    ensures NormalizeCountryKey(country) == country[0] as int * 256 + country[1] as int
  {}

  /** A country has the null key exactly when it is not two bytes long or is two NUL bytes. */
  lemma CountryKeyNull(country: Text)
    ensures NormalizeCountryKey(country) == 0 <==> |country| != 2 || (country[0] == 0 && country[1] == 0)
  {
    if |country| == 2 {
      assert ToUpperAscii(country[0]) == 0 <==> country[0] == 0;
    }
  }

  // ---- Device ----

  predicate IsConnectedTv(deviceType: Text) {
    deviceType == Ascii("ctv") || deviceType == Ascii("connected_tv")
  }

  function NormalizeDeviceTypeKey(deviceType: Text): DeviceTypeKey {
    if deviceType == Ascii("desktop") then Desktop
    else if deviceType == Ascii("mobile") then Mobile
    else if deviceType == Ascii("tablet") then Tablet
    else if IsConnectedTv(deviceType) then ConnectedTv
    else UnknownDevice
  }

  /** The five texts that are device types. */
  lemma DeviceKeys(deviceType: Text)
    ensures NormalizeDeviceTypeKey(deviceType) == Desktop <==> deviceType == Ascii("desktop")
    ensures NormalizeDeviceTypeKey(deviceType) == Mobile <==> deviceType == Ascii("mobile")
    ensures NormalizeDeviceTypeKey(deviceType) == Tablet <==> deviceType == Ascii("tablet")
    ensures NormalizeDeviceTypeKey(deviceType) == ConnectedTv <==>
            deviceType == Ascii("ctv") || deviceType == Ascii("connected_tv")
  {
    assert Ascii("mobile")[0] != Ascii("tablet")[0];
  }

  // ---- Ad slot: FNV-1a, 32 bit ----

  const FNV_OFFSET_BASIS: nat := 2166136261
  const FNV_PRIME: nat := 16777619
  const FNV_PRIME_INVERSE: nat := 0x359C449B

  /** Bitwise exclusive or of two unsigned numbers. */
  function Xor(a: nat, b: nat): nat
    decreases a + b
  {
    if a == 0 && b == 0 then 0 else 2 * Xor(a / 2, b / 2) + (a % 2 + b % 2) % 2
  }

  /** One byte hashed into a 32-bit state. */
  function FnvStep(value: nat, character: byte): (next: nat)
    ensures next < U32_LIMIT
  {
    Xor(value, character) * FNV_PRIME % U32_LIMIT
  }

  function FnvFrom(value: nat, text: Text): nat
    decreases |text|
  {
    if text == [] then value else FnvFrom(FnvStep(value, text[0]), text[1..])
  }

  function NormalizeAdSlotKey(adSlot: Text): nat {
    FnvFrom(FNV_OFFSET_BASIS, adSlot)
  }

  method HashAdSlot(adSlot: Text) returns (key: nat)
    ensures key == NormalizeAdSlotKey(adSlot)
  {
    key := FNV_OFFSET_BASIS;
    for i := 0 to |adSlot|
      invariant FnvFrom(key, adSlot[i..]) == NormalizeAdSlotKey(adSlot)
    {
      assert adSlot[i..][0] == adSlot[i] && adSlot[i..][1..] == adSlot[i + 1..];
      key := Xor(key, adSlot[i]) * FNV_PRIME % U32_LIMIT;
    }
  }

  lemma XorHalves(a: nat, b: nat)
    ensures Xor(a, b) / 2 == Xor(a / 2, b / 2) && Xor(a, b) % 2 == (a % 2 + b % 2) % 2
  {}

  lemma SameHalves(m: nat, n: nat)
    requires m / 2 == n / 2 && m % 2 == n % 2
    ensures m == n
  {}

  lemma TwiceTheSameBit(a: nat, b: nat)
    ensures ((a % 2 + b % 2) % 2 + b % 2) % 2 == a % 2
  {}

  lemma {:induction false} XorTwice(a: nat, b: nat)
    ensures Xor(Xor(a, b), b) == a
    decreases a + b
  {
    if a == 0 && b == 0 {
    } else {
      hide Xor;
      XorTwice(a / 2, b / 2);
      XorHalves(a, b);
      XorHalves(Xor(a, b), b);
      TwiceTheSameBit(a, b);
      SameHalves(Xor(Xor(a, b), b), a);
    }
  }

  lemma {:induction false} XorSymmetric(a: nat, b: nat)
    ensures Xor(a, b) == Xor(b, a)
    decreases a + b
  {
    if a != 0 || b != 0 {
      XorSymmetric(a / 2, b / 2);
    }
  }

  /** The explicit inverse of a hash step for its byte. */
  function FnvUnstep(next: nat, character: byte): nat {
    Xor(next * FNV_PRIME_INVERSE % U32_LIMIT, character)
  }

  lemma MulMod(a: nat, b: nat, k: nat)
    ensures (a + k * U32_LIMIT) * b % U32_LIMIT == a * b % U32_LIMIT
  {
    assert (a + k * U32_LIMIT) * b == a * b + U32_LIMIT * (k * b);
    ModAdd(a * b, k * b);
  }

  lemma ModAdd(x: nat, m: nat)
    ensures (x + U32_LIMIT * m) % U32_LIMIT == x % U32_LIMIT
  {
    if m > 0 {
      ModAdd(x, m - 1);
      var y := x + U32_LIMIT * (m - 1);
      assert x + U32_LIMIT * m == y + U32_LIMIT;
    }
  }

  /** Multiplying by the prime modulo 2^32 is undone by multiplying by its inverse. */
  lemma PrimeUndone(x: nat)
    requires x < U32_LIMIT
    ensures (x * FNV_PRIME % U32_LIMIT) * FNV_PRIME_INVERSE % U32_LIMIT == x
  {
    var product := x * FNV_PRIME;
    var low, high := product % U32_LIMIT, product / U32_LIMIT;
    assert product == low + high * U32_LIMIT;
    MulMod(low, FNV_PRIME_INVERSE, high);
    assert product * FNV_PRIME_INVERSE == x + U32_LIMIT * (x * 0x359C99);
    ModAdd(x, x * 0x359C99);
  }

  /** And the other way around: multiplying by the inverse is undone by multiplying by the prime. */
  lemma InverseUndone(x: nat)
    requires x < U32_LIMIT
    ensures (x * FNV_PRIME_INVERSE % U32_LIMIT) * FNV_PRIME % U32_LIMIT == x
  {
    var product := x * FNV_PRIME_INVERSE;
    var low, high := product % U32_LIMIT, product / U32_LIMIT;
    assert product == low + high * U32_LIMIT;
    MulMod(low, FNV_PRIME, high);
    assert product * FNV_PRIME == x + U32_LIMIT * (x * 0x359C99);
    ModAdd(x, x * 0x359C99);
  }

  function Pow2(k: nat): nat {
    if k == 0 then 1 else 2 * Pow2(k - 1)
  }

  lemma {:induction false} XorBelow(a: nat, b: nat, bits: nat)
    requires a < Pow2(bits) && b < Pow2(bits)
    ensures Xor(a, b) < Pow2(bits)
    decreases bits
  {
    if bits > 0 && (a != 0 || b != 0) {
      XorBelow(a / 2, b / 2, bits - 1);
    }
  }

  lemma Pow2Of32()
    ensures Pow2(32) == U32_LIMIT
  {
    assert Pow2(8) == 256;
    assert Pow2(16) == 0x100 * Pow2(8);
    assert Pow2(24) == 0x100 * Pow2(16);
    assert Pow2(32) == 0x100 * Pow2(24);
  }

  lemma XorWord(value: nat, character: byte)
    requires value < U32_LIMIT
    ensures Xor(value, character) < U32_LIMIT
  {
    Pow2Of32();
    XorBelow(value, character, 32);
  }

  /** For a fixed byte a hash step is a permutation of the 32-bit states: stepping and unstepping undo each other. */
  lemma FnvStepIsPermutation(value: nat, character: byte)
    requires value < U32_LIMIT
    ensures FnvUnstep(FnvStep(value, character), character) == value
    ensures FnvUnstep(value, character) < U32_LIMIT && FnvStep(FnvUnstep(value, character), character) == value
  {
    hide Xor;
    XorWord(value, character);
    PrimeUndone(Xor(value, character));
    XorTwice(value, character);
    var product := value * FNV_PRIME_INVERSE % U32_LIMIT;
    XorWord(product, character);
    XorTwice(product, character);
    InverseUndone(value);
  }

  lemma FnvStepInjective(v: nat, w: nat, character: byte)
    requires v < U32_LIMIT && w < U32_LIMIT && FnvStep(v, character) == FnvStep(w, character)
    ensures v == w
  {
    FnvStepIsPermutation(v, character);
    FnvStepIsPermutation(w, character);
  }

  /** From one state, different bytes lead to different states. */
  lemma FnvStepSeparatesBytes(value: nat, c: byte, d: byte)
    requires value < U32_LIMIT && FnvStep(value, c) == FnvStep(value, d)
    ensures c == d
  {
    XorWord(value, c);
    XorWord(value, d);
    PrimeUndone(Xor(value, c));
    PrimeUndone(Xor(value, d));
    XorSymmetric(value, c);
    XorSymmetric(value, d);
    XorTwice(c, value);
    XorTwice(d, value);
  }

  lemma {:induction false} FnvFromBelow(value: nat, text: Text)
    requires value < U32_LIMIT
    ensures FnvFrom(value, text) < U32_LIMIT
    decreases |text|
  {
    if text != [] {
      FnvFromBelow(FnvStep(value, text[0]), text[1..]);
    }
  }

  /** Hashing the same text from two states gives the same result only from equal states. */
  lemma {:induction false} FnvFromInjective(v: nat, w: nat, text: Text)
    requires v < U32_LIMIT && w < U32_LIMIT && FnvFrom(v, text) == FnvFrom(w, text)
    ensures v == w
    decreases |text|
  {
    if text != [] {
      FnvFromInjective(FnvStep(v, text[0]), FnvStep(w, text[0]), text[1..]);
      FnvStepInjective(v, w, text[0]);
    }
  }

  lemma {:induction false} FnvFromConcat(value: nat, a: Text, b: Text)
    ensures FnvFrom(value, a + b) == FnvFrom(FnvFrom(value, a), b)
    decreases |a|
  {
    if a == [] {
      assert a + b == b;
    } else {
      assert (a + b)[0] == a[0] && (a + b)[1..] == a[1..] + b;
      FnvFromConcat(FnvStep(value, a[0]), a[1..], b);
    }
  }

  /** Ad slots that differ in exactly one byte never share a key. */
  lemma OneByteChangesSlotKey(prefix: Text, c: byte, d: byte, suffix: Text)
    requires c != d
    ensures NormalizeAdSlotKey(prefix + [c] + suffix) != NormalizeAdSlotKey(prefix + [d] + suffix)
  {
    var v := FnvFrom(FNV_OFFSET_BASIS, prefix);
    FnvFromBelow(FNV_OFFSET_BASIS, prefix);
    SlotKeyAround(prefix, c, suffix);
    SlotKeyAround(prefix, d, suffix);
    if NormalizeAdSlotKey(prefix + [c] + suffix) == NormalizeAdSlotKey(prefix + [d] + suffix) {
      FnvFromInjective(FnvStep(v, c), FnvStep(v, d), suffix);
      FnvStepSeparatesBytes(v, c, d);
    }
  }

  lemma SlotKeyAround(prefix: Text, c: byte, suffix: Text)
    ensures NormalizeAdSlotKey(prefix + [c] + suffix)
         == FnvFrom(FnvStep(FnvFrom(FNV_OFFSET_BASIS, prefix), c), suffix)
  {
    FnvFromConcat(FNV_OFFSET_BASIS, prefix + [c], suffix);
    FnvFromConcat(FNV_OFFSET_BASIS, prefix, [c]);
    var v := FnvFrom(FNV_OFFSET_BASIS, prefix);
    assert [c][1..] == [];
    assert FnvFrom(v, [c]) == FnvStep(v, c);
  }

  /**
   * The null key is a hash value like any other: a non-empty slot can have it. A text followed by one byte does
   * exactly when the state before that byte is the byte itself.
   */
  lemma NullSlotKeyReached(adSlot: Text)
    requires adSlot != []
    ensures NormalizeAdSlotKey(adSlot) == 0 <==>
            FnvFrom(FNV_OFFSET_BASIS, adSlot[..|adSlot| - 1]) == adSlot[|adSlot| - 1] as int
  {
    hide Xor;
    var init, last := adSlot[..|adSlot| - 1], adSlot[|adSlot| - 1];
    var v := FnvFrom(FNV_OFFSET_BASIS, init);
    assert adSlot == init + [last] + [];
    SlotKeyAround(init, last, []);
    FnvFromBelow(FNV_OFFSET_BASIS, init);
    XorWord(v, last);
    PrimeUndone(Xor(v, last));
    assert NormalizeAdSlotKey(adSlot) == 0 ==> Xor(v, last) == 0;
    XorZero(v, last);
  }

  lemma {:induction false} XorZero(a: nat, b: nat)
    ensures Xor(a, b) == 0 <==> a == b
    decreases a + b
  {
    if a != 0 || b != 0 {
      XorZero(a / 2, b / 2);
    }
  }

  /** Digit by digit, the third number is the exclusive or of the first two. */
  predicate SameParities(a: nat, b: nat, x: nat, bits: nat) {
    if bits == 0 then a == 0 && b == 0 && x == 0
    else (a % 2 + b % 2) % 2 == x % 2 && SameParities(a / 2, b / 2, x / 2, bits - 1)
  }

  lemma {:induction false} XorByParity(a: nat, b: nat, x: nat, bits: nat)
    requires SameParities(a, b, x, bits)
    ensures Xor(a, b) == x
    decreases bits
  {
    if bits > 0 {
      XorByParity(a / 2, b / 2, x / 2, bits - 1);
    }
  }

  lemma {:induction false} XorWithNothing(a: nat)
    ensures Xor(a, 0) == a
  {
    if a > 0 {
      XorWithNothing(a / 2);
    }
  }

  lemma XorUnderEvenHigh(high: nat, a: nat, b: nat)
    requires Xor(high + a / 2, b / 2) == high + Xor(a / 2, b / 2)
    ensures Xor(2 * high + a, b) == 2 * high + Xor(a, b)
  {
    hide Xor;
    XorHalves(2 * high + a, b);
    XorHalves(a, b);
  }

  /** A number shifted left. */
  function Shifted(high: nat, bits: nat): nat {
    if bits == 0 then high else 2 * Shifted(high, bits - 1)
  }

  lemma {:induction false} XorOfLowBits(high: nat, a: nat, b: nat, bits: nat)
    requires a < Pow2(bits) && b < Pow2(bits)
    ensures Xor(Shifted(high, bits) + a, b) == Shifted(high, bits) + Xor(a, b)
    decreases bits
  {
    hide Xor;
    if bits == 0 {
      XorWithNothing(high);
      XorWithNothing(0);
    } else {
      XorOfLowBits(high, a / 2, b / 2, bits - 1);
      XorUnderEvenHigh(Shifted(high, bits - 1), a, b);
    }
  }

  /** A hash step changes only the low byte of the state before it multiplies. */
  lemma FnvStepOfLowByte(high: nat, low: nat, character: byte)
    requires low < 256
    ensures FnvStep(256 * high + low, character) == (256 * high + Xor(low, character)) * FNV_PRIME % U32_LIMIT
  {
    hide Xor;
    assert Pow2(8) == 256;
    assert Shifted(high, 1) == 2 * high && Shifted(high, 2) == 4 * high && Shifted(high, 3) == 8 * high;
    assert Shifted(high, 5) == 4 * Shifted(high, 3) && Shifted(high, 7) == 4 * Shifted(high, 5);
    XorOfLowBits(high, low, character, 8);
  }

  // The exclusive ors that hashing "eSN." takes: of the low byte of the state and the next byte.

  lemma XorForE()
    ensures Xor(197, 101) == 160
  {
    hide Xor;
    XorByParity(197, 101, 160, 8);
  }

  lemma XorForS()
    ensures Xor(224, 83) == 179
  {
    hide Xor;
    XorByParity(224, 83, 179, 8);
  }

  lemma XorForN()
    ensures Xor(201, 78) == 135
  {
    hide Xor;
    XorByParity(201, 78, 135, 8);
  }

  lemma XorForDot()
    ensures Xor(133, 46) == 171
  {
    hide Xor;
    XorByParity(133, 46, 171, 8);
  }

  /** The states that the bytes of "eSN." lead through; the last one is 49, the byte "1". */
  lemma StatesOfExample()
    ensures FnvStep(FNV_OFFSET_BASIS, 101) == 3758891744
    ensures FnvStep(3758891744, 83) == 1713020873
    ensures FnvStep(1713020873, 78) == 1122574725
    ensures FnvStep(1122574725, 46) == 49
  {
    hide FnvStep, Xor;
    XorForE();
    XorForS();
    XorForN();
    XorForDot();
    FnvStepOfLowByte(8461469, 197, 101);
    FnvStepOfLowByte(14683170, 224, 83);
    FnvStepOfLowByte(6691487, 201, 78);
    FnvStepOfLowByte(4385057, 133, 46);
  }

  /** Such a slot: "eSN.1". */
  lemma NullSlotKeyExample()
    ensures NormalizeAdSlotKey(Ascii("eSN.1")) == 0
  {
    hide FnvStep;
    var slot := Ascii("eSN.1");
    assert slot[..4] == [101, 83, 78, 46] && slot[4] == 49;
    StatesOfExample();
    FnvOfFour(FNV_OFFSET_BASIS, 101, 83, 78, 46);
    NullSlotKeyReached(slot);
  }

  lemma FnvOfFour(value: nat, a: byte, b: byte, c: byte, d: byte)
    ensures FnvFrom(value, [a, b, c, d]) == FnvStep(FnvStep(FnvStep(FnvStep(value, a), b), c), d)
  {
    hide FnvStep;
    assert [a, b, c, d][1..] == [b, c, d] && [b, c, d][1..] == [c, d] && [c, d][1..] == [d] && [d][1..] == [];
    var v := FnvStep(FnvStep(FnvStep(value, a), b), c);
    assert FnvFrom(v, [d]) == FnvFrom(FnvStep(v, d), []);
    assert FnvFrom(FnvStep(FnvStep(value, a), b), [c, d]) == FnvFrom(v, [d]);
  }

  // ---- Deadline ----

  /** The deadline on a 64-bit clock, which wraps around. */
  function ComputeDeadlineNs(receivedAtNs: nat, tmaxMs: nat): nat {
    if tmaxMs * NS_PER_MS <= RESPONSE_SAFETY_MARGIN_NS then receivedAtNs
    else (receivedAtNs + (tmaxMs * NS_PER_MS - RESPONSE_SAFETY_MARGIN_NS)) % U64_LIMIT
  }

  /** A deadline lies the client's limit less one millisecond behind the arrival, as long as the clock does not wrap. */
  lemma DeadlineValue(receivedAtNs: nat, tmaxMs: nat)
    requires receivedAtNs < U64_LIMIT && tmaxMs < U32_LIMIT
    ensures tmaxMs <= 1 ==> ComputeDeadlineNs(receivedAtNs, tmaxMs) == receivedAtNs
    ensures tmaxMs >= 2 && receivedAtNs + (tmaxMs - 1) * 1_000_000 < 0x1_0000_0000_0000_0000 ==>
              ComputeDeadlineNs(receivedAtNs, tmaxMs) + 1_000_000 == receivedAtNs + tmaxMs * 1_000_000
  {}

  /** A request arrives already expired exactly when its limit is at most one millisecond, or its deadline wraps. */
  lemma ExpiredOnArrival(receivedAtNs: nat, tmaxMs: nat)
    requires receivedAtNs < U64_LIMIT && tmaxMs < U32_LIMIT
    ensures ComputeDeadlineNs(receivedAtNs, tmaxMs) <= receivedAtNs <==>
            tmaxMs <= 1 || receivedAtNs + (tmaxMs - 1) * 1_000_000 >= 0x1_0000_0000_0000_0000
  {
    if tmaxMs > 1 {
      var d := receivedAtNs + (tmaxMs - 1) * 1_000_000;
      if d >= U64_LIMIT {
        assert d % U64_LIMIT == d - U64_LIMIT;
      }
    }
  }

  /** The keys and the deadline of a request, and whether it is expired on arrival. */
  function BuildRequestContext(m: ParsedMessage, receivedAtNs: nat): RequestContext {
    var deadline := ComputeDeadlineNs(receivedAtNs, m.tmaxMs);
    var expired := deadline <= receivedAtNs;
    RequestContext(m.requestId, NormalizeCountryKey(m.country), NormalizeDeviceTypeKey(m.deviceType),
                   NormalizeAdSlotKey(m.adSlot), m.auctionType, receivedAtNs, deadline,
                   if expired then Expired else m.processingStatus,
                   if expired then DeadlineExceeded else NoReason)
  }
}
