/** The configuration number of a BurstV3 application: its flow count, start range and packet count, cut out
    of the decimal digits, compared with quotients and remainders and with the older decoder. */
module AppConf {
  import opened Wrappers
  import opened Decimal

  const INT_MAX := 2147483647
  const UINT32 := 0x1_0000_0000
  const UINT64 := 0x1_0000_0000_0000_0000

  datatype Burst = Burst(flowNum: nat, startRangeMs: nat, packets: nat, flowSize: nat)

  // Subtraction of unsigned 64-bit sizes wraps around.
  function SizeMinus(a: nat, b: nat): nat
    requires a < UINT64 && b < UINT64
  {
    if a >= b then a - b else a + UINT64 - b
  }

  // No result stands for the exception thrown when the position lies beyond the end.
  function Substr(s: string, pos: nat, len: nat): Option<string> {
    if pos > |s| then None
    else if pos + len > |s| then Some(s[pos..])
    else Some(s[pos..pos + len])
  }

  // Conversion of digits to an int; there must be one, and the number must fit.
  function Stoi(s: string): Option<nat>
    requires IsDigits(s)
  {
    if s == "" || FromDecimal(s) > INT_MAX then None else Some(FromDecimal(s))
  }

  lemma SubstrDigits(s: string, pos: nat, len: nat)
    requires IsDigits(s)
    ensures Substr(s, pos, len).Some? ==> IsDigits(Substr(s, pos, len).value)
  {
  }

  function Field(s: string, pos: nat, len: nat): Option<nat>
    requires IsDigits(s)
  {
    SubstrDigits(s, pos, len);
    match Substr(s, pos, len) case None => None case Some(t) => Stoi(t)
  }

  // The flow size is computed in 32 bits before it is widened.
  function DecodeDigits(s: string): Option<Burst>
    requires IsDigits(s) && |s| < UINT64
  {
    match Field(s, SizeMinus(|s|, 3), |s|)
    case None => None
    case Some(flowNum) =>
      match Field(s, SizeMinus(|s|, 6), 3)
      case None => None
      case Some(range) =>
        match Field(s, 0, SizeMinus(|s|, 6))
        case None => None
        case Some(packets) => Some(Burst(flowNum, range * 10, packets, packets * 1500 % UINT32))
  }

  // The number is read from the configuration file as an unsigned 64-bit integer and turned into digits.
  function Decode(conf: nat): Option<Burst>
    requires conf < UINT64
  {
    ToDecimalDigits(conf);
    ShortDecimal(conf);
    DecodeDigits(ToDecimal(conf))
  }

  lemma ShortDecimal(conf: nat)
    requires conf < UINT64
    ensures |ToDecimal(conf)| <= 20
  {
    assert Power10(20) == 100_000_000_000_000_000_000 by { Powers(); }
    LengthOfDecimal(conf, 20);
  }

  lemma Powers()
    ensures Power10(3) == 1000 && Power10(6) == 1_000_000 && Power10(20) == 100_000_000_000_000_000_000
  {
    assert Power10(1) == 10 && Power10(2) == 100 && Power10(3) == 1000 && Power10(4) == 10_000;
    assert Power10(5) == 100_000 && Power10(6) == 1_000_000 && Power10(7) == 10_000_000;
    assert Power10(8) == 100_000_000 && Power10(9) == 1_000_000_000 && Power10(10) == 10_000_000_000;
    assert Power10(11) == 100_000_000_000 && Power10(12) == 1_000_000_000_000;
    assert Power10(13) == 10_000_000_000_000 && Power10(14) == 100_000_000_000_000;
    assert Power10(15) == 1_000_000_000_000_000 && Power10(16) == 10_000_000_000_000_000;
    assert Power10(17) == 100_000_000_000_000_000 && Power10(18) == 1_000_000_000_000_000_000;
    assert Power10(19) == 10_000_000_000_000_000_000;
  }

  // The older decoder, by arithmetic; it converts the whole number to an int first.
  function DecodeOld(conf: nat): Option<Burst> {
    if conf > INT_MAX then None
    else
      var packets := (conf / 1_000_000) % 1000;
      Some(Burst(conf % 1000, ((conf / 1000) % 1000) * 10, packets, packets * 1500))
  }

  // ------------------------------------------------------------------ the fields of a long enough number

  lemma MiddleDigits(n: nat)
    ensures (n % 1_000_000) / 1000 == (n / 1000) % 1000
  {
    var q, r := n / 1_000_000, n % 1_000_000;
    assert n == 1000 * (1000 * q + r / 1000) + r % 1000;
  }

  lemma Fields(n: nat)
    requires 1_000_000 <= n < UINT64
    ensures var s := ToDecimal(n);
      && IsDigits(s) && 6 < |s| <= 20
      && FromDecimal(s[|s| - 3..]) == n % 1000
      && FromDecimal(s[|s| - 6..|s| - 3]) == (n / 1000) % 1000
      && FromDecimal(s[..|s| - 6]) == n / 1_000_000
  {
    var s := ToDecimal(n);
    Powers();
    ShortDecimal(n);
    DecimalRoundTrip(n);
    LengthOfDecimal(n, 6);
    CutDigits(s, 3);
    CutDigits(s, 6);
    var low := s[|s| - 6..];
    assert low[..3] == s[|s| - 6..|s| - 3];
    CutDigits(low, 3);
    MiddleDigits(n);
  }

  lemma ShortFails(n: nat)
    requires n < 1_000_000
    ensures Decode(n) == None
  {
    var s := ToDecimal(n);
    Powers();
    ToDecimalDigits(n);
    LengthOfDecimal(n, 6);
    if |s| == 6 {
      assert SizeMinus(|s|, 6) == 0 && Substr(s, 0, 0) == Some("");
    } else {
      assert SizeMinus(|s|, 6) > |s|;
    }
  }

  lemma Truncated(size: nat)
    ensures (size - size % UINT32) % UINT32 == 0
  {
    assert size - size % UINT32 == UINT32 * (size / UINT32);
  }

  /** Slicing the digits succeeds exactly for the numbers from one million on whose packet count fits an
      int, and then gives the remainders and quotients of the number; the flow size is the packet count
      times 1500 up to a multiple of the 32-bit range, and exactly as long as that fits 32 bits. */
  lemma DecodeIff(n: nat)
    requires n < UINT64
    ensures Decode(n).Some? <==> 1_000_000 <= n && n / 1_000_000 <= INT_MAX
    ensures Decode(n).Some? ==>
      var b := Decode(n).value;
      && b.flowNum == n % 1000
      && b.startRangeMs == ((n / 1000) % 1000) * 10
      && b.packets == n / 1_000_000
      && b.flowSize < 0x1_0000_0000 && (b.packets * 1500 - b.flowSize) % 0x1_0000_0000 == 0
      && (b.flowSize == b.packets * 1500 <==> b.packets <= 2863311)
  {
    if n < 1_000_000 {
      ShortFails(n);
    } else {
      var s := ToDecimal(n);
      Fields(n);
      assert Substr(s, |s| - 3, |s|) == Some(s[|s| - 3..]);
      assert Substr(s, |s| - 6, 3) == Some(s[|s| - 6..|s| - 3]);
      assert Substr(s, 0, |s| - 6) == Some(s[..|s| - 6]);
      Truncated(n / 1_000_000 * 1500);
    }
  }

  // The number spells the burst, three digits for each field, below any further digits.
  predicate Spells(n: nat, b: Burst, tens: nat, top: nat) {
    && n == 1_000_000_000 * top + 1_000_000 * b.packets + 1000 * tens + b.flowNum
    && b.flowNum < 1000 && tens < 1000 && b.packets < 1000
    && b.startRangeMs == 10 * tens && b.flowSize == 1500 * b.packets
  }

  lemma SpelledFields(n: nat, b: Burst, tens: nat, top: nat)
    requires Spells(n, b, tens, top)
    ensures n % 1000 == b.flowNum && (n / 1000) % 1000 == tens && (n / 1_000_000) % 1000 == b.packets
  {
    assert n / 1000 == 1_000_000 * top + 1000 * b.packets + tens;
    assert n / 1_000_000 == 1000 * top + b.packets;
  }

  /** The older decoder gives the burst that the last nine digits of the number spell. */
  lemma OldDecodeIff(n: nat, b: Burst)
    ensures DecodeOld(n) == Some(b) <==> n <= 2147483647 && exists tens, top :: Spells(n, b, tens, top)
  {
    if DecodeOld(n) == Some(b) {
      var thousands, millions := n / 1000, n / 1_000_000;
      assert thousands / 1000 == millions && thousands == 1000 * millions + thousands % 1000;
      assert Spells(n, b, thousands % 1000, millions / 1000);
    }
    if tens, top :| Spells(n, b, tens, top) {
      SpelledFields(n, b, tens, top);
    }
  }

  /** The decoder agrees with the older one exactly for the numbers with at least seven digits and a packet
      count below 1000, and for those that make both fail. */
  lemma AgreesWithOldIff(n: nat)
    requires n < UINT64
    ensures Decode(n) == DecodeOld(n) <==>
      (1_000_000 <= n && n / 1_000_000 < 1000) || n / 1_000_000 > INT_MAX
  {
    DecodeIff(n);
    if Decode(n).Some? && n <= INT_MAX {
      var packets := n / 1_000_000;
      assert packets < 2863311;
      assert packets % 1000 == packets <==> packets < 1000;
    }
  }
}
