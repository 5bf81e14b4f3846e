/** Sizes as text and as numbers (pkg/convertors/convertors.go). */
module Convertors {
  import opened Wrappers
  import opened Strings
  import opened Integers

  const TWO_53 := 0x20_0000_0000_0000

  /** A float64, as far as the conversions can tell. */
  datatype Float = Finite(value: real) | NotFinite

  /** strconv.ParseFloat and the product of two float64 values, with whatever rounding. */
  datatype Floats = Floats(parse: string -> Option<Float>, times: (real, real) -> Float)

  predicate Below2To53(n: int) { -TWO_53 < n < TWO_53 }

  /** What float64 promises of whole numbers below 2^53: a decimal text that stands for one
      is read without rounding, and so is a product of two. */
  ghost predicate ExactOnIntegers(f: Floats) {
    && (forall s: string | ParseInt(s).Some? && Below2To53(ParseInt(s).value) ::
          f.parse(s) == Some(Finite(ParseInt(s).value as real)))
    && (forall n: int, m: nat | Below2To53(n * m) :: f.times(n as real, m as real) == Finite((n * m) as real))
  }

  /** OutOfRange: the conversion to uint64 gives a value that depends on the machine. */
  datatype Error = NotANumber | UnknownSuffix | OutOfRange

  // ---------- bytes ----------

  /** The suffixes and their factors: none, a letter for a power of 1000, a letter and an i
      for a power of 1024, and m for a thousandth. */
  function Coefficient(suffix: string): Option<real> {
    if |suffix| == 1 && suffix[0] == 'm' then Some(0.001)
    else
      match Multiplier(suffix)
      case None => None
      case Some(n) => Some(n as real)
  }

  function Multiplier(suffix: string): Option<nat> {
    if |suffix| == 0 then Some(1)
    else if |suffix| == 1 then
      match suffix[0]
      case 'k' => Some(1000)
      case 'M' => Some(1000_000)
      case 'G' => Some(1000_000_000)
      case 'T' => Some(1000_000_000_000)
      case 'P' => Some(1000_000_000_000_000)
      case 'E' => Some(1000_000_000_000_000_000)
      case _ => None
    else if |suffix| == 2 && suffix[1] == 'i' then
      match suffix[0]
      case 'K' => Some(0x400)
      case 'M' => Some(0x10_0000)
      case 'G' => Some(0x4000_0000)
      case 'T' => Some(0x100_0000_0000)
      case 'P' => Some(0x4_0000_0000_0000)
      case 'E' => Some(0x1000_0000_0000_0000)
      case _ => None
    else None
  }

  function ToUint64(n: int): Result<nat, Error> {
    if 0 <= n < TWO_64 then Ok(n) else Err(OutOfRange)
  }

  function Ceil(x: real): (n: int)
    ensures x <= n as real < x + 1.0
  {
    -((-x).Floor)
  }

  function Trunc(x: real): int {
    if x >= 0.0 then x.Floor else -((-x).Floor)
  }

  function CeilToUint64(x: Float): Result<nat, Error> {
    if x.Finite? then ToUint64(Ceil(x.value)) else Err(OutOfRange)
  }

  function TruncToUint64(x: Float): Result<nat, Error> {
    if x.Finite? then ToUint64(Trunc(x.value)) else Err(OutOfRange)
  }

  function Times(f: Floats, x: Float, c: real): Float {
    if x.Finite? then f.times(x.value, c) else NotFinite
  }

  /** The number before the suffix, scaled and rounded up. */
  function Scaled(f: Floats, number: string, coefficient: real): Result<nat, Error> {
    match f.parse(number)
    case None => Err(NotANumber)
    case Some(x) => CeilToUint64(Times(f, x, coefficient))
  }

  /** i is the position of the last digit, or -1. */
  predicate IsLastDigit(s: string, i: int) {
    && -1 <= i < |s|
    && (i >= 0 ==> IsDigit(s[i]))
    && forall k | i < k < |s| :: !IsDigit(s[k])
  }

  function LastDigit(s: string): (i: int)
    ensures IsLastDigit(s, i)
  {
    if s == "" then -1
    else if IsDigit(s[|s| - 1]) then |s| - 1
    else LastDigit(s[..|s| - 1])
  }

  lemma OneLastDigit(s: string, i: int)
    requires IsLastDigit(s, i)
    ensures i == LastDigit(s)
  {
  }

  /** What a text stands for: everything behind its last digit is the suffix. A text without
      digits has none. */
  function Denoted(f: Floats, memory: string): Result<nat, Error> {
    if memory == "" then Ok(0) else DenotedAt(f, memory, LastDigit(memory))
  }

  function DenotedAt(f: Floats, memory: string, i: int): Result<nat, Error>
    requires -1 <= i < |memory|
  {
    if i < 0 then Scaled(f, memory, 1.0)
    else
      match Coefficient(memory[i + 1..])
      case None => Err(UnknownSuffix)
      case Some(c) => Scaled(f, memory[..i + 1], c)
  }

  lemma NoSuffix()
    ensures Coefficient("") == Some(1.0)
  {
  }

  /** The two parts that the scan leaves: the text up to the last digit, and the suffix. */
  lemma DenotedParts(f: Floats, memory: string, i: int, suffix: string, number: string)
    requires memory != "" && IsLastDigit(memory, i)
    requires suffix == if i >= 0 then memory[i + 1..] else ""
    requires number == if suffix != "" then memory[..i + 1] else memory
    ensures
      match Coefficient(suffix)
      case None => Denoted(f, memory) == Err(UnknownSuffix)
      case Some(c) => Denoted(f, memory) == Scaled(f, number, c)
  {
    OneLastDigit(memory, i);
    NoSuffix();
    if i >= 0 && suffix == "" {
      assert memory[..i + 1] == memory;
    }
  }

  method StrToBytes(f: Floats, memory: string) returns (r: Result<nat, Error>)
    ensures r == Denoted(f, memory)
  {
    if |memory| == 0 {
      return Ok(0);
    }
    var i: int := |memory| - 1;
    while i >= 0 && !IsDigit(memory[i])
      invariant -1 <= i < |memory|
      invariant forall k | i < k < |memory| :: !IsDigit(memory[k])
    {
      i := i - 1;
    }
    var suffix := "";
    if i >= 0 {
      suffix := memory[i + 1..];
    }
    ghost var prefix := if suffix != "" then memory[..i + 1] else memory;
    DenotedParts(f, memory, i, suffix, prefix);
    var coefficient := Coefficient(suffix);
    if coefficient.None? {
      return Err(UnknownSuffix);
    }
    var number := memory;
    if suffix != "" {
      number := memory[..i + 1];
    }
    r := Scaled(f, number, coefficient.value);
  }

  /** strconv.FormatInt */
  function BytesToStr(i: int): string {
    FormatInt(i)
  }

  lemma FormatEndsInDigit(n: nat, suffix: string)
    requires Multiplier(suffix).Some?
    ensures IsLastDigit(FormatNat(n) + suffix, |FormatNat(n)| - 1)
  {
    var s := FormatNat(n);
    assert s[|s| - 1] in s;
    assert forall k | 0 <= k < |suffix| :: !IsDigit(suffix[k]);
  }

  /** A whole number followed by one of the units stands for exactly that many units, as
      long as the product is exact in a float64. */
  lemma UnitsRoundTrip(f: Floats, n: nat, suffix: string)
    requires ExactOnIntegers(f)
    requires Multiplier(suffix).Some? && n < TWO_53 && n * Multiplier(suffix).value < TWO_53
    ensures Denoted(f, FormatNat(n) + suffix) == Ok(n * Multiplier(suffix).value)
  {
    var s, m := FormatNat(n), Multiplier(suffix).value;
    FormatEndsInDigit(n, suffix);
    assert (s + suffix)[|s|..] == suffix && (s + suffix)[..|s|] == s;
    assert Coefficient(suffix) == Some(m as real) by {
      MultiplierIsCoefficient(suffix);
    }
    PrintedIsRead(f, n);
    ProductExact(f, n, m);
    OneLastDigit(s + suffix, |s| - 1);
  }

  lemma MultiplierIsCoefficient(suffix: string)
    requires Multiplier(suffix).Some?
    ensures Coefficient(suffix) == Some(Multiplier(suffix).value as real)
  {
  }

  /** A float64 parser reads what the digit printer prints. */
  lemma PrintedIsRead(f: Floats, n: int)
    requires ExactOnIntegers(f) && Below2To53(n)
    ensures f.parse(FormatInt(n)) == Some(Finite(n as real))
  {
    ParseIntFormat(n);
  }

  lemma ProductExact(f: Floats, n: int, m: nat)
    requires ExactOnIntegers(f) && Below2To53(n * m)
    ensures Times(f, Finite(n as real), m as real) == Finite((n * m) as real)
  {
  }

  lemma NegativeDenoted(f: Floats, n: int)
    requires n < 0
    ensures Denoted(f, FormatInt(n)) == Scaled(f, FormatInt(n), 1.0)
  {
    var s, d := FormatInt(n), FormatNat(-n);
    assert d[|d| - 1] in d;
    assert IsLastDigit(s, |s| - 1);
    DenotedParts(f, s, |s| - 1, "", s);
    NoSuffix();
  }

  /** Printing a number of bytes and reading it back: it comes back exactly when it is not
      negative. */
  lemma BytesRoundTrip(f: Floats, n: int)
    requires ExactOnIntegers(f) && Below2To53(n)
    ensures Denoted(f, BytesToStr(n)) == if n >= 0 then Ok(n) else Err(OutOfRange)
  {
    if n >= 0 {
      assert FormatNat(n) + "" == FormatNat(n);
      UnitsRoundTrip(f, n, "");
    } else {
      NegativeDenoted(f, n);
      PrintedIsRead(f, n);
      ProductExact(f, n, 1);
    }
  }

  // ---------- units and rounding ----------

  function Power(base: nat, k: nat): nat {
    if k == 0 then 1 else base * Power(base, k - 1)
  }

  const DECIMAL := "kMGTPE"
  const BINARY := "KMGTPE"

  /** The units are the powers of 1000, those of 1024 with an i, none, and a thousandth; every
      other suffix is refused. */
  lemma UnitsExactly(suffix: string)
    ensures forall i | 0 <= i < 6 ::
      && Multiplier([DECIMAL[i]]) == Some(Power(1000, i + 1))
      && Multiplier([BINARY[i], 'i']) == Some(Power(1024, i + 1))
    ensures Multiplier("") == Some(1) && Coefficient("m") == Some(0.001)
    ensures Coefficient(suffix).Some? <==>
      || suffix == "" || suffix == "m"
      || (|suffix| == 1 && suffix[0] in DECIMAL)
      || (|suffix| == 2 && suffix[0] in BINARY && suffix[1] == 'i')
    ensures Multiplier(suffix).Some? ==> Coefficient(suffix) == Some(Multiplier(suffix).value as real)
  {
    DecimalUnits();
    BinaryUnits();
    if |suffix| >= 1 {
      assert suffix[0] in DECIMAL <==> exists i | 0 <= i < 6 :: DECIMAL[i] == suffix[0];
      assert suffix[0] in BINARY <==> exists i | 0 <= i < 6 :: BINARY[i] == suffix[0];
    }
  }

  lemma DecimalUnits()
    ensures forall i | 0 <= i < 6 :: Multiplier([DECIMAL[i]]) == Some(Power(1000, i + 1))
  {
    assert Power(1000, 1) == 1000;
    assert Power(1000, 2) == 1000_000;
    assert Power(1000, 3) == 1000_000_000;
    assert Power(1000, 4) == 1000_000_000_000;
    assert Power(1000, 5) == 1000_000_000_000_000;
    assert Power(1000, 6) == 1000_000_000_000_000_000;
  }

  lemma BinaryUnits()
    ensures forall i | 0 <= i < 6 :: Multiplier([BINARY[i], 'i']) == Some(Power(1024, i + 1))
  {
    assert Power(1024, 1) == 0x400;
    assert Power(1024, 2) == 0x10_0000;
    assert Power(1024, 3) == 0x4000_0000;
    assert Power(1024, 4) == 0x100_0000_0000;
    assert Power(1024, 5) == 0x4_0000_0000_0000;
    assert Power(1024, 6) == 0x1000_0000_0000_0000;
  }

  /** A number of bytes is the product of the number before the suffix and the unit, rounded
      up to a whole byte, and out of range otherwise. */
  lemma BytesRoundedUp(f: Floats, number: string, suffix: string, c: real, v: real, product: real)
    requires number != "" && IsLastDigit(number + suffix, |number| - 1) && Coefficient(suffix) == Some(c)
    requires f.parse(number) == Some(Finite(v)) && f.times(v, c) == Finite(product)
    ensures
      var r := Denoted(f, number + suffix);
      && (r.Ok? <==> -1.0 < product <= (TWO_64 - 1) as real)
      && (r.Ok? ==> product <= r.value as real < product + 1.0)
      && (r.Err? ==> r == Err(OutOfRange))
  {
    var text := number + suffix;
    assert text[|number|..] == suffix && text[..|number|] == number;
    OneLastDigit(text, |number| - 1);
    if |suffix| == 0 {
      assert text == number;
    }
  }

  /** The texts that are no amount: an unknown suffix, or no number before it. A text without
      digits is read as a whole, and the empty one is zero. */
  lemma RefusedTexts(f: Floats, memory: string, i: int)
    requires memory != "" && IsLastDigit(memory, i)
    ensures Denoted(f, "") == Ok(0)
    ensures i >= 0 && Coefficient(memory[i + 1..]).None? ==> Denoted(f, memory) == Err(UnknownSuffix)
    ensures i >= 0 && Coefficient(memory[i + 1..]).Some? && f.parse(memory[..i + 1]).None? ==>
      Denoted(f, memory) == Err(NotANumber)
    ensures i < 0 && f.parse(memory).None? ==> Denoted(f, memory) == Err(NotANumber)
  {
    OneLastDigit(memory, i);
  }

  /** Millicpus from a number of CPUs: a thousand times the number, rounded towards zero. */
  lemma CPUsRoundedDown(f: Floats, cpu: string, v: real, product: real)
    requires cpu != "" && cpu[|cpu| - 1] != 'm'
    requires f.parse(cpu) == Some(Finite(v)) && f.times(v, 1000.0) == Finite(product)
    ensures
      var r := StrToMilliCPU(f, cpu);
      && (r.Ok? <==> -1.0 < product < TWO_64 as real)
      && (r.Ok? && product >= 0.0 ==> r.value as real <= product < r.value as real + 1.0)
      && (r.Ok? && product < 0.0 ==> r.value == 0)
      && (r.Err? ==> r == Err(OutOfRange))
  {
  }

  // ---------- CPU ----------

  /** strconv.ParseUint(s, 10, 64) */
  function ParseUint(s: string): Result<nat, Error> {
    match ParseNat(s)
    case None => Err(NotANumber)
    case Some(n) => if n < TWO_64 then Ok(n) else Err(NotANumber)
  }

  function StrToMilliCPU(f: Floats, cpu: string): Result<nat, Error> {
    if cpu == "" then Ok(0)
    else if cpu[|cpu| - 1] == 'm' then ParseUint(cpu[..|cpu| - 1])
    else
      match f.parse(cpu)
      case None => Err(NotANumber)
      case Some(x) => TruncToUint64(Times(f, x, 1000.0))
  }

  function MilliCPUToStr(i: int): string {
    FormatInt(i) + "m"
  }

  /** Printing and reading back gives the number again exactly when it is not negative. */
  lemma MilliCPURoundTrip(f: Floats, n: int)
    requires -0x8000_0000 <= n < 0x8000_0000
    ensures StrToMilliCPU(f, MilliCPUToStr(n)) == (if n >= 0 then Ok(n) else Err(NotANumber))
  {
    var s := FormatInt(n);
    assert MilliCPUToStr(n)[..|s|] == s;
    if n >= 0 {
      ParseFormat(n);
    } else {
      MinusIsNoDigit(FormatNat(-n));
    }
  }

  /** Every number of millicpus that fits uint64 is read, and none that does not. */
  lemma MillicpusExactly(f: Floats, n: nat)
    ensures StrToMilliCPU(f, FormatNat(n) + "m") == if n < TWO_64 then Ok(n) else Err(NotANumber)
  {
    var s := FormatNat(n);
    assert (s + "m")[..|s|] == s;
    ParseFormat(n);
  }

  lemma {:induction false} MinusIsNoDigit(s: string)
    ensures ParseNat("-" + s) == None
  {
    if s != "" {
      var shorter := s[..|s| - 1];
      assert ("-" + s)[..|s|] == "-" + shorter;
      MinusIsNoDigit(shorter);
    }
  }

  /** Whole CPUs, with or without the suffix, are read alike. */
  lemma WholeCPUs(f: Floats, n: nat)
    requires ExactOnIntegers(f) && n * 1000 < TWO_53
    ensures StrToMilliCPU(f, FormatNat(n)) == Ok(n * 1000)
    ensures StrToMilliCPU(f, FormatNat(n)) == StrToMilliCPU(f, FormatNat(n * 1000) + "m")
  {
    var s, t := FormatNat(n), FormatNat(n * 1000);
    assert s[|s| - 1] in s;
    PrintedIsRead(f, n);
    ProductExact(f, n, 1000);
    assert (t + "m")[..|t|] == t;
    ParseFormat(n * 1000);
  }
}
