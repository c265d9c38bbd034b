/** The blob-size strings of the command line: `<number>[G|M|K]bit`, in bits; the result is in bytes. */
module BlobSize {
  import opened Wrappers
  import opened Codec

  predicate Digit(c: char) {
    '0' <= c <= '9'
  }

  predicate AllDigits(s: string) {
    forall i :: 0 <= i < |s| ==> Digit(s[i])
  }

  /** The number a digit string denotes, unbounded. */
  function Value(digits: string): nat
    requires AllDigits(digits)
  {
    if digits == "" then 0
    else Value(digits[..|digits| - 1]) * 10 + (digits[|digits| - 1] as int - '0' as int)
  }

  datatype Unit = Plain | Kilo | Mega | Giga {
    function Text(): string {
      match this
      case Plain => ""
      case Kilo => "K"
      case Mega => "M"
      case Giga => "G"
    }

    function Factor(): nat {
      match this
      case Plain => 1
      case Kilo => 1000
      case Mega => 1_000_000
      case Giga => 1_000_000_000
    }
  }

  /** The grammar: a number, a unit, and "bit". */
  predicate Denotes(value: string, digits: string, unit: Unit) {
    digits != "" && AllDigits(digits) && value == digits + unit.Text() + "bit"
  }

  lemma ModTimes(a: nat, b: nat)
    ensures a % U64 * b % U64 == a * b % U64
  {
    var q, r := a / U64, a % U64;
    assert a * b == (q * b) * U64 + r * b;
    ModAdd(q * b, r * b);
  }

  lemma {:induction false} ModAdd(k: nat, x: nat)
    ensures (k * U64 + x) % U64 == x % U64
  {
  }

  /** One turn of the digit loop, with the counter wrapping at 64 bits. */
  lemma WrapStep(a: nat, d: nat)
    ensures (a % U64 * 10 + d) % U64 == (a * 10 + d) % U64
  {
  }

  /** The last character before "bit" fixes the unit, and with it where the number ends. */
  lemma Readings(value: string, unit: Unit)
    requires |value| >= 4 && value[|value| - 3..] == "bit"
    requires var c := value[|value| - 4]; if Digit(c) then unit == Plain else unit.Text() == [c]
    ensures forall digits, u :: Denotes(value, digits, u) <==>
              u == unit && digits == value[..|value| - 3 - |unit.Text()|] && digits != "" && AllDigits(digits)
  {
  }

  /** The digit loop: a number, modulo 2^64, or nothing if some character is not a digit. */
  method ParseNumber(digits: string) returns (result: Option<nat>)
    ensures result == if AllDigits(digits) then Some(Value(digits) % U64) else None
  {
    var n: nat := 0;
    for i := 0 to |digits|
      invariant AllDigits(digits[..i]) && n == Value(digits[..i]) % U64
    {
      var c := digits[i];
      if c < '0' || c > '9' {
        return None;
      }
      assert digits[..i + 1][..i] == digits[..i];
      WrapStep(Value(digits[..i]), c as int - '0' as int);
      n := (n * 10 + (c as int - '0' as int)) % U64;
    }
    assert digits[..|digits|] == digits;
    result := Some(n);
  }

  /** A string too short, not ending in "bit", or with another letter before it, is not in the grammar. */
  lemma NotRead(value: string)
    requires |value| < 4 || value[|value| - 3..] != "bit" ||
             (!Digit(value[|value| - 4]) && value[|value| - 4] !in "GMK")
    ensures !exists digits, unit :: Denotes(value, digits, unit)
  {
  }

  /** The decimal notation of a number. */
  function Decimal(n: nat): (s: string)
    ensures s != "" && AllDigits(s)
  {
    var last := [('0' as int + n % 10) as char];
    if n < 10 then last else Decimal(n / 10) + last
  }

  lemma {:induction false} ValueOfDecimal(n: nat)
    ensures Value(Decimal(n)) == n
  {
    var s := Decimal(n);
    if n < 10 {
      assert s[..|s| - 1] == "";
    } else {
      ValueOfDecimal(n / 10);
      assert s[..|s| - 1] == Decimal(n / 10);
    }
  }

  /** Digits and nothing else. */
  predicate Numeral(s: string) {
    forall i :: 0 <= i < |s| ==> s[i] in "0123456789"
  }

  lemma NumeralIsDigits(s: string)
    ensures Numeral(s) <==> AllDigits(s)
  {
  }

  predicate Suffix(s: string) {
    s == "bit" || s == "Kbit" || s == "Mbit" || s == "Gbit"
  }

  lemma SuffixOf(unit: Unit)
    ensures unit.Text() + "bit" ==
            if unit == Plain then "bit" else if unit == Kilo then "Kbit" else if unit == Mega then "Mbit" else "Gbit"
    ensures Suffix(unit.Text() + "bit")
  {
    assert "" + "bit" == "bit" && "K" + "bit" == "Kbit" && "M" + "bit" == "Mbit" && "G" + "bit" == "Gbit";
  }

  /** The grammar, letter by letter. */
  ghost predicate Written(value: string) {
    exists k :: 1 <= k <= |value| && Numeral(value[..k]) && Suffix(value[k..])
  }

  lemma DenotesIsWritten(value: string, digits: string, unit: Unit)
    requires Denotes(value, digits, unit)
    ensures Written(value)
  {
    var k := |digits|;
    assert value[..k] == digits && value[k..] == unit.Text() + "bit";
    NumeralIsDigits(digits);
    SuffixOf(unit);
    assert Numeral(value[..k]);
  }

  lemma WrittenDenotes(value: string, k: nat) returns (unit: Unit)
    requires 1 <= k <= |value| && Numeral(value[..k]) && Suffix(value[k..])
    ensures Denotes(value, value[..k], unit)
  {
    var digits, rest := value[..k], value[k..];
    unit := if rest == "bit" then Plain else if rest == "Kbit" then Kilo else if rest == "Mbit" then Mega else Giga;
    NumeralIsDigits(digits);
    SuffixOf(unit);
    assert value == digits + rest;
    Regroup(digits, unit.Text(), "bit");
  }

  lemma Regroup(a: string, b: string, c: string)
    ensures a + (b + c) == a + b + c
  {
  }

  /** What parsing `value` comes to: present exactly for strings of the grammar, and then (value * factor mod
      2^64) / 8, whatever wraps on the way. */
  ghost predicate Reads(value: string, result: Option<nat>) {
    && (result.Some? <==> exists digits, unit :: Denotes(value, digits, unit))
    && forall digits, unit :: Denotes(value, digits, unit) ==>
         result == Some(Value(digits) * unit.Factor() % U64 / 8)
  }

  /** A printed number of bits that fits 64 bits. */
  ghost predicate BitsOf(value: string, result: Option<nat>) {
    forall n: nat :: n < 0x1_0000_0000_0000_0000 && value == Decimal(n) + "bit" ==> result == Some(n / 8)
  }

  /** A printed number of units of `bytes` bytes each, as long as the bits fit 64 bits. */
  ghost predicate UnitsOf(value: string, result: Option<nat>, bytes: nat, suffix: string) {
    forall n: nat :: n * (8 * bytes) < 0x1_0000_0000_0000_0000 && value == Decimal(n) + suffix ==>
                       result == Some(n * bytes)
  }

  /** The same for printed numbers, in letters and numbers. */
  ghost predicate InBytes(value: string, result: Option<nat>) {
    && (result.Some? <==> Written(value))
    && BitsOf(value, result)
    && UnitsOf(value, result, 125, "Kbit")
    && UnitsOf(value, result, 125_000, "Mbit")
    && UnitsOf(value, result, 125_000_000, "Gbit")
  }

  lemma SizeIs(value: string, result: Option<nat>, n: nat, unit: Unit)
    requires Reads(value, result) && value == Decimal(n) + (unit.Text() + "bit")
    ensures result == Some(n * unit.Factor() % U64 / 8)
  {
    ValueOfDecimal(n);
    Regroup(Decimal(n), unit.Text(), "bit");
    assert Denotes(value, Decimal(n), unit);
  }

  lemma EighthOf(bits: nat)
    requires bits < U64
    ensures bits % U64 / 8 == bits / 8
  {
  }

  lemma EightTimes(n: nat, bytes: nat)
    requires n * (8 * bytes) < U64
    ensures n * (8 * bytes) % U64 / 8 == n * bytes
  {
    EighthOf(n * (8 * bytes));
    var x := n * bytes;
    assert n * (8 * bytes) == 8 * x;
    assert 8 * x / 8 == x;
  }

  lemma UnitsAre(value: string, result: Option<nat>, unit: Unit, bytes: nat, suffix: string)
    requires Reads(value, result) && suffix == unit.Text() + "bit" && 8 * bytes == unit.Factor()
    ensures UnitsOf(value, result, bytes, suffix)
  {
    forall n: nat | n * (8 * bytes) < U64 && value == Decimal(n) + suffix ensures result == Some(n * bytes) {
      SizeIs(value, result, n, unit);
      EightTimes(n, bytes);
    }
  }

  lemma WrittenIsDenoted(value: string)
    ensures Written(value) <==> exists digits, unit :: Denotes(value, digits, unit)
  {
    if digits, unit :| Denotes(value, digits, unit) {
      DenotesIsWritten(value, digits, unit);
    }
    if Written(value) {
      var k :| 1 <= k <= |value| && Numeral(value[..k]) && Suffix(value[k..]);
      var unit := WrittenDenotes(value, k);
    }
  }

  lemma BitsAre(value: string, result: Option<nat>)
    requires Reads(value, result)
    ensures BitsOf(value, result)
  {
    SuffixOf(Plain);
    forall n: nat | n < U64 && value == Decimal(n) + "bit" ensures result == Some(n / 8) {
      SizeIs(value, result, n, Plain);
      EighthOf(n);
    }
  }

  lemma ReadsInBytes(value: string, result: Option<nat>)
    requires Reads(value, result)
    ensures InBytes(value, result)
  {
    WrittenIsDenoted(value);
    BitsAre(value, result);
    SuffixOf(Kilo);
    SuffixOf(Mega);
    SuffixOf(Giga);
    UnitsAre(value, result, Kilo, 125, "Kbit");
    UnitsAre(value, result, Mega, 125_000, "Mbit");
    UnitsAre(value, result, Giga, 125_000_000, "Gbit");
  }

  method BlobBytesFromString(value: string) returns (result: Option<nat>)
    ensures Reads(value, result)
    ensures InBytes(value, result)
  {
    forall r | Reads(value, r) ensures InBytes(value, r) {
      ReadsInBytes(value, r);
    }
    if |value| < 4 || value[|value| - 3..] != "bit" {
      NotRead(value);
      return None;
    }
    var prefix := value[|value| - 4];
    var unit := Plain;
    var numEnd: nat := |value| - 3;
    if !Digit(prefix) {
      match prefix {
        case 'G' => unit := Giga;
        case 'M' => unit := Mega;
        case 'K' => unit := Kilo;
        case _ =>
          NotRead(value);
          return None;
      }
      numEnd := |value| - 4;
    }
    Readings(value, unit);
    if numEnd == 0 {
      return None;
    }
    var n := ParseNumber(value[..numEnd]);
    if n.None? {
      return None;
    }
    ModTimes(Value(value[..numEnd]), unit.Factor());
    assert Denotes(value, value[..numEnd], unit);
    result := Some(n.value * unit.Factor() % U64 / 8);
  }

  function Printed(n: nat, unit: Unit): string {
    Decimal(n) + unit.Text() + "bit"
  }

  lemma Fits(x: nat)
    ensures x % U64 / 8 == x / 8 <==> x < U64
  {
  }

  /** The size parsed from a printed number: the bits over 8, rounded down, exactly when the bits fit 64 bits. */
  method ParsePrinted(n: nat, unit: Unit) returns (bytes: nat)
    ensures bytes == n * unit.Factor() % U64 / 8
    ensures bytes == n * unit.Factor() / 8 <==> n * unit.Factor() < U64
  {
    var parsed := BlobBytesFromString(Printed(n, unit));
    assert Denotes(Printed(n, unit), Decimal(n), unit);
    ValueOfDecimal(n);
    Fits(n * unit.Factor());
    bytes := parsed.value;
  }
}
