/** Machine words and the small value types shared by every component. */
module Words {

  const TWO32: int := 0x1_0000_0000
  const TWO64: int := 0x1_0000_0000_0000_0000

  type u32 = x: int | 0 <= x < TWO32
  type u64 = x: int | 0 <= x < TWO64
  type i64 = x: int | -0x8000_0000_0000_0000 <= x < 0x8000_0000_0000_0000

  /** One octet. Characters keep the protocol's punctuation readable. */
  type byte = c: char | c as int < 256

  datatype Option<+T> = None | Some(value: T)

  function Min(a: int, b: int): int {
    if a <= b then a else b
  }

  /** Reduction to 64 bits. */
  function Wrap64(n: int): u64 {
    n % 0x1_0000_0000_0000_0000
  }

  /** Addition and subtraction of 64-bit words, wrapping at the ends. */
  function WrappingAdd(a: nat, b: u64): (r: nat)
    ensures a < TWO64 ==> r < TWO64
  {
    if a + b < TWO64 then a + b else a + b - TWO64
  }

  function WrappingSub(a: u64, b: u64): (r: u64)
  {
    if a >= b then a - b else a - b + TWO64
  }

  lemma WrappingIsModular(a: u64, b: u64)
    ensures WrappingAdd(a, b) == Wrap64(a + b) && WrappingSub(a, b) == Wrap64(a - b)
  {
  }
}

/** Decimal and hexadecimal text of natural numbers. */
module Numerals {
  import opened Words

  predicate IsDigit(c: char) {
    '0' <= c <= '9'
  }

  predicate AllDigits(s: seq<char>) {
    forall i | 0 <= i < |s| :: IsDigit(s[i])
  }

  function DigitValue(c: char): nat
    requires IsDigit(c)
  {
    c as int - '0' as int
  }

  /** The number that a run of digits denotes, without any bound. */
  function Value(s: seq<char>): nat
    requires AllDigits(s)
  {
    if s == [] then 0 else 10 * Value(s[..|s| - 1]) + DigitValue(s[|s| - 1])
  }

  /** One more digit in a base, with a checked multiply and a checked add: how a
      64-bit parse gives up on overflow. */
  function CheckedDigit(v: Option<u64>, base: nat, digit: nat): Option<u64> {
    if v.None? || base * v.value >= TWO64 then None
    else if base * v.value + digit >= TWO64 then None
    else Some(base * v.value + digit)
  }

  /** Left-to-right accumulation of decimal digits. */
  function ParseU64(s: seq<char>): Option<u64>
    requires AllDigits(s)
  {
    if s == [] then Some(0) else CheckedDigit(ParseU64(s[..|s| - 1]), 10, DigitValue(s[|s| - 1]))
  }

  /** The checked accumulation succeeds exactly on the numbers below 2^64. */
  lemma {:induction false} ParseU64IsValue(s: seq<char>)
    requires AllDigits(s)
    ensures ParseU64(s) == if Value(s) < TWO64 then Some(Value(s)) else None
  {
    if s != [] {
      ParseU64IsValue(s[..|s| - 1]);
    }
  }

  function DigitChar(d: nat): (c: char)
    requires d < 10
    ensures IsDigit(c) && DigitValue(c) == d
  {
    (d + '0' as int) as char
  }

  /** Canonical decimal text. */
  function Decimal(n: nat): (s: seq<char>)
    ensures s != [] && AllDigits(s)
  {
    if n < 10 then [DigitChar(n)] else Decimal(n / 10) + [DigitChar(n % 10)]
  }

  lemma {:induction false} ValueOfDecimal(n: nat)
    ensures Value(Decimal(n)) == n
  {
    if n >= 10 {
      ValueOfDecimal(n / 10);
      assert Decimal(n)[..|Decimal(n)| - 1] == Decimal(n / 10);
    } else {
      assert Decimal(n)[..0] == [];
    }
  }

  /** Lower-case hexadecimal text, as `{:x}` prints it. */
  function Hex(n: nat): (s: seq<char>)
    ensures s != []
  {
    if n < 16 then [HexChar(n)] else Hex(n / 16) + [HexChar(n % 16)]
  }

  function HexChar(d: nat): char
    requires d < 16
  {
    if d < 10 then (d + '0' as int) as char else (d - 10 + 'a' as int) as char
  }

  predicate IsLowerHex(c: char) {
    '0' <= c <= '9' || 'a' <= c <= 'f'
  }

  lemma {:induction false} HexDigitsOnly(n: nat)
    ensures forall c | c in Hex(n) :: IsLowerHex(c)
  {
    if n >= 16 {
      HexDigitsOnly(n / 16);
    }
  }
}

/** Sums of a function over a finite set. */
module Sums {

  ghost function Sum<K>(ks: set<K>, f: K -> int): int {
    if ks == {} then 0
    else var k :| k in ks; f(k) + Sum(ks - {k}, f)
  }

  lemma {:induction false} SumRemove<K>(ks: set<K>, k: K, f: K -> int)
    requires k in ks
    ensures Sum(ks, f) == f(k) + Sum(ks - {k}, f)
    decreases |ks|
  {
    var x :| x in ks && Sum(ks, f) == f(x) + Sum(ks - {x}, f);
    if x != k {
      SumRemove(ks - {x}, k, f);
      SumRemove(ks - {k}, x, f);
      assert ks - {x} - {k} == ks - {k} - {x};
    }
  }

  lemma {:induction false} SumAgree<K>(ks: set<K>, f: K -> int, g: K -> int)
    requires forall k | k in ks :: f(k) == g(k)
    ensures Sum(ks, f) == Sum(ks, g)
    decreases |ks|
  {
    if ks != {} {
      var k :| k in ks;
      SumRemove(ks, k, f);
      SumRemove(ks, k, g);
      SumAgree(ks - {k}, f, g);
    }
  }

  /** One event moves the sum over the keys by its weight. */
  lemma SumStep<K>(ks: set<K>, c: K, before: K -> int, after: K -> int, d: int)
    requires forall k | k in ks && k != c :: after(k) == before(k)
    requires after(c) == (if c in ks then before(c) else 0) + d
    ensures Sum(ks + {c}, after) == Sum(ks, before) + d
  {
    SumRemove(ks + {c}, c, after);
    assert ks + {c} - {c} == ks - {c};
    SumAgree(ks - {c}, after, before);
    if c in ks {
      SumRemove(ks, c, before);
    } else {
      assert ks - {c} == ks;
    }
  }
}
