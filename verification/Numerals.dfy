/** Printing numbers in decimal and hexadecimal, and reading decimal numbers back. */
module Numerals {
  import opened Arithmetic
  import opened Words

  const MAX_DIGITS := 16            // sizeof(size_t) * 2

  // ---------------------------------------------------------------- digit strings

  // Most significant digit first.
  type Digits = seq<nat>

  lemma PowStep(base: nat, n: nat)
    ensures Pow(base, 0) == 1
    ensures Pow(base, n + 1) == Times(Pow(base, n), base) == Times(base, Pow(base, n))
  {
  }

  function ValueOf(ds: Digits, base: nat): nat {
    if ds == [] then 0 else Times(ValueOf(ds[..|ds| - 1], base), base) + ds[|ds| - 1]
  }

  predicate Below(ds: Digits, base: nat) {
    forall i | 0 <= i < |ds| :: ds[i] < base
  }

  // Without leading zeros, and not empty.
  predicate Canonical(ds: Digits) {
    ds != [] && (|ds| > 1 ==> ds[0] != 0)
  }

  /** The digits of a number in a field of fixed width. */
  function Fixed(n: nat, width: nat, base: nat): (ds: Digits)
    requires base > 0
    ensures |ds| == width
    decreases width, n
  {
    if width == 0 then [] else Fixed(Quotient(n, base), width - 1, base) + [Remainder(n, base)]
  }

  lemma {:induction false} FixedValue(n: nat, width: nat, base: nat)
    requires base > 0 && n < Pow(base, width)
    ensures ValueOf(Fixed(n, width, base), base) == n && Below(Fixed(n, width, base), base)
    decreases width, n
  {
    hide Times, Quotient, Remainder, Pow;
    PowStep(base, if width == 0 then 0 else width - 1);
    if width > 0 {
      var ds, q := Fixed(n, width, base), Quotient(n, base);
      QuotientBelow(n, base, Pow(base, width - 1));
      FixedValue(q, width - 1, base);
      Division(n, base);
      assert ds[..width - 1] == Fixed(q, width - 1, base) && ds[width - 1] == Remainder(n, base);
    }
  }

  lemma {:induction false} ValueBound(ds: Digits, base: nat)
    requires base > 0 && Below(ds, base)
    ensures ValueOf(ds, base) < Pow(base, |ds|)
  {
    hide Times, Pow;
    PowStep(base, if ds == [] then 0 else |ds| - 1);
    if ds != [] {
      var init := ds[..|ds| - 1];
      ValueBound(init, base);
      TimesNext(ValueOf(init, base), base);
      TimesMonotone(ValueOf(init, base) + 1, Pow(base, |init|), base);
    }
  }

  /** Two digit strings of one length and value are the same. */
  lemma {:induction false} SameDigits(a: Digits, b: Digits, base: nat)
    requires base > 0 && Below(a, base) && Below(b, base) && |a| == |b| && ValueOf(a, base) == ValueOf(b, base)
    ensures a == b
  {
    hide Times;
    if a != [] {
      var n := |a| - 1;
      LastDigit(ValueOf(a[..n], base), a[n], ValueOf(b[..n], base), b[n], base);
      SameDigits(a[..n], b[..n], base);
      assert a == a[..n] + [a[n]] && b == b[..n] + [b[n]];
    }
  }

  lemma LastDigit(q: nat, r: nat, q': nat, r': nat, base: nat)
    requires r < base && r' < base && Times(q, base) + r == Times(q', base) + r'
    ensures q == q' && r == r'
  {
    hide Times;
    TimesNext(q, base);
    TimesNext(q', base);
    if q < q' {
      TimesMonotone(q + 1, q', base);
    } else if q' < q {
      TimesMonotone(q' + 1, q, base);
    }
  }

  lemma {:induction false} PowMonotone(base: nat, m: nat, n: nat)
    requires base > 0 && m <= n
    ensures 0 < Pow(base, m) <= Pow(base, n)
    decreases n
  {
    hide Times, Pow;
    PowStep(base, if n == 0 then 0 else n - 1);
    if m < n {
      PowMonotone(base, m, n - 1);
      PowGrows(base, Pow(base, n - 1));
    } else if n > 0 {
      PowMonotone(base, m - 1, n - 1);
      PowGrows(base, Pow(base, n - 1));
    }
  }

  lemma PowGrows(base: nat, p: nat)
    requires base > 0
    ensures p <= Times(p, base)
  {
  }

  lemma {:induction false} LeadingDigit(ds: Digits, base: nat)
    requires base > 0 && ds != [] && ds[0] != 0
    ensures ValueOf(ds, base) >= Pow(base, |ds| - 1)
  {
    hide Times, Pow;
    if |ds| == 1 {
      PowStep(base, 0);
    } else {
      var init := ds[..|ds| - 1];
      LeadingDigit(init, base);
      PowStep(base, |init| - 1);
      TimesMonotone(Pow(base, |init| - 1), ValueOf(init, base), base);
    }
  }

  /** A canonical numeral is the shortest one of its value, and there is only one. */
  lemma CanonicalShortest(a: Digits, b: Digits, base: nat)
    requires base > 0 && Below(a, base) && Below(b, base) && b != []
    requires Canonical(a) && ValueOf(a, base) == ValueOf(b, base)
    ensures |a| <= |b|
    ensures Canonical(b) ==> a == b
  {
    hide Pow, ValueOf;
    ValueBound(b, base);
    if |a| > |b| {
      LeadingDigit(a, base);
      PowMonotone(base, |b|, |a| - 1);
    }
    if Canonical(b) {
      ValueBound(a, base);
      if |b| > |a| {
        LeadingDigit(b, base);
        PowMonotone(base, |a|, |b| - 1);
      }
      SameDigits(a, b, base);
    }
  }

  /** Leading zeros do not change the value. */
  lemma {:induction false} DropZeros(ds: Digits, k: nat, base: nat)
    requires k <= |ds| && forall i :: 0 <= i < k ==> ds[i] == 0
    ensures ValueOf(ds[k..], base) == ValueOf(ds, base)
    decreases |ds|
  {
    hide Times;
    if |ds| > k {
      var n := |ds| - 1;
      DropZeros(ds[..n], k, base);
      assert ds[k..][..n - k] == ds[..n][k..];
    } else if k > 0 {
      DropZeros(ds[..k - 1], k - 1, base);
      TimesZero(base);
      assert ds[..k - 1][k - 1..] == [] && ds[k..] == [];
    }
  }

  // ---------------------------------------------------------------- the two printers

  function FirstNonzero(ds: Digits, from: nat): (k: nat)
    requires from <= |ds|
    ensures from <= k <= |ds| && (k < |ds| ==> ds[k] != 0) && forall i :: from <= i < k ==> ds[i] == 0
    decreases |ds| - from
  {
    if from == |ds| || ds[from] != 0 then from else FirstNonzero(ds, from + 1)
  }

  /** What the decimal printer writes: from the first nonzero digit after the very first one, or that very
      first digit alone. A nonzero digit at index 0 is not noticed, for index 0 means "not found yet". */
  function DecimalDigits(n: nat): Digits {
    var ds := Fixed(n, MAX_DIGITS, 10);
    var k := FirstNonzero(ds, 1);
    if k == |ds| then ds[..1] else ds[k..]
  }

  function HexDigits(n: nat): Digits {
    var ds := Fixed(n, MAX_DIGITS, 16);
    var k := FirstNonzero(ds, 0);
    if k == |ds| then ds[k - 1..] else ds[k..]
  }

  /** Character `d` of "0123456789abcdef". */
  function DigitChar(d: nat): char
    requires d < 16
  {
    if d < 10 then '0' + d as char else 'a' + (d - 10) as char
  }

  function TextOf(ds: Digits): (s: string)
    requires Below(ds, 16)
    ensures |s| == |ds| && forall i :: 0 <= i < |ds| ==> s[i] == DigitChar(ds[i])
  {
    seq(|ds|, i requires 0 <= i < |ds| => DigitChar(ds[i]))
  }

  const TEN_15 := 1_000_000_000_000_000
  const TEN_16 := 10_000_000_000_000_000

  lemma TenPowers()
    ensures Pow(10, 15) == TEN_15 && Pow(10, 16) == TEN_16
  {
    assert Pow(10, 5) == 100_000;
    assert Pow(10, 10) == 10_000_000_000;
  }

  lemma HexPower()
    ensures Pow(16, 16) == WORD_LIMIT && Pow(16, 15) == 0x1000_0000_0000_0000
  {
    assert Pow(16, 5) == 0x10_0000;
    assert Pow(16, 10) == 0x100_0000_0000;
  }

  lemma DecimalFits(n: nat)
    requires n < TEN_16
    ensures Below(Fixed(n, MAX_DIGITS, 10), 10) && Below(DecimalDigits(n), 10) && Below(DecimalDigits(n), 16)
  {
    TenPowers();
    FixedValue(n, MAX_DIGITS, 10);
  }

  lemma HexFits(n: Word)
    ensures Below(Fixed(n, MAX_DIGITS, 16), 16) && Below(HexDigits(n), 16)
  {
    HexPower();
    FixedValue(n, MAX_DIGITS, 16);
  }

  /** The decimal text of a number; none from 10^16 on, where the first digit would be looked up past the
      end of the digit characters. */
  function DecimalText(n: nat): Option<string> {
    if n < TEN_16 then
      DecimalFits(n);
      Some(TextOf(DecimalDigits(n)))
    else None
  }

  function HexText(n: Word): string {
    HexFits(n);
    TextOf(HexDigits(n))
  }

  // `ds` are the first digits of the number in its field, `num` is what `left` more digits must hold,
  // and `place` is the place value of the next one.
  ghost predicate Peeled(number: nat, ds: Digits, num: nat, place: nat, left: nat, base: nat)
    requires base > 0
  {
    && ds + Fixed(num, left, base) == Fixed(number, MAX_DIGITS, base)
    && num < Pow(base, left)
    && (left > 0 ==> 0 < place == Pow(base, left - 1))
  }

  /** The first digit of a field, and what is left for the others. */
  lemma FixedHead(num: nat, left: nat, base: nat)
    requires base > 0 && left > 0 && num < Pow(base, left)
    ensures var place := Pow(base, left - 1);
      && 0 < place && Quotient(num, place) < base
      && Times(Quotient(num, place), place) <= num
      && num - Times(Quotient(num, place), place) < place
      && Fixed(num, left, base)
         == [Quotient(num, place)] + Fixed(num - Times(Quotient(num, place), place), left - 1, base)
  {
    hide Times, Quotient, Remainder, Pow, ValueOf, Fixed;
    var place := Pow(base, left - 1);
    PowMonotone(base, 0, left - 1);
    PowStep(base, left - 1);
    var digit := Quotient(num, place);
    var rest := num - Times(digit, place);
    Division(num, place);
    QuotientBelow(num, place, base);
    FixedValue(num, left, base);
    FixedValue(rest, left - 1, base);
    ConsValue(digit, Fixed(rest, left - 1, base), base);
    SameDigits(Fixed(num, left, base), [digit] + Fixed(rest, left - 1, base), base);
  }

  lemma {:induction false} ConsValue(d: nat, ds: Digits, base: nat)
    ensures ValueOf([d] + ds, base) == Times(d, Pow(base, |ds|)) + ValueOf(ds, base)
  {
    hide Times, Pow;
    if ds == [] {
      PowStep(base, 0);
      TimesZero(base);
      TimesOne(d);
      assert ([d] + ds)[..0] == [];
    } else {
      var n := |ds| - 1;
      ConsValue(d, ds[..n], base);
      PowStep(base, n);
      assert ([d] + ds)[..n + 1] == [d] + ds[..n];
      HornerStep(d, ValueOf(ds[..n], base), Pow(base, n), base);
    }
  }

  lemma HornerStep(d: nat, v: nat, p: nat, base: nat)
    ensures Times(Times(d, p) + v, base) == Times(d, Times(base, p)) + Times(v, base)
  {
    calc {
      (d * p + v) * base;
      d * p * base + v * base;
      d * (base * p) + v * base;
    }
  }

  lemma PeelStart(number: nat, base: nat)
    requires base > 0 && number < Pow(base, MAX_DIGITS)
    ensures Peeled(number, [], number, Pow(base, MAX_DIGITS - 1), MAX_DIGITS, base)
  {
    hide Pow, Fixed;
    PowMonotone(base, 0, MAX_DIGITS - 1);
    assert [] + Fixed(number, MAX_DIGITS, base) == Fixed(number, MAX_DIGITS, base);
  }

  lemma PeelEnd(number: nat, ds: Digits, num: nat, place: nat, base: nat)
    requires base > 0 && Peeled(number, ds, num, place, 0, base)
    ensures ds == Fixed(number, MAX_DIGITS, base)
  {
    hide Pow;
    assert Fixed(num, 0, base) == [] && ds + [] == ds;
  }

  lemma PeelStep(number: nat, ds: Digits, num: nat, place: nat, left: nat, base: nat)
    requires base > 0 && left > 0 && Peeled(number, ds, num, place, left, base)
    ensures 0 < place && Quotient(num, place) < base && Times(Quotient(num, place), place) <= num
    ensures Peeled(number, ds + [Quotient(num, place)], num - Times(Quotient(num, place), place),
                   Quotient(place, base), left - 1, base)
  {
    hide Times, Quotient, Remainder, Pow, Fixed;
    FixedHead(num, left, base);
    var digit := Quotient(num, place);
    assert ds + [digit] + Fixed(num - Times(digit, place), left - 1, base)
        == ds + ([digit] + Fixed(num - Times(digit, place), left - 1, base));
    if left > 1 {
      PowStep(base, left - 2);
      QuotientExact(base, Pow(base, left - 2));
      PowMonotone(base, 0, left - 2);
    }
  }

  /** `print_number_decimal`. */
  method PrintNumberDecimal(number: Word) returns (out: Option<string>)
    ensures out == DecimalText(number)
  {
    if number >= TEN_16 {
      return None;
    }
    var buffer, start := FillDecimal(number);
    out := Some(if start == 0 then buffer[..1] else buffer[start..MAX_DIGITS]);
    DecimalShown(buffer[..], number, start);
  }

  /** The digit loop, which also looks for the first digit to be printed. */
  method FillDecimal(number: nat) returns (buffer: array<char>, start: nat)
    requires number < TEN_16
    ensures Shown(buffer[..], Fixed(number, MAX_DIGITS, 10)) && FoundFrom(Fixed(number, MAX_DIGITS, 10), start)
    ensures start < MAX_DIGITS
  {
    TenPowers();
    hide Times, Quotient, Remainder, Pow, Fixed, Peeled, Shown, FoundFrom, Stripped;
    PeelStart(number, 10);
    ghost var ds: Digits := [];
    buffer := new char[32](_ => 0 as char);
    start := 0;
    var num: nat, place: nat := number, TEN_15;
    NothingShown(buffer[..]);
    for i := 0 to MAX_DIGITS
      invariant Peeled(number, ds, num, place, MAX_DIGITS - i, 10)
      invariant |ds| == i && start <= i && start < MAX_DIGITS
      invariant Shown(buffer[..], ds)
      invariant FoundFrom(ds, start)
    {
      PeelStep(number, ds, num, place, MAX_DIGITS - i, 10);
      var digit: nat := Quotient(num, place);
      FindMore(ds, start, digit);
      if start == 0 && digit > 0 {
        start := i;
      }
      ghost var before := buffer[..];
      buffer[i] := DigitChar(digit);
      ShowMore(before, buffer[..], ds, digit);
      ds := ds + [digit];
      num := num - Times(digit, place);
      place := Quotient(place, 10);
    }
    PeelEnd(number, ds, num, place, 10);
  }

  // The first characters of the buffer show the digits.
  ghost predicate Shown(buffer: seq<char>, ds: Digits) {
    && |ds| <= |buffer| == 32
    && forall k :: 0 <= k < |ds| ==> ds[k] < 16 && buffer[k] == DigitChar(ds[k])
  }

  lemma NothingShown(buffer: seq<char>)
    requires |buffer| == 32
    ensures Shown(buffer, []) && FoundFrom([], 0) && Stripped([], 0)
  {
  }

  lemma FindMore(ds: Digits, start: nat, digit: nat)
    requires FoundFrom(ds, start)
    ensures FoundFrom(ds + [digit], if start == 0 && digit > 0 then |ds| else start)
  {
  }

  lemma ShowMore(before: seq<char>, after: seq<char>, ds: Digits, digit: nat)
    requires Shown(before, ds) && |ds| < 32 && digit < 16
    requires after == before[|ds| := DigitChar(digit)]
    ensures Shown(after, ds + [digit])
  {
  }

  // The scan for the first nonzero digit after index 0.
  ghost predicate FoundFrom(ds: Digits, start: nat) {
    if start == 0 then forall k :: 1 <= k < |ds| ==> ds[k] == 0
    else start < |ds| && ds[start] != 0 && forall k :: 1 <= k < start ==> ds[k] == 0
  }

  lemma DecimalShown(buffer: seq<char>, number: nat, start: nat)
    requires number < TEN_16
    requires Shown(buffer, Fixed(number, MAX_DIGITS, 10)) && FoundFrom(Fixed(number, MAX_DIGITS, 10), start)
    ensures DecimalText(number) == Some(if start == 0 then buffer[..1] else buffer[start..MAX_DIGITS])
  {
    DecimalFits(number);
    var ds := Fixed(number, MAX_DIGITS, 10);
    var f := FirstNonzero(ds, 1);
    assert f == if start == 0 then MAX_DIGITS else start;
    assert TextOf(DecimalDigits(number)) == if start == 0 then buffer[..1] else buffer[start..MAX_DIGITS];
  }

  /** `print_number_hex`. */
  method PrintNumberHex(number: Word) returns (out: string)
    ensures out == HexText(number)
  {
    HexPower();
    hide Times, Quotient, Remainder, Pow, Fixed, Peeled, Shown, FoundFrom, Stripped;
    hide TextOf, DecimalText, HexText, DecimalDigits, HexDigits;
    PeelStart(number, 16);
    ghost var ds: Digits, shown: Digits := [], [];
    var buffer := new char[32](_ => 0 as char);
    var num: nat, place: nat, length: nat, started := number, 0x1000_0000_0000_0000, 0, false;
    NothingShown(buffer[..]);
    for i := 0 to MAX_DIGITS
      invariant Peeled(number, ds, num, place, MAX_DIGITS - i, 16)
      invariant |ds| == i && (started <==> length > 0) && length <= i && |shown| == length && Stripped(ds, length)
      invariant shown == ds[i - length..] && Shown(buffer[..], shown)
    {
      PeelStep(number, ds, num, place, MAX_DIGITS - i, 16);
      var digit: nat := Quotient(num, place);
      num := num - Times(digit, place);
      place := Quotient(place, 16);
      ghost var before := buffer[..];
      StripStep(ds, length, digit);
      ds := ds + [digit];
      if started || digit > 0 || i + 1 == MAX_DIGITS {
        started := true;
        buffer[length] := DigitChar(digit);
        ShowMore(before, buffer[..], shown, digit);
        shown := shown + [digit];
        length := length + 1;
      }
    }
    PeelEnd(number, ds, num, place, 16);
    HexShown(buffer[..], number, length);
    out := buffer[..length];
  }

  // The last `n` digits are shown: from the first nonzero one on, or the very last one.
  ghost predicate Stripped(ds: Digits, n: nat) {
    && n <= |ds| && (|ds| == MAX_DIGITS ==> n > 0)
    && (forall k :: 0 <= k < |ds| - n ==> ds[k] == 0)
    && (n > 0 ==> ds[|ds| - n] != 0 || (n == 1 && |ds| == MAX_DIGITS))
  }

  lemma StripStep(ds: Digits, n: nat, digit: nat)
    requires |ds| < MAX_DIGITS && Stripped(ds, n)
    ensures Stripped(ds + [digit], if n > 0 || digit > 0 || |ds| + 1 == MAX_DIGITS then n + 1 else n)
    ensures (ds + [digit])[|ds| - n..] == ds[|ds| - n..] + [digit]
  {
    var more := ds + [digit];
    assert forall k :: 0 <= k < |ds| ==> more[k] == ds[k];
  }

  lemma HexShown(buffer: seq<char>, number: Word, n: nat)
    requires Stripped(Fixed(number, MAX_DIGITS, 16), n)
    requires Shown(buffer, Fixed(number, MAX_DIGITS, 16)[MAX_DIGITS - n..])
    ensures HexText(number) == buffer[..n]
  {
    HexFits(number);
    var ds := Fixed(number, MAX_DIGITS, 16);
    var f := FirstNonzero(ds, 0);
    assert (if f == MAX_DIGITS then MAX_DIGITS - 1 else f) == MAX_DIGITS - n;
    assert HexDigits(number) == ds[MAX_DIGITS - n..];
  }

  // ---------------------------------------------------------------- reading a number back

  /** The digits of a text; none when some character is not a decimal digit. */
  function DigitsIn(s: string): Option<Digits> {
    if s == [] then Some([])
    else
      match DigitsIn(s[..|s| - 1])
      case None => None
      case Some(ds) => if '0' <= s[|s| - 1] <= '9' then Some(ds + [s[|s| - 1] as int - 0x30]) else None
  }

  function Atol(s: string): nat {
    match DigitsIn(s)
    case None => 0
    case Some(ds) => ValueOf(ds, 10)
  }

  const LONG_LIMIT := 0x8000_0000_0000_0000

  // The sum after the first `i` digits, each with its place value.
  function PartialSum(s: string, i: nat): Option<nat>
    requires i <= |s|
  {
    match DigitsIn(s[..i])
    case None => None
    case Some(ds) => Some(ValueOf(ds, 10) * Pow(10, |s| - i))
  }

  predicate Overflows(s: string) {
    exists i: nat | i <= |s| :: PartialSum(s, i).Some? && PartialSum(s, i).value >= LONG_LIMIT
  }

  /** `atol_len`; none when a sum of digits does not fit `long`, which has no meaning. */
  method AtolLen(s: string) returns (r: Option<nat>)
    ensures r == if Overflows(s) then None else Some(Atol(s))
  {
    var result: nat := 0;
    for i := 0 to |s|
      invariant PartialSum(s, i) == Some(result)
      invariant forall j: nat :: j <= i ==> PartialSum(s, j).Some? && PartialSum(s, j).value < LONG_LIMIT
    {
      assert s[..i + 1][..i] == s[..i];
      var digit := s[i] as int - 0x30;
      if digit < 0 || digit > 9 {
        forall j: nat | i < j <= |s| ensures PartialSum(s, j) == None {
          NotANumber(s[..j], i);
        }
        NotANumber(s, i);
        return Some(0);
      }
      ghost var ds := DigitsIn(s[..i]).value;
      assert (ds + [digit])[..|ds|] == ds;
      AppendStep(ValueOf(ds, 10), digit, Pow(10, |s| - i - 1));
      result := result + digit * Pow(10, |s| - i - 1);
      assert PartialSum(s, i + 1) == Some(result);
      if result >= LONG_LIMIT {
        return None;
      }
    }
    assert s[..|s|] == s;
    return Some(result);
  }

  /** A text of at most 18 digits never overflows. */
  lemma ShortTextFits(s: string)
    requires |s| <= 18
    ensures !Overflows(s)
  {
    forall i: nat | i <= |s| && PartialSum(s, i).Some? ensures PartialSum(s, i).value < LONG_LIMIT {
      var ds := DigitsIn(s[..i]).value;
      DigitsBelow(s[..i]);
      ValueBound(ds, 10);
      BelowPower(ValueOf(ds, 10), i, |s| - i);
      PowMonotone(10, |s|, 18);
      assert Pow(10, 18) < LONG_LIMIT by { TenPowers(); assert Pow(10, 18) == 1000 * Pow(10, 15); }
    }
  }

  lemma {:induction false} DigitsBelow(s: string)
    requires DigitsIn(s).Some?
    ensures Below(DigitsIn(s).value, 10) && |DigitsIn(s).value| == |s|
  {
    if s != [] {
      DigitsBelow(s[..|s| - 1]);
    }
  }

  lemma {:induction false} BelowPower(v: nat, i: nat, k: nat)
    requires v < Pow(10, i)
    ensures v * Pow(10, k) < Pow(10, i + k)
  {
    if k > 0 {
      BelowPower(v, i, k - 1);
      assert v * Pow(10, k) == 10 * (v * Pow(10, k - 1));
    }
  }

  lemma AppendStep(v: nat, digit: nat, p: nat)
    ensures v * (10 * p) + digit * p == (v * 10 + digit) * p
  {
  }

  lemma {:induction false} NotANumber(s: string, i: nat)
    requires i < |s| && !('0' <= s[i] <= '9')
    ensures DigitsIn(s) == None && Atol(s) == 0
  {
    if i < |s| - 1 {
      NotANumber(s[..|s| - 1], i);
    }
  }

  lemma {:induction false} DigitsOfText(ds: Digits)
    requires Below(ds, 10)
    ensures DigitsIn(TextOf(ds)) == Some(ds)
  {
    if ds != [] {
      var init := ds[..|ds| - 1];
      DigitsOfText(init);
      assert TextOf(ds)[..|ds| - 1] == TextOf(init);
      assert ds == init + [ds[|ds| - 1]];
    }
  }

  // ---------------------------------------------------------------- what was printed

  lemma DecimalValue(n: nat)
    requires n < TEN_15
    ensures Canonical(DecimalDigits(n)) && ValueOf(DecimalDigits(n), 10) == n
  {
    TenPowers();
    DecimalFits(n);
    FixedValue(n, MAX_DIGITS, 10);
    var ds := Fixed(n, MAX_DIGITS, 10);
    if ds[0] != 0 {
      LeadingDigit(ds, 10);
    }
    var k := FirstNonzero(ds, 1);
    if k == |ds| {
      DropZeros(ds, |ds| - 1, 10);
      assert ds[..1] == [0] && ds[|ds| - 1..] == [0];
    } else {
      DropZeros(ds, k, 10);
    }
  }

  /** Reading a printed number gives the number exactly below 10^15; the printed text is then its shortest
      numeral. From 10^15 on the leading digit is lost. */
  lemma DecimalRoundTrip(n: nat)
    requires n < TEN_16
    ensures DecimalText(n).Some? && (Atol(DecimalText(n).value) == n <==> n < TEN_15)
    ensures DigitsIn(DecimalText(n).value) == Some(DecimalDigits(n)) && (n < TEN_15 ==> Canonical(DecimalDigits(n)))
  {
    TenPowers();
    DecimalFits(n);
    DigitsOfText(DecimalDigits(n));
    if n < TEN_15 {
      DecimalValue(n);
    } else {
      ValueBound(DecimalDigits(n), 10);
      PowMonotone(10, |DecimalDigits(n)|, 15);
    }
  }

  lemma {:induction false} OneAndZeros(w: nat)
    ensures Fixed(Pow(10, w), w + 1, 10) == [1] + seq(w, _ => 0)
  {
    if w == 0 {
      assert Fixed(0, 0, 10) == [];
    } else {
      assert Quotient(Pow(10, w), 10) == Pow(10, w - 1) && Remainder(Pow(10, w), 10) == 0;
      OneAndZeros(w - 1);
    }
  }

  /** 10^15 and 10^15 + 1 are both printed as "1". */
  lemma LeadingDigitLost()
    ensures DecimalText(TEN_15) == DecimalText(TEN_15 + 1) == Some("1")
  {
    TenPowers();
    OneAndZeros(15);
    assert Quotient(TEN_15 + 1, 10) == Quotient(TEN_15, 10) && Remainder(TEN_15 + 1, 10) == 1;
    var ds, more := Fixed(TEN_15, MAX_DIGITS, 10), Fixed(TEN_15 + 1, MAX_DIGITS, 10);
    assert more == ds[..15] + [1];
    assert forall i :: 1 <= i < 16 ==> ds[i] == 0;
    assert forall i :: 1 <= i < 15 ==> more[i] == ds[i];
    assert FirstNonzero(ds, 1) == 16;
    assert more[15] == 1 && FirstNonzero(more, 1) == 15;
    assert more[15..] == [1] == ds[..1];
    assert DecimalDigits(TEN_15) == DecimalDigits(TEN_15 + 1) == [1];
    DecimalFits(TEN_15);
    assert TextOf([1]) == "1";
  }

  /** The hexadecimal text of every 64-bit value is its unique shortest numeral. */
  lemma HexShortest(n: Word, other: Digits)
    requires Below(other, 16) && other != [] && ValueOf(other, 16) == n
    ensures Below(HexDigits(n), 16) && Canonical(HexDigits(n)) && ValueOf(HexDigits(n), 16) == n
    ensures |HexDigits(n)| <= |other| && (Canonical(other) ==> other == HexDigits(n))
  {
    HexPower();
    HexFits(n);
    FixedValue(n, MAX_DIGITS, 16);
    var ds := Fixed(n, MAX_DIGITS, 16);
    var k := FirstNonzero(ds, 0);
    DropZeros(ds, if k == |ds| then k - 1 else k, 16);
    CanonicalShortest(HexDigits(n), other, 16);
  }
  // ---------------------------------------------------------------- reading hexadecimal text

  function HexDigit(c: char): Option<nat> {
    if '0' <= c <= '9' then Some(c as int - 0x30)
    else if 'a' <= c <= 'f' then Some(c as int - 0x61 + 10)
    else None
  }

  /** The digits of a text; none when some character is not a hexadecimal digit. */
  function HexDigitsIn(s: string): Option<Digits> {
    if s == [] then Some([])
    else
      match HexDigitsIn(s[..|s| - 1])
      case None => None
      case Some(ds) =>
        match HexDigit(s[|s| - 1])
        case None => None
        case Some(d) => Some(ds + [d])
  }

  lemma {:induction false} HexDigitsOfText(ds: Digits)
    requires Below(ds, 16)
    ensures HexDigitsIn(TextOf(ds)) == Some(ds)
  {
    if ds != [] {
      var init := ds[..|ds| - 1];
      HexDigitsOfText(init);
      assert TextOf(ds)[..|ds| - 1] == TextOf(init);
      assert ds == init + [ds[|ds| - 1]];
    }
  }

  lemma HexReadBack(n: Word)
    ensures HexDigitsIn(HexText(n)) == Some(HexDigits(n)) && ValueOf(HexDigits(n), 16) == n
  {
    HexFits(n);
    HexPower();
    FixedValue(n, MAX_DIGITS, 16);
    HexDigitsOfText(HexDigits(n));
    hide HexDigits, TextOf;
    HexShortest(n, Fixed(n, MAX_DIGITS, 16));
  }
}
