// Strings the way both languages compare them: code unit by code unit, a prefix before what extends it.
module Text {

  predicate Less(a: string, b: string) {
    if b == "" then false
    else if a == "" then true
    else a[0] < b[0] || (a[0] == b[0] && Less(a[1..], b[1..]))
  }

  lemma {:induction false} LessIsIrreflexive(a: string)
    ensures !Less(a, a)
  {
    if a != "" {
      LessIsIrreflexive(a[1..]);
    }
  }

  lemma {:induction false} LessIsTransitive(a: string, b: string, c: string)
    requires Less(a, b) && Less(b, c)
    ensures Less(a, c)
  {
    if a != "" && a[0] == b[0] && b[0] == c[0] {
      LessIsTransitive(a[1..], b[1..], c[1..]);
    }
  }

  lemma {:induction false} LessIsTotal(a: string, b: string)
    ensures a == b || Less(a, b) || Less(b, a)
  {
    if a != "" && b != "" && a[0] == b[0] {
      LessIsTotal(a[1..], b[1..]);
      if a[1..] == b[1..] {
        assert a == [a[0]] + a[1..];
        assert b == [b[0]] + b[1..];
      }
    }
  }

  lemma {:induction false} LessIsAsymmetric(a: string, b: string)
    requires Less(a, b)
    ensures !Less(b, a) && a != b
  {
    LessIsIrreflexive(a);
    if Less(b, a) {
      LessIsTransitive(a, b, a);
    }
  }

  /** Between fixed-width fields, the first field that differs decides. */
  lemma {:induction false} LessByField(a: string, b: string, restOfA: string, restOfB: string)
    requires |a| == |b|
    ensures Less(a + restOfA, b + restOfB) <==> Less(a, b) || (a == b && Less(restOfA, restOfB))
  {
    if a == "" {
      assert a + restOfA == restOfA && b + restOfB == restOfB;
    } else {
      assert (a + restOfA)[1..] == a[1..] + restOfA;
      assert (b + restOfB)[1..] == b[1..] + restOfB;
      LessByField(a[1..], b[1..], restOfA, restOfB);
      assert a == [a[0]] + a[1..] && b == [b[0]] + b[1..];
    }
  }

  predicate StartsWith(text: string, prefix: string) {
    prefix <= text
  }

  predicate EndsWith(text: string, suffix: string) {
    |suffix| <= |text| && text[|text| - |suffix|..] == suffix
  }

  lemma {:induction false} LastOfSuffix(text: string, suffix: string)
    requires suffix != ""
    ensures EndsWith(text, suffix) ==> text[|text| - 1] == suffix[|suffix| - 1]
  {
    if EndsWith(text, suffix) {
      assert text[|text| - |suffix|..][|suffix| - 1] == suffix[|suffix| - 1];
    }
  }

  predicate IsDigit(c: char) {
    '0' <= c <= '9'
  }

  predicate AllDigits(text: string) {
    forall i :: 0 <= i < |text| ==> IsDigit(text[i])
  }

  function Digit(value: int): char
    requires 0 <= value < 10
  {
    ('0' as int + value) as char
  }

  function DigitValue(c: char): int
    requires IsDigit(c)
  {
    c as int - '0' as int
  }

  /** The number a run of decimal digits spells. */
  function Value(digits: string): nat
    requires AllDigits(digits)
  {
    if digits == "" then 0
    else 10 * Value(digits[..|digits| - 1]) + DigitValue(digits[|digits| - 1])
  }

  function Power10(exponent: nat): nat {
    if exponent == 0 then 1 else 10 * Power10(exponent - 1)
  }

  /** `number` in decimal, zero-padded on the left to exactly `width` digits. */
  function Fixed(number: nat, width: nat): (digits: string)
    ensures |digits| == width && AllDigits(digits)
  {
    if width == 0 then "" else Fixed(number / 10, width - 1) + [Digit(number % 10)]
  }

  /** `number` in decimal with no leading zero, which is how both languages print an integer. */
  function Render(number: nat): (digits: string)
    ensures digits != "" && AllDigits(digits)
  {
    if number < 10 then [Digit(number)] else Render(number / 10) + [Digit(number % 10)]
  }

  lemma {:induction false} ValueOfFixed(number: nat, width: nat)
    requires number < Power10(width)
    ensures Value(Fixed(number, width)) == number
  {
    if width != 0 {
      var digits := Fixed(number, width);
      assert digits[..width - 1] == Fixed(number / 10, width - 1);
      ValueOfFixed(number / 10, width - 1);
    }
  }

  lemma {:induction false} ValueOfRender(number: nat)
    ensures Value(Render(number)) == number
  {
    if number >= 10 {
      var digits := Render(number);
      assert digits[..|digits| - 1] == Render(number / 10);
      ValueOfRender(number / 10);
    }
  }

  lemma {:induction false} FixedOfValue(digits: string)
    requires AllDigits(digits)
    ensures Fixed(Value(digits), |digits|) == digits
    ensures Value(digits) < Power10(|digits|)
  {
    if digits != "" {
      var rest, last := digits[..|digits| - 1], digits[|digits| - 1];
      FixedOfValue(rest);
      assert Value(digits) / 10 == Value(rest);
      assert Digit(Value(digits) % 10) == last;
      assert digits == rest + [last];
    }
  }

  /** On digit runs of one width, text order is numeric order. */
  lemma {:induction false} DigitsInOrder(a: string, b: string)
    requires |a| == |b| && AllDigits(a) && AllDigits(b)
    ensures Less(a, b) <==> Value(a) < Value(b)
    ensures a == b <==> Value(a) == Value(b)
  {
    if a != "" {
      var restOfA, lastOfA := a[..|a| - 1], a[|a| - 1..];
      var restOfB, lastOfB := b[..|b| - 1], b[|b| - 1..];
      assert a == restOfA + lastOfA && b == restOfB + lastOfB;
      DigitsInOrder(restOfA, restOfB);
      LessByField(restOfA, restOfB, lastOfA, lastOfB);
    }
  }
}
