/**
 * The number grammar of section 6 of RFC 8259, as lengths of what a text starts with.
 *
 * A number is an integer part, a fraction and an exponent; how far it reaches does not depend on
 * what follows, provided this goes on with no character of a number.
 */
module Numbers {
  import opened Decimal

  /** How many digits the text starts with. */
  function DigitRun(text: string): (n: nat)
    ensures n <= |text|
  {
    if |text| > 0 && IsDigit(text[0]) then 1 + DigitRun(text[1..]) else 0
  }

  /** `int`: a zero alone, or digits that do not start with one. */
  function IntLength(text: string): (n: nat)
    ensures n <= |text|
  {
    if |text| > 0 && text[0] == '0' then 1 else DigitRun(text)
  }

  /** `frac`: a point and digits. */
  function FractionLength(text: string): (n: nat)
    ensures n <= |text|
  {
    if |text| > 0 && text[0] == '.' && DigitRun(text[1..]) > 0 then 1 + DigitRun(text[1..]) else 0
  }

  /** `exp`: the letter, perhaps a sign, and digits. */
  function ExponentLength(text: string): (n: nat)
    ensures n <= |text|
  {
    if |text| == 0 || (text[0] != 'e' && text[0] != 'E') then 0
    else
      var signed := if |text| > 1 && (text[1] == '+' || text[1] == '-') then 2 else 1;
      if DigitRun(text[signed..]) > 0 then signed + DigitRun(text[signed..]) else 0
  }

  function MinusLength(text: string): (n: nat)
    ensures n <= |text|
  {
    if |text| > 0 && text[0] == '-' then 1 else 0
  }

  /** The length of minus and `int`, 0 when there is no number. */
  function WholeLength(text: string): (n: nat)
    ensures n <= |text|
  {
    var minus := MinusLength(text);
    if IntLength(text[minus..]) == 0 then 0 else minus + IntLength(text[minus..])
  }

  function NumberLength(text: string): (n: nat)
    ensures WholeLength(text) <= n <= |text|
  {
    var whole := WholeLength(text);
    if whole == 0 then 0
    else
      var fraction := FractionLength(text[whole..]);
      whole + fraction + ExponentLength(text[whole + fraction..])
  }

  predicate IsNumberChar(c: char) { IsDigit(c) || c in "-+.eE" }

  lemma {:induction false} RunDigits(text: string)
    ensures forall i :: 0 <= i < DigitRun(text) ==> IsDigit(text[i])
    ensures DigitRun(text) < |text| ==> !IsDigit(text[DigitRun(text)])
  {
    if |text| > 0 && IsDigit(text[0]) {
      RunDigits(text[1..]);
      assert forall i :: 1 <= i < DigitRun(text) ==> text[i] == text[1..][i - 1];
    }
  }

  /** All characters of the first digits of a text are number characters, and so on for each part. */
  lemma {:induction false} RunIs(text: string, from: nat)
    requires from <= |text|
    ensures forall i :: from <= i < from + DigitRun(text[from..]) ==> IsDigit(text[i])
  {
    RunDigits(text[from..]);
    assert forall i :: from <= i < from + DigitRun(text[from..]) ==> text[i] == text[from..][i - from];
  }

  lemma {:induction false} WholeChars(text: string)
    ensures forall i :: 0 <= i < WholeLength(text) ==> IsDigit(text[i]) || (i == 0 && text[i] == '-')
    ensures WholeLength(text) > 0 ==> IsDigit(text[0]) || text[0] == '-'
  {
    RunIs(text, MinusLength(text));
  }

  lemma {:induction false} FractionChars(text: string)
    ensures forall i :: 0 <= i < FractionLength(text) ==> IsNumberChar(text[i])
    ensures FractionLength(text) > 0 ==> text[0] == '.'
  {
    if |text| > 0 {
      RunIs(text, 1);
    }
  }

  lemma {:induction false} ExponentChars(text: string)
    ensures forall i :: 0 <= i < ExponentLength(text) ==> IsNumberChar(text[i])
    ensures ExponentLength(text) > 0 ==> text[0] == 'e' || text[0] == 'E'
  {
    if |text| > 0 {
      var signed := if |text| > 1 && (text[1] == '+' || text[1] == '-') then 2 else 1;
      RunIs(text, signed);
    }
  }

  /** A number consists of number characters, and goes on after its whole part with a point or the letter. */
  lemma {:induction false} NumberChars(text: string)
    ensures forall i :: 0 <= i < NumberLength(text) ==> IsNumberChar(text[i])
    ensures NumberLength(text) > WholeLength(text) ==> text[WholeLength(text)] in ".eE"
    ensures NumberLength(text) > 0 ==> IsDigit(text[0]) || text[0] == '-'
  {
    var whole := WholeLength(text);
    WholeChars(text);
    if whole > 0 {
      var fraction := FractionLength(text[whole..]);
      FractionChars(text[whole..]);
      ExponentChars(text[whole + fraction..]);
      forall i | whole <= i < whole + fraction ensures IsNumberChar(text[i]) {
        assert text[i] == text[whole..][i - whole];
      }
      forall i | whole + fraction <= i < NumberLength(text) ensures IsNumberChar(text[i]) {
        assert text[i] == text[whole + fraction..][i - whole - fraction];
      }
    }
  }

  // ---------------------------------------------------------------- in front of something else

  /** What follows does not go on with a number character. */
  predicate Ends(rest: string) { rest == "" || !IsNumberChar(rest[0]) }

  lemma {:induction false} RunInFront(text: string, rest: string)
    requires Ends(rest)
    ensures DigitRun(text + rest) == DigitRun(text)
  {
    if |text| > 0 {
      RunInFront(text[1..], rest);
      assert (text + rest)[1..] == text[1..] + rest;
    } else {
      assert text + rest == rest;
    }
  }

  lemma {:induction false} RunFrom(text: string, rest: string, from: nat)
    requires Ends(rest) && from <= |text|
    ensures DigitRun((text + rest)[from..]) == DigitRun(text[from..])
  {
    assert (text + rest)[from..] == text[from..] + rest;
    RunInFront(text[from..], rest);
  }

  lemma {:induction false} WholeInFront(text: string, rest: string)
    requires Ends(rest)
    ensures WholeLength(text + rest) == WholeLength(text)
  {
    RunFrom(text, rest, MinusLength(text));
    if |text| == 0 {
      assert text + rest == rest;
    }
  }

  lemma {:induction false} FractionInFront(text: string, rest: string)
    requires Ends(rest)
    ensures FractionLength(text + rest) == FractionLength(text)
  {
    if |text| > 0 {
      RunFrom(text, rest, 1);
    } else {
      assert text + rest == rest;
    }
  }

  lemma {:induction false} ExponentInFront(text: string, rest: string)
    requires Ends(rest)
    ensures ExponentLength(text + rest) == ExponentLength(text)
  {
    if |text| == 0 {
      assert text + rest == rest;
    } else {
      var signed := if |text| > 1 && (text[1] == '+' || text[1] == '-') then 2 else 1;
      RunFrom(text, rest, signed);
    }
  }

  /** A text's number does not change when something else follows. */
  lemma {:induction false} NumberInFront(text: string, rest: string)
    requires Ends(rest)
    ensures NumberLength(text + rest) == NumberLength(text) && WholeLength(text + rest) == WholeLength(text)
  {
    var whole := WholeLength(text);
    WholeInFront(text, rest);
    if whole > 0 {
      var fraction := FractionLength(text[whole..]);
      TailInFront(text, rest, whole);
      FractionInFront(text[whole..], rest);
      TailInFront(text, rest, whole + fraction);
      ExponentInFront(text[whole + fraction..], rest);
    }
  }

  lemma {:induction false} TailInFront(text: string, rest: string, n: nat)
    requires n <= |text|
    ensures (text + rest)[n..] == text[n..] + rest
  {
  }

  // ---------------------------------------------------------------- whole numbers

  lemma {:induction false} AllRun(text: string)
    requires AllDigits(text)
    ensures DigitRun(text) == |text|
  {
    if |text| > 0 {
      assert text[0] in text && forall c :: c in text[1..] ==> c in text;
      AllRun(text[1..]);
    }
  }

  lemma {:induction false} NatTextLeads(n: nat)
    ensures NatText(n)[0] == '0' <==> n == 0
  {
    if n >= 10 {
      NatTextLeads(n / 10);
      assert NatText(n)[0] == NatText(n / 10)[0];
    }
  }

  /** The digits of a natural number, behind a minus or not, are `int` and nothing more. */
  lemma {:induction false} NatIsWhole(minus: string, n: nat)
    requires minus == "" || minus == "-"
    ensures WholeLength(minus + NatText(n)) == NumberLength(minus + NatText(n)) == |minus + NatText(n)|
  {
    var text, digits := minus + NatText(n), NatText(n);
    NatTextValue(n);
    NatTextLeads(n);
    AllRun(digits);
    assert digits[0] in digits;
    assert text[|minus|..] == digits && MinusLength(text) == |minus|;
    assert n == 0 ==> digits == "0";
    assert text[|text|..] == "";
  }
}
