/** The terminal side of `do`: `typer.prompt`, which asks again when the
    answer is empty and aborts at the end of the input, and Python's `int`
    applied to the answer to "Enter choice: ". */
module Console {
  import opened Wrappers
  import opened Text

  /** The answer to one prompt and the input lines left after it; `Eof`
      stands for the `Abort` raised when the input runs out. */
  datatype Answer = Answer(line: string, rest: seq<string>) | Eof

  /** `typer.prompt(...)` over the lines still to be read: empty lines are
      skipped, the first non-empty one is the answer. */
  function Prompt(input: seq<string>): (a: Answer)
    ensures a.Eof? <==> forall i :: 0 <= i < |input| ==> input[i] == ""
    ensures a.Answer? ==>
              a.line != "" && |a.rest| < |input|
              && input[|input| - |a.rest| - 1] == a.line
              && input[|input| - |a.rest|..] == a.rest
              && forall j :: 0 <= j < |input| - |a.rest| - 1 ==> input[j] == ""
  {
    if input == [] then Eof
    else if input[0] == "" then
      var a := Prompt(input[1..]);
      assert forall i :: 0 < i < |input| ==> input[i] == input[1..][i - 1];
      a
    else Answer(input[0], input[1..])
  }

  predicate IsDigit(c: char)
  {
    '0' <= c <= '9'
  }

  predicate AllDigits(s: string)
  {
    forall i :: 0 <= i < |s| ==> IsDigit(s[i])
  }

  function DigitValue(c: char): nat
    requires IsDigit(c)
  {
    (c as int) - ('0' as int)
  }

  function DigitChar(d: nat): (c: char)
    requires d < 10
    ensures IsDigit(c) && DigitValue(c) == d
  {
    (('0' as int) + d) as char
  }

  /** The number a run of decimal digits spells. */
  function DigitsValue(s: string): nat
    requires AllDigits(s)
  {
    if s == [] then 0 else DigitsValue(s[..|s| - 1]) * 10 + DigitValue(s[|s| - 1])
  }

  /** `str(n)` for a natural number. */
  function ShowNat(n: nat): (s: string)
    ensures s != [] && AllDigits(s)
  {
    if n < 10 then [DigitChar(n)] else ShowNat(n / 10) + [DigitChar(n % 10)]
  }

  /** `str(i)`. */
  function ShowInt(i: int): string
  {
    if i < 0 then "-" + ShowNat(-i) else ShowNat(i)
  }

  /** Python's `int(line)`: surrounding white space is ignored, one sign is
      allowed, and the rest must be decimal digits; `None` stands for the
      `ValueError` raised otherwise. */
  function ParseInt(line: string): Option<int>
  {
    ParseSigned(Strip(line))
  }

  /** An optional sign followed by decimal digits. */
  function ParseSigned(t: string): Option<int>
  {
    if t == [] then None
    else
      var body := if t[0] == '-' || t[0] == '+' then t[1..] else t;
      if body == [] || !AllDigits(body) then None
      else
        var v: int := DigitsValue(body);
        Some(if t[0] == '-' then -v else v)
  }

  lemma {:induction false} DigitsValueShowNat(n: nat)
    ensures DigitsValue(ShowNat(n)) == n
    decreases n
  {
    if n >= 10 {
      DigitsValueShowNat(n / 10);
      var s := ShowNat(n);
      assert s[..|s| - 1] == ShowNat(n / 10);
    }
  }

  lemma StripUntouched(s: string)
    requires s != [] && !IsSpace(s[0]) && !IsSpace(s[|s| - 1])
    ensures Strip(s) == s
  {
  }

  /** `int(str(i)) == i`: reading back a printed number gives the number. */
  lemma ParseShowInt(i: int)
    ensures ParseInt(ShowInt(i)) == Some(i)
  {
    var s := ShowInt(i);
    var digits := ShowNat(if i < 0 then -i else i);
    DigitsValueShowNat(if i < 0 then -i else i);
    assert IsDigit(digits[0]) && IsDigit(digits[|digits| - 1]);
    assert s[|s| - 1] == digits[|digits| - 1];
    StripUntouched(s);
    if i < 0 {
      assert s[1..] == digits;
    }
  }

  /** White space around the answer does not change the number. */
  lemma ParseIntIgnoresSpace(line: string)
    ensures ParseInt(line) == ParseInt(Strip(line))
  {
    StripIdempotent(line);
  }

  lemma StripIdempotent(s: string)
    ensures Strip(Strip(s)) == Strip(s)
  {
    var e := StripEnd(s);
    var t := StripStart(e);
    StripEndShape(s);
    StripStartShape(e);
    if t != [] {
      assert t == e[|e| - |t|..];
      assert t[|t| - 1] == e[|e| - 1];
      StripUntouched(t);
    }
  }
}
