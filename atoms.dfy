/**
  The atom classifier of lis.py:32-40 and the text form of integers that the
  printer (str of an int) produces. Only the integer branch is modelled: a token
  that Python's int() accepts becomes a number, every other token a symbol.
 */
module Atoms {
  import opened Wrappers
  import opened Syntax

  predicate IsDigit(c: char)
  {
    '0' <= c <= '9'
  }

  predicate AllDigits(s: string)
  {
    forall i :: 0 <= i < |s| ==> IsDigit(s[i])
  }

  /** The body int() accepts after an optional sign: ASCII digits, where a single
      underscore may stand between two digits ("1_000"), but not at either end
      and never two in a row. */
  predicate IsDigitRun(s: string)
  {
    && |s| > 0
    && IsDigit(s[0]) && IsDigit(s[|s| - 1])
    && (forall i :: 0 <= i < |s| ==> IsDigit(s[i]) || s[i] == '_')
    && NoDoubleUnderscore(s)
  }

  /** No two underscores in a row. */
  predicate NoDoubleUnderscore(s: string)
  {
    |s| < 2 || ((s[0] != '_' || s[1] != '_') && NoDoubleUnderscore(s[1..]))
  }

  /** s without its underscores. */
  function DropUnderscores(s: string): (d: string)
  {
    if s == [] then [] else (if s[0] == '_' then [] else [s[0]]) + DropUnderscores(s[1..])
  }

  function DigitValue(c: char): (v: nat)
    requires IsDigit(c)
  {
    (c as int) - ('0' as int)
  }

  /** The value of a string of decimal digits, most significant first. */
  function DecimalValue(d: string): (v: nat)
    requires AllDigits(d)
  {
    if d == [] then 0 else DecimalValue(d[..|d| - 1]) * 10 + DigitValue(d[|d| - 1])
  }

  lemma {:induction false} DropUnderscoresDigits(s: string)
    requires forall i :: 0 <= i < |s| ==> IsDigit(s[i]) || s[i] == '_'
    ensures AllDigits(DropUnderscores(s))
  {
    if s != [] {
      DropUnderscoresDigits(s[1..]);
    }
  }

  /** The value int() gives a digit run. */
  function RunValue(s: string): nat
    requires IsDigitRun(s)
  {
    DropUnderscoresDigits(s);
    DecimalValue(DropUnderscores(s))
  }

  /** int() of an unsigned body: Some(value) for a digit run, else None. */
  function ParseRun(s: string): Option<int>
  {
    if IsDigitRun(s) then Some(RunValue(s)) else None
  }

  /** The body's value with the sign applied. */
  function Signed(sign: char, body: Option<int>): Option<int>
  {
    match body
    case None => None
    case Some(v) => Some(if sign == '-' then -v else v)
  }

  /** int(token): Some(value) when the token is an integer literal int() accepts
      (an optional '+' or '-' and a digit run), else None (int() raises ValueError). */
  function ParseInt(t: string): (r: Option<int>)
    ensures r.Some? ==> |t| > 0 && (IsDigit(t[0]) || (|t| > 1 && (t[0] == '+' || t[0] == '-') && IsDigit(t[1])))
    ensures r.Some? ==> IsDigit(t[|t| - 1])
    ensures r.Some? && r.value < 0 ==> t[0] == '-'
  {
    if |t| > 0 && (t[0] == '+' || t[0] == '-') then Signed(t[0], ParseRun(t[1..]))
    else ParseRun(t)
  }

  /** atom(token) of lis.py:32-40: integers become numbers, every other token a symbol. */
  function Atom(token: string): (e: Exp)
    ensures !e.List?
    ensures e.Num? <==> ParseInt(token).Some?
    ensures e.Num? ==> ParseInt(token) == Some(e.n)
    ensures e.Sym? ==> e.name == token
  {
    match ParseInt(token)
    case Some(n) => Num(n)
    case None => Sym(token)
  }

  function DigitChar(k: nat): (c: char)
    requires k < 10
  {
    ('0' as int + k) as char
  }

  /** str(n) for a natural number: its decimal digits, no leading zeros. */
  function NatToDecimal(n: nat): string
  {
    if n < 10 then [DigitChar(n)] else NatToDecimal(n / 10) + [DigitChar(n % 10)]
  }

  /** str(n) for an integer: a '-' in front of negative numbers. */
  function IntToDecimal(n: int): string
  {
    if n < 0 then "-" + NatToDecimal(-n) else NatToDecimal(n)
  }

  /** The decimal text of n is a non-empty digit string whose value is n. */
  lemma {:induction false} NatToDecimalValue(n: nat)
    ensures |NatToDecimal(n)| > 0 && AllDigits(NatToDecimal(n))
    ensures DecimalValue(NatToDecimal(n)) == n
  {
    var d := NatToDecimal(n);
    if n >= 10 {
      NatToDecimalValue(n / 10);
      assert d[..|d| - 1] == NatToDecimal(n / 10);
    }
  }

  lemma {:induction false} DropUnderscoresNone(s: string)
    requires AllDigits(s)
    ensures DropUnderscores(s) == s
  {
    if s != [] {
      DropUnderscoresNone(s[1..]);
    }
  }

  lemma {:induction false} DigitsNoDoubleUnderscore(d: string)
    requires AllDigits(d)
    ensures NoDoubleUnderscore(d)
  {
    if |d| >= 2 {
      DigitsNoDoubleUnderscore(d[1..]);
    }
  }

  lemma DigitsAreRun(d: string)
    requires |d| > 0 && AllDigits(d)
    ensures IsDigitRun(d) && RunValue(d) == DecimalValue(d)
  {
    DigitsNoDoubleUnderscore(d);
    DropUnderscoresNone(d);
  }

  /** int(str(n)) == n: the printed form of every integer reads back as that integer. */
  lemma ParseIntOfDecimal(n: int)
    ensures ParseInt(IntToDecimal(n)) == Some(n)
  {
    var m: nat := if n < 0 then -n else n;
    var d := NatToDecimal(m);
    NatToDecimalValue(m);
    DigitsAreRun(d);
    assert d[0] != '+' && d[0] != '-';
    if n < 0 {
      assert ("-" + d)[1..] == d;
    }
  }

  /** The integer branch of atom: the printed form of n classifies as Num(n). */
  lemma AtomOfDecimal(n: int)
    ensures Atom(IntToDecimal(n)) == Num(n)
  {
    ParseIntOfDecimal(n);
  }

  /** A plain decimal token (digits only, leading zeros allowed) becomes its value. */
  lemma AtomOfDigits(d: string)
    requires |d| > 0 && AllDigits(d)
    ensures Atom(d) == Num(DecimalValue(d))
  {
    DigitsAreRun(d);
  }

  /** A signed decimal token becomes its value, negated for '-'. */
  lemma AtomOfSignedDigits(sign: char, d: string)
    requires sign == '+' || sign == '-'
    requires |d| > 0 && AllDigits(d)
    ensures Atom([sign] + d) == Num(if sign == '-' then 0 - DecimalValue(d) else DecimalValue(d))
  {
    var t := [sign] + d;
    assert t[0] == sign && t[1..] == d;
    DigitsAreRun(d);
    assert ParseRun(t[1..]) == Some(DecimalValue(d));
  }

  /** The symbol fallback: a token with no digit at all, such as "-", "+" or
      "define", is a symbol equal to the token text. */
  lemma AtomWithoutDigits(t: string)
    requires forall i :: 0 <= i < |t| ==> !IsDigit(t[i])
    ensures Atom(t) == Sym(t)
  {
    if |t| > 0 && (t[0] == '+' || t[0] == '-') {
      assert |t[1..]| > 0 ==> !IsDigit(t[1..][0]);
    }
  }

  /** The decimal text of an integer is made of digits and at most a leading '-'. */
  lemma IntToDecimalChars(n: int)
    ensures |IntToDecimal(n)| > 0
    ensures forall i :: 0 <= i < |IntToDecimal(n)| ==> IsDigit(IntToDecimal(n)[i]) || IntToDecimal(n)[i] == '-'
  {
    NatToDecimalValue(if n < 0 then -n else n);
  }

  /** Underscores: one between two digits is accepted and dropped; two in a row,
      one at either end, or one straight after the sign make int() fail. */
  lemma UnderscoreExamples()
    ensures ParseInt("1_000") == Some(1000)
    ensures ParseInt("1__0") == None
    ensures ParseInt("_1") == None
    ensures ParseInt("1_") == None
    ensures ParseInt("-_1") == None
  {
    GroupedThousand();
    assert !NoDoubleUnderscore("1__0") by {
      assert "1__0"[1..] == "__0";
    }
  }

  lemma GroupedThousand()
    ensures IsDigitRun("1_000") && RunValue("1_000") == 1000
  {
    assert NoDoubleUnderscore("1_000") by {
      assert "1_000"[1..] == "_000" && "_000"[1..] == "000" && "000"[1..] == "00";
      assert "00"[1..] == "0";
    }
    assert DropUnderscores("1_000") == "1000" by {
      assert "1_000"[1..] == "_000" && "_000"[1..] == "000" && "000"[1..] == "00";
      assert "00"[1..] == "0" && "0"[1..] == "";
    }
    assert DecimalValue("1") == 1 by {
      assert "1"[..0] == "";
    }
    assert DecimalValue("10") == 10 by {
      assert "10"[..1] == "1";
    }
    assert DecimalValue("100") == 100 by {
      assert "100"[..2] == "10";
    }
    assert DecimalValue("1000") == 1000 by {
      assert "1000"[..3] == "100";
    }
  }
}
