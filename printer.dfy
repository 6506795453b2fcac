/**
  The printer of lis.py:88-93 (schemestr): a list is written as '(' , its
  elements written and joined by single spaces, and ')'; a number as str of
  an int; a symbol as its own text.
 */
module Printer {
  import opened Syntax
  import opened Atoms

  /** schemestr(exp): a number prints as text that atom reads back as that
      number, a symbol as its own text, a list between '(' and ')'. */
  function Show(e: Exp): (s: string)
    ensures e.Num? ==> Atom(s) == e
    ensures e.Sym? ==> s == e.name
    ensures e.List? ==> |s| >= 2 && s[0] == '(' && s[|s| - 1] == ')'
  {
    match e
    case Num(n) => AtomOfDecimal(n); IntToDecimal(n)
    case Sym(s) => s
    case List(items) => "(" + JoinSpaced(ShowAll(items)) + ")"
  }

  /** map(schemestr, items) */
  function ShowAll(items: seq<Exp>): (parts: seq<string>)
    ensures |parts| == |items|
  {
    if items == [] then [] else [Show(items[0])] + ShowAll(items[1..])
  }

  /** ' '.join(parts) */
  function JoinSpaced(parts: seq<string>): string
  {
    if |parts| == 0 then ""
    else if |parts| == 1 then parts[0]
    else parts[0] + " " + JoinSpaced(parts[1..])
  }
}
