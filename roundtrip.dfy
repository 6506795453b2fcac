/**
  The print/parse round trip: what the printer (lis.py:88-93) writes, the
  tokenizer and reader (lis.py:8-30) read back as the same expression.
 */
module RoundTrip {
  import opened Wrappers
  import opened Syntax
  import opened Atoms
  import opened Tokenizer
  import opened Reader
  import opened Printer

  /** The expressions the reader can produce: every symbol is one lexeme that
      int() does not accept. */
  predicate WellFormed(e: Exp)
  {
    match e
    case Num(_) => true
    case Sym(s) => IsWord(s) && ParseInt(s).None?
    case List(items) => forall i :: 0 <= i < |items| ==> WellFormed(items[i])
  }

  predicate AllTokens(tokens: seq<string>)
  {
    forall i :: 0 <= i < |tokens| ==> IsToken(tokens[i])
  }

  lemma {:induction false} ReadExpWellFormed(tokens: seq<string>, pos: nat)
    requires AllTokens(tokens)
    requires pos <= |tokens| && ReadExp(tokens, pos).Parsed?
    ensures WellFormed(ReadExp(tokens, pos).exp)
    decreases |tokens| - pos, 1
  {
    if tokens[pos] == "(" {
      ReadItemsWellFormed(tokens, pos + 1);
    } else {
      var t := tokens[pos];
      assert IsWord(t);
    }
  }

  lemma {:induction false} ReadItemsWellFormed(tokens: seq<string>, pos: nat)
    requires AllTokens(tokens)
    requires pos <= |tokens| && ReadItems(tokens, pos).Parsed?
    ensures WellFormed(ReadItems(tokens, pos).exp)
    decreases |tokens| - pos, 2
  {
    if tokens[pos] != ")" {
      var first := ReadExp(tokens, pos);
      ReadExpWellFormed(tokens, pos);
      ReadItemsWellFormed(tokens, first.next);
      var all := ReadItems(tokens, pos).exp.items;
      assert all == [first.exp] + ReadItems(tokens, first.next).exp.items;
      forall i | 0 <= i < |all|
        ensures WellFormed(all[i])
      {
        if i > 0 {
          assert all[i] == ReadItems(tokens, first.next).exp.items[i - 1];
        }
      }
    }
  }

  /** Everything parse returns is well formed. */
  lemma ParseWellFormed(program: string)
    requires Parse(program).Ok?
    ensures WellFormed(Parse(program).value)
  {
    ReadExpWellFormed(Tokenize(program), 0);
  }

  /** The printed text of an atom is a single lexeme. */
  lemma AtomTextIsWord(e: Exp)
    requires WellFormed(e) && !e.List?
    ensures IsWord(Show(e))
  {
    if e.Num? {
      IntToDecimalChars(e.n);
    }
  }

  /** Text that cannot extend a word in front of it. */
  predicate Delimited(rest: string)
  {
    rest == [] || IsSpace(rest[0]) || IsParen(rest[0])
  }

  lemma {:induction false} ScanWord(w: string, rest: string, word: string)
    requires forall i :: 0 <= i < |w| ==> !IsSpace(w[i]) && !IsParen(w[i])
    ensures ScanFrom(w + rest, word) == ScanFrom(rest, word + w)
  {
    if w == [] {
      assert w + rest == rest && word + w == word;
    } else {
      assert (w + rest)[0] == w[0] && (w + rest)[1..] == w[1..] + rest;
      ScanWord(w[1..], rest, word + [w[0]]);
      assert word + [w[0]] + w[1..] == word + w;
    }
  }

  lemma ScanDelimited(rest: string, word: string)
    requires Delimited(rest)
    ensures ScanFrom(rest, word) == Flush(word) + ScanFrom(rest, [])
  {
  }

  lemma {:induction false} ScanShow(e: Exp, rest: string)
    requires WellFormed(e) && Delimited(rest)
    ensures ScanFrom(Show(e) + rest, []) == TokensOf(e) + ScanFrom(rest, [])
    decreases e, 1
  {
    if e.List? {
      ScanShowList(e.items, rest);
    } else {
      AtomTextIsWord(e);
      ScanWord(Show(e), rest, []);
      assert [] + Show(e) == Show(e);
      ScanDelimited(rest, Show(e));
    }
  }

  lemma ShowListText(items: seq<Exp>, rest: string)
    ensures Show(List(items)) + rest == ['('] + (JoinSpaced(ShowAll(items)) + ([')'] + rest))
  {
  }

  lemma {:induction false} ScanShowList(items: seq<Exp>, rest: string)
    requires forall i :: 0 <= i < |items| ==> WellFormed(items[i])
    requires Delimited(rest)
    ensures ScanFrom(Show(List(items)) + rest, []) == TokensOf(List(items)) + ScanFrom(rest, [])
    decreases items, 2
  {
    var after := ScanFrom(rest, []);
    var inner := JoinSpaced(ShowAll(items)) + ([')'] + rest);
    calc {
      ScanFrom(Show(List(items)) + rest, []);
      { ShowListText(items, rest); }
      ScanFrom(['('] + inner, []);
      { ScanStep('(', inner, []); }
      ["("] + ScanFrom(inner, []);
      { ScanShowItems(items, [')'] + rest); }
      ["("] + (ItemsTokens(items) + ScanFrom([')'] + rest, []));
      { ScanStep(')', rest, []); }
      ["("] + (ItemsTokens(items) + ([")"] + after));
      (["("] + ItemsTokens(items) + [")"]) + after;
    }
  }

  lemma JoinSpacedCons(parts: seq<string>, tail: string)
    requires |parts| > 1
    ensures JoinSpaced(parts) + tail == parts[0] + ([' '] + (JoinSpaced(parts[1..]) + tail))
  {
  }

  lemma {:induction false} ScanShowItems(items: seq<Exp>, tail: string)
    requires forall i :: 0 <= i < |items| ==> WellFormed(items[i])
    requires |tail| > 0 && tail[0] == ')'
    ensures ScanFrom(JoinSpaced(ShowAll(items)) + tail, []) == ItemsTokens(items) + ScanFrom(tail, [])
    decreases items, 0
  {
    if items == [] {
      assert JoinSpaced(ShowAll(items)) + tail == tail;
    } else if |items| == 1 {
      assert ShowAll(items) == [Show(items[0])];
      ScanShow(items[0], tail);
      assert ItemsTokens(items) == TokensOf(items[0]) + ItemsTokens([]);
    } else {
      var more := JoinSpaced(ShowAll(items[1..]));
      var parts := ShowAll(items);
      assert parts[0] == Show(items[0]) && parts[1..] == ShowAll(items[1..]);
      JoinSpacedCons(parts, tail);
      ScanShow(items[0], [' '] + (more + tail));
      ScanStep(' ', more + tail, []);
      assert ScanFrom([' '] + (more + tail), []) == ScanFrom(more + tail, []);
      ScanShowItems(items[1..], tail);
      assert ItemsTokens(items) == TokensOf(items[0]) + ItemsTokens(items[1..]);
    }
  }

  /** The printed text of a well-formed expression tokenizes into exactly its tokens. */
  lemma TokenizeShow(e: Exp)
    requires WellFormed(e)
    ensures Tokenize(Show(e)) == TokensOf(e)
  {
    ScanShow(e, []);
    assert Show(e) + [] == Show(e);
  }

  lemma FirstTokenNotClose(e: Exp)
    requires WellFormed(e)
    ensures |TokensOf(e)| > 0 && TokensOf(e)[0] != ")" && (TokensOf(e)[0] == "(" <==> e.List?)
  {
    if !e.List? {
      AtomTextIsWord(e);
      assert TokensOf(e)[0] == Show(e);
      assert Show(e)[0] != ')';
      assert Show(e)[0] != '(';
    }
  }

  lemma {:induction false} ReadTokensOf(e: Exp, tokens: seq<string>, pos: nat)
    requires WellFormed(e)
    requires pos + |TokensOf(e)| <= |tokens| && tokens[pos..pos + |TokensOf(e)|] == TokensOf(e)
    ensures ReadExp(tokens, pos) == Parsed(e, pos + |TokensOf(e)|)
    decreases e, 1
  {
    var ts := TokensOf(e);
    FirstTokenNotClose(e);
    assert tokens[pos] == ts[0];
    match e
    case List(items) =>
      var inner := ItemsTokens(items);
      assert tokens[pos + 1..pos + 1 + |inner| + 1] == ts[1..] == inner + [")"];
      ReadItemsTokensOf(items, tokens, pos + 1);
    case Num(n) =>
      AtomOfDecimal(n);
    case Sym(s) =>
  }

  lemma SliceSplit(tokens: seq<string>, pos: nat, a: seq<string>, b: seq<string>)
    requires pos + |a| + |b| <= |tokens| && tokens[pos..pos + |a| + |b|] == a + b
    ensures tokens[pos..pos + |a|] == a
    ensures tokens[pos + |a|..pos + |a| + |b|] == b
  {
    assert tokens[pos..pos + |a|] == tokens[pos..pos + |a| + |b|][..|a|];
    assert tokens[pos + |a|..pos + |a| + |b|] == tokens[pos..pos + |a| + |b|][|a|..];
  }

  /** One step of the list loop: an element, then the rest of the list. */
  lemma ReadItemsStep(tokens: seq<string>, pos: nat, first: Exp, mid: nat, rest: seq<Exp>, next: nat)
    requires pos < |tokens| && tokens[pos] != ")"
    requires ReadExp(tokens, pos) == Parsed(first, mid)
    requires mid <= |tokens| && ReadItems(tokens, mid) == Parsed(List(rest), next)
    ensures ReadItems(tokens, pos) == Parsed(List([first] + rest), next)
  {
  }

  lemma {:induction false} ReadItemsTokensOf(items: seq<Exp>, tokens: seq<string>, pos: nat)
    requires forall i :: 0 <= i < |items| ==> WellFormed(items[i])
    requires pos + |ItemsTokens(items)| + 1 <= |tokens|
    requires tokens[pos..pos + |ItemsTokens(items)| + 1] == ItemsTokens(items) + [")"]
    ensures ReadItems(tokens, pos) == Parsed(List(items), pos + |ItemsTokens(items)| + 1)
    decreases items, 0
  {
    if items == [] {
      assert tokens[pos] == tokens[pos..pos + 1][0] == ")";
    } else {
      var first := TokensOf(items[0]);
      var more := ItemsTokens(items[1..]);
      var mid := pos + |first|;
      assert ItemsTokens(items) == first + more;
      assert ItemsTokens(items) + [")"] == first + (more + [")"]);
      SliceSplit(tokens, pos, first, more + [")"]);
      FirstTokenNotClose(items[0]);
      assert tokens[pos] == tokens[pos..mid][0];
      ReadTokensOf(items[0], tokens, pos);
      ReadItemsTokensOf(items[1..], tokens, mid);
      ReadItemsStep(tokens, pos, items[0], mid, items[1..], mid + |more| + 1);
      assert [items[0]] + items[1..] == items;
    }
  }

  /** Parsing the printed form of a well-formed expression gives it back. */
  lemma PrintThenParse(e: Exp)
    requires WellFormed(e)
    ensures Parse(Show(e)) == Ok(e)
  {
    TokenizeShow(e);
    var ts := TokensOf(e);
    assert ts[0..0 + |ts|] == ts;
    ReadTokensOf(e, ts, 0);
  }

  /** For any expression produced by parse, parsing what schemestr prints gives
      the same expression. */
  lemma ParsePrintParse(program: string)
    requires Parse(program).Ok?
    ensures Parse(Show(Parse(program).value)) == Parse(program)
  {
    ParseWellFormed(program);
    PrintThenParse(Parse(program).value);
  }

  /** schemestr(()) is "()" and a list with a negative number prints its elements spaced. */
  lemma ShowExample()
    ensures Show(List([])) == "()"
    ensures Show(List([Sym("+"), Num(1), Num(-2)])) == "(+ 1 -2)"
  {
    assert IntToDecimal(1) == "1";
    assert IntToDecimal(-2) == "-2";
    assert ShowAll([Sym("+"), Num(1), Num(-2)]) == ["+", "1", "-2"] by {
      assert [Sym("+"), Num(1), Num(-2)][1..] == [Num(1), Num(-2)];
      assert [Num(1), Num(-2)][1..] == [Num(-2)];
    }
    assert JoinSpaced(["+", "1", "-2"]) == "+ 1 -2" by {
      assert ["+", "1", "-2"][1..] == ["1", "-2"];
      assert ["1", "-2"][1..] == ["-2"];
    }
  }
}
