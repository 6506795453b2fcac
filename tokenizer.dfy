/**
  The tokenizer of lis.py:10: every '(' and ')' is padded with spaces
  (two calls of str.replace) and the result is split on runs of whitespace
  (str.split with no argument).
 */
module Tokenizer {

  /** The characters Python's str.split() with no argument splits on (str.isspace). */
  predicate IsSpace(c: char)
  {
    var k := c as int;
    || 9 <= k <= 13          // \t \n \v \f \r
    || 28 <= k <= 32         // the four information separators and ' '
    || k == 0x85 || k == 0xA0 || k == 0x1680
    || 0x2000 <= k <= 0x200A
    || k == 0x2028 || k == 0x2029 || k == 0x202F || k == 0x205F || k == 0x3000
  }

  predicate IsParen(c: char)
  {
    c == '(' || c == ')'
  }

  /** A lexeme that is not a parenthesis: non-empty, no whitespace, no parenthesis. */
  predicate IsWord(t: string)
  {
    |t| > 0 && forall i :: 0 <= i < |t| ==> !IsSpace(t[i]) && !IsParen(t[i])
  }

  /** The shape every token of the tokenizer has. */
  predicate IsToken(t: string)
  {
    t == "(" || t == ")" || IsWord(t)
  }

  /** s.replace(c, r) for a one-character pattern c. */
  function Replace(s: string, c: char, r: string): (out: string)
  {
    if s == [] then [] else (if s[0] == c then r else [s[0]]) + Replace(s[1..], c, r)
  }

  /** [word] when the word collected so far is non-empty, else nothing. */
  function Flush(word: string): seq<string>
  {
    if word == [] then [] else [word]
  }

  /** s.split(): the maximal runs of non-whitespace characters of s, in order;
      `word` holds the characters of the run being collected. */
  function SplitFrom(s: string, word: string): seq<string>
  {
    if s == [] then Flush(word)
    else if IsSpace(s[0]) then Flush(word) + SplitFrom(s[1..], [])
    else SplitFrom(s[1..], word + [s[0]])
  }

  function Split(s: string): seq<string>
  {
    SplitFrom(s, [])
  }

  /** tokenize(chars) of lis.py:8-10, written as the source writes it: it yields
      exactly the tokens of the one-pass scanner below, and every token is a
      parenthesis or a word. */
  function Tokenize(chars: string): (tokens: seq<string>)
    ensures tokens == Scan(chars)
    ensures forall i :: 0 <= i < |tokens| ==> IsToken(tokens[i])
  {
    SplitPadded(chars, []);
    ScanFromShape(chars, []);
    Split(Replace(Replace(chars, '(', " ( "), ')', " ) "))
  }

  /** A one-pass scanner, the reference definition the tokenizer is proved against:
      whitespace ends a word, a parenthesis ends a word and is a token by itself. */
  function ScanFrom(s: string, word: string): seq<string>
  {
    if s == [] then Flush(word)
    else if IsSpace(s[0]) then Flush(word) + ScanFrom(s[1..], [])
    else if IsParen(s[0]) then Flush(word) + [[s[0]]] + ScanFrom(s[1..], [])
    else ScanFrom(s[1..], word + [s[0]])
  }

  function Scan(s: string): seq<string>
  {
    ScanFrom(s, [])
  }

  /** s with every whitespace character deleted. */
  function Squeeze(s: string): string
  {
    if s == [] then [] else (if IsSpace(s[0]) then [] else [s[0]]) + Squeeze(s[1..])
  }

  /** The tokens written one after another. */
  function Concat(ts: seq<string>): string
  {
    if ts == [] then [] else ts[0] + Concat(ts[1..])
  }

  lemma {:induction false} ReplaceAppend(a: string, b: string, c: char, r: string)
    ensures Replace(a + b, c, r) == Replace(a, c, r) + Replace(b, c, r)
  {
    if a == [] {
      assert a + b == b;
    } else {
      assert (a + b)[0] == a[0];
      assert (a + b)[1..] == a[1..] + b;
      ReplaceAppend(a[1..], b, c, r);
    }
  }

  /** The text after both replacements, one input character at a time. */
  function Padded(c: char): string
  {
    if c == '(' then " ( " else if c == ')' then " ) " else [c]
  }

  lemma PadStep(s: string)
    requires s != []
    ensures Replace(Replace(s, '(', " ( "), ')', " ) ")
         == Padded(s[0]) + Replace(Replace(s[1..], '(', " ( "), ')', " ) ")
  {
    assert s == [s[0]] + s[1..];
    ReplaceAppend([s[0]], s[1..], '(', " ( ");
    var once := Replace([s[0]], '(', " ( ");
    ReplaceAppend(once, Replace(s[1..], '(', " ( "), ')', " ) ");
    assert [s[0]][1..] == [];
    if s[0] == '(' {
      assert once == " ( ";
      assert Replace(" ( ", ')', " ) ") == " ( " by {
        assert " ( "[1..] == "( ";
        assert "( "[1..] == " ";
        assert " "[1..] == [];
      }
    } else {
      assert once == [s[0]];
    }
  }

  /** Splitting " ( " (or " ) ") followed by more text ends the current word,
      yields the parenthesis alone and starts afresh after it. */
  lemma SplitParen(p: string, rest: string, word: string)
    requires |p| == 1 && IsParen(p[0])
    ensures SplitFrom(" " + p + " " + rest, word) == Flush(word) + [p] + SplitFrom(rest, [])
  {
    var padded := " " + p + " " + rest;
    assert padded[0] == ' ' && padded[1..] == p + " " + rest;
    assert (p + " " + rest)[0] == p[0] && (p + " " + rest)[1..] == " " + rest;
    assert (" " + rest)[0] == ' ' && (" " + rest)[1..] == rest;
    assert [] + [p[0]] == p;
    assert !IsSpace(p[0]);
    calc {
      SplitFrom(padded, word);
      Flush(word) + SplitFrom(p + " " + rest, []);
      Flush(word) + SplitFrom(" " + rest, p);
      Flush(word) + (Flush(p) + SplitFrom(rest, []));
    }
  }

  lemma {:induction false} SplitPadded(s: string, word: string)
    ensures SplitFrom(Replace(Replace(s, '(', " ( "), ')', " ) "), word) == ScanFrom(s, word)
  {
    if s != [] {
      var rest := Replace(Replace(s[1..], '(', " ( "), ')', " ) ");
      PadStep(s);
      if IsParen(s[0]) {
        SplitPadded(s[1..], []);
        SplitParen([s[0]], rest, word);
        assert Padded(s[0]) + rest == " " + [s[0]] + " " + rest;
      } else {
        assert ([s[0]] + rest)[0] == s[0] && ([s[0]] + rest)[1..] == rest;
        if IsSpace(s[0]) {
          SplitPadded(s[1..], []);
        } else {
          SplitPadded(s[1..], word + [s[0]]);
        }
      }
    }
  }

  /** Every token the scanner yields is a parenthesis or a word. */
  lemma {:induction false} ScanFromShape(s: string, word: string)
    requires word == [] || IsWord(word)
    ensures forall i :: 0 <= i < |ScanFrom(s, word)| ==> IsToken(ScanFrom(s, word)[i])
  {
    if s == [] {
    } else if IsSpace(s[0]) || IsParen(s[0]) {
      ScanFromShape(s[1..], []);
    } else {
      ScanFromShape(s[1..], word + [s[0]]);
    }
  }

  lemma {:induction false} ConcatAppend(a: seq<string>, b: seq<string>)
    ensures Concat(a + b) == Concat(a) + Concat(b)
  {
    if a == [] {
      assert a + b == b;
    } else {
      assert (a + b)[0] == a[0];
      assert (a + b)[1..] == a[1..] + b;
      ConcatAppend(a[1..], b);
    }
  }

  lemma {:induction false} ScanFromText(s: string, word: string)
    ensures Concat(ScanFrom(s, word)) == word + Squeeze(s)
  {
    if s == [] {
    } else if IsSpace(s[0]) {
      ScanFromText(s[1..], []);
      ConcatAppend(Flush(word), ScanFrom(s[1..], []));
    } else if IsParen(s[0]) {
      ScanFromText(s[1..], []);
      ConcatAppend(Flush(word) + [[s[0]]], ScanFrom(s[1..], []));
      ConcatAppend(Flush(word), [[s[0]]]);
    } else {
      ScanFromText(s[1..], word + [s[0]]);
    }
  }

  /** Writing the tokens one after another gives the input with exactly its
      whitespace deleted: nothing else is dropped and nothing is reordered. */
  lemma TokensKeepText(chars: string)
    ensures Concat(Tokenize(chars)) == Squeeze(chars)
  {
    ScanFromText(chars, []);
  }

  lemma ScanStep(c: char, rest: string, word: string)
    ensures ScanFrom([c] + rest, word)
         == if IsSpace(c) then Flush(word) + ScanFrom(rest, [])
            else if IsParen(c) then Flush(word) + [[c]] + ScanFrom(rest, [])
            else ScanFrom(rest, word + [c])
  {
    assert ([c] + rest)[0] == c && ([c] + rest)[1..] == rest;
  }

  lemma ScanExampleTail()
    ensures ScanFrom(" 2)", "1") == ["1", "2", ")"]
  {
    assert ScanFrom(")", "2") == ["2", ")"] by {
      ScanStep(')', [], "2");
      assert ")" == [')'] + [];
    }
    assert ScanFrom("2)", []) == ["2", ")"] by {
      ScanStep('2', ")", []);
      assert "2)" == ['2'] + ")" && [] + ['2'] == "2";
    }
    ScanStep(' ', "2)", "1");
    assert " 2)" == [' '] + "2)";
  }

  /** tokenize("(+ 1 2)") is ["(", "+", "1", "2", ")"]. */
  lemma TokenizeExample()
    ensures Tokenize("(+ 1 2)") == ["(", "+", "1", "2", ")"]
  {
    ScanExample();
  }

  lemma ScanExampleMiddle()
    ensures ScanFrom("1 2)", []) == ["1", "2", ")"]
  {
    ScanExampleTail();
    ScanStep('1', " 2)", []);
    assert "1 2)" == ['1'] + " 2)" && [] + ['1'] == "1";
  }

  lemma ScanExample()
    ensures Scan("(+ 1 2)") == ["(", "+", "1", "2", ")"]
  {
    ScanExampleMiddle();
    assert ScanFrom(" 1 2)", "+") == ["+", "1", "2", ")"] by {
      ScanStep(' ', "1 2)", "+");
      assert " 1 2)" == [' '] + "1 2)";
    }
    assert ScanFrom("+ 1 2)", []) == ["+", "1", "2", ")"] by {
      ScanStep('+', " 1 2)", []);
      assert "+ 1 2)" == ['+'] + " 1 2)" && [] + ['+'] == "+";
    }
    assert ScanFrom("(+ 1 2)", []) == ["(", "+", "1", "2", ")"] by {
      ScanStep('(', "+ 1 2)", []);
      assert "(+ 1 2)" == ['('] + "+ 1 2)";
    }
  }
}
