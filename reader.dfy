/**
  The reader of lis.py:12-30: parse and read_from_tokens.

  The source pops tokens off the front of one shared Python list; here the list
  is an immutable sequence with a cursor `pos`, and a successful read reports
  the cursor `next` after the expression, so the tokens left in the list are
  tokens[next..].
 */
module Reader {
  import opened Wrappers
  import opened Syntax
  import opened Atoms
  import opened Tokenizer

  /** The three ways read_from_tokens raises. */
  datatype ReadError =
    | UnexpectedEof     // SyntaxError('unexpected EOF'): no token left at all (lis.py:18-19)
    | UnexpectedClose   // SyntaxError('unexpected )'): a ')' where an expression starts (lis.py:27-28)
    | MissingClose      // IndexError: tokens[0] of the loop test on an empty list (lis.py:23)

  /** The outcome of reading one expression from position pos. */
  datatype Read = Parsed(exp: Exp, next: nat) | Failed(error: ReadError)

  /** read_from_tokens(tokens[pos..]) as a function. A successful read consumes
      at least one token; the only failures at the outer level are running out
      of tokens before anything is read and a leading ')'. */
  function ReadExp(tokens: seq<string>, pos: nat): (r: Read)
    requires pos <= |tokens|
    ensures r.Parsed? ==> pos < r.next <= |tokens|
    ensures r == Failed(UnexpectedEof) <==> pos == |tokens|
    ensures r == Failed(UnexpectedClose) <==> pos < |tokens| && tokens[pos] == ")"
    decreases |tokens| - pos, 1
  {
    if pos == |tokens| then Failed(UnexpectedEof)
    else if tokens[pos] == "(" then ReadItems(tokens, pos + 1)
    else if tokens[pos] == ")" then Failed(UnexpectedClose)
    else Parsed(Atom(tokens[pos]), pos + 1)
  }

  /** The loop of lis.py:23-25: the elements of a list from pos on, up to and
      including the ')' that closes it. Inside a list neither 'unexpected EOF'
      nor 'unexpected )' can arise: the only failure is running out of tokens. */
  function ReadItems(tokens: seq<string>, pos: nat): (r: Read)
    requires pos <= |tokens|
    ensures r.Parsed? ==> pos < r.next <= |tokens| && r.exp.List?
    ensures r.Parsed? ==> tokens[r.next - 1] == ")"
    ensures r.Failed? ==> r.error == MissingClose
    decreases |tokens| - pos, 2
  {
    if pos == |tokens| then Failed(MissingClose)
    else if tokens[pos] == ")" then Parsed(List([]), pos + 1)
    else
      match ReadExp(tokens, pos)
      case Failed(e) => Failed(e)
      case Parsed(first, mid) =>
        match ReadItems(tokens, mid)
        case Failed(e) => Failed(e)
        case Parsed(rest, next) => Parsed(List([first] + rest.items), next)
  }

  /** parse(program) of lis.py:12-14: read one expression from the tokens of the
      program; whatever tokens follow it are ignored. */
  function Parse(program: string): (r: Result<Exp, ReadError>)
    ensures r == Err(UnexpectedEof) <==> Tokenize(program) == []
    ensures r == Err(UnexpectedClose) <==> Tokenize(program) != [] && Tokenize(program)[0] == ")"
    ensures r == Err(MissingClose) ==> Tokenize(program) != [] && Tokenize(program)[0] == "("
    ensures r.Ok? ==> Tokenize(program) != [] && (r.value.List? <==> Tokenize(program)[0] == "(")
  {
    match ReadExp(Tokenize(program), 0)
    case Parsed(e, _) => Ok(e)
    case Failed(err) => Err(err)
  }

  /** The elements already read put in front of the list read from here on. */
  function Prefixed(items: seq<Exp>, r: Read): Read
  {
    if r.Parsed? && r.exp.List? then Parsed(List(items + r.exp.items), r.next) else r
  }

  /** One pass of the loop of lis.py:23-24: reading the next element moves it
      from the list still to be read to the elements already read. */
  lemma PrefixedStep(tokens: seq<string>, items: seq<Exp>, cursor: nat)
    requires cursor < |tokens| && tokens[cursor] != ")" && ReadExp(tokens, cursor).Parsed?
    ensures Prefixed(items, ReadItems(tokens, cursor))
         == Prefixed(items + [ReadExp(tokens, cursor).exp], ReadItems(tokens, ReadExp(tokens, cursor).next))
  {
    var item := ReadExp(tokens, cursor);
    var rest := ReadItems(tokens, item.next);
    if rest.Parsed? {
      assert items + ([item.exp] + rest.exp.items) == (items + [item.exp]) + rest.exp.items;
    }
  }

  /** read_from_tokens of lis.py:16-30 with a cursor in place of pop(0): the
      recursion and the while loop of the source, proved to compute ReadExp. */
  method ReadFromTokens(tokens: seq<string>, pos: nat) returns (r: Read)
    requires pos <= |tokens|
    ensures r == ReadExp(tokens, pos)
    decreases |tokens| - pos
  {
    if pos == |tokens| {
      return Failed(UnexpectedEof);
    }
    var token := tokens[pos];
    var cursor := pos + 1;
    if token == "(" {
      var items: seq<Exp> := [];
      ghost var whole := ReadItems(tokens, cursor);
      if whole.Parsed? {
        assert [] + whole.exp.items == whole.exp.items;
      }
      while true
        invariant pos < cursor <= |tokens|
        invariant ReadExp(tokens, pos) == Prefixed(items, ReadItems(tokens, cursor))
        decreases |tokens| - cursor
      {
        if cursor == |tokens| {
          return Failed(MissingClose);
        }
        if tokens[cursor] == ")" {
          break;
        }
        var item := ReadFromTokens(tokens, cursor);
        if item.Failed? {
          return item;
        }
        PrefixedStep(tokens, items, cursor);
        items := items + [item.exp];
        cursor := item.next;
      }
      assert items + [] == items;
      return Parsed(List(items), cursor + 1);
    } else if token == ")" {
      return Failed(UnexpectedClose);
    } else {
      return Parsed(Atom(token), cursor);
    }
  }

  /** The tokens one expression prints as: numbers in their decimal form, symbols
      as their name, lists between '(' and ')'. */
  function TokensOf(e: Exp): seq<string>
  {
    match e
    case Num(n) => [IntToDecimal(n)]
    case Sym(s) => [s]
    case List(items) => ["("] + ItemsTokens(items) + [")"]
  }

  function ItemsTokens(items: seq<Exp>): seq<string>
  {
    if items == [] then [] else TokensOf(items[0]) + ItemsTokens(items[1..])
  }

  /** A token with a numeral respelled the way the printer writes that number. */
  function Normalized(t: string): string
  {
    if t == "(" || t == ")" then t
    else match Atom(t)
      case Num(n) => IntToDecimal(n)
      case _ => t
  }

  function NormalizedAll(ts: seq<string>): seq<string>
  {
    if ts == [] then [] else [Normalized(ts[0])] + NormalizedAll(ts[1..])
  }

  lemma {:induction false} NormalizedAllAppend(a: seq<string>, b: seq<string>)
    ensures NormalizedAll(a + b) == NormalizedAll(a) + NormalizedAll(b)
  {
    if a == [] {
      assert a + b == b;
    } else {
      assert (a + b)[0] == a[0];
      assert (a + b)[1..] == a[1..] + b;
      NormalizedAllAppend(a[1..], b);
    }
  }

  /** What a successful read consumes: the tokens from pos to next are exactly
      the tokens of the expression read, so one balanced expression, in the
      order written (numerals up to their spelling). */
  lemma {:induction false} ReadExpConsumes(tokens: seq<string>, pos: nat)
    requires pos <= |tokens| && ReadExp(tokens, pos).Parsed?
    ensures NormalizedAll(tokens[pos..ReadExp(tokens, pos).next]) == TokensOf(ReadExp(tokens, pos).exp)
    decreases |tokens| - pos, 1
  {
    var r := ReadExp(tokens, pos);
    if tokens[pos] == "(" {
      ReadItemsConsumes(tokens, pos + 1);
      assert tokens[pos..r.next] == [tokens[pos]] + tokens[pos + 1..r.next];
      NormalizedAllAppend([tokens[pos]], tokens[pos + 1..r.next]);
      assert NormalizedAll([tokens[pos]]) == ["("];
    } else {
      assert tokens[pos..r.next] == [tokens[pos]];
      assert NormalizedAll([tokens[pos]]) == [Normalized(tokens[pos])];
    }
  }

  lemma {:induction false} ReadItemsConsumes(tokens: seq<string>, pos: nat)
    requires pos <= |tokens| && ReadItems(tokens, pos).Parsed?
    ensures NormalizedAll(tokens[pos..ReadItems(tokens, pos).next])
         == ItemsTokens(ReadItems(tokens, pos).exp.items) + [")"]
    decreases |tokens| - pos, 2
  {
    var r := ReadItems(tokens, pos);
    if tokens[pos] == ")" {
      assert tokens[pos..r.next] == [")"];
      assert NormalizedAll([")"]) == [")"];
    } else {
      var first := ReadExp(tokens, pos);
      var rest := ReadItems(tokens, first.next);
      var all := [first.exp] + rest.exp.items;
      assert all[0] == first.exp && all[1..] == rest.exp.items;
      calc {
        NormalizedAll(tokens[pos..r.next]);
        { assert tokens[pos..r.next] == tokens[pos..first.next] + tokens[first.next..r.next];
          NormalizedAllAppend(tokens[pos..first.next], tokens[first.next..r.next]); }
        NormalizedAll(tokens[pos..first.next]) + NormalizedAll(tokens[first.next..r.next]);
        { ReadExpConsumes(tokens, pos);
          ReadItemsConsumes(tokens, first.next); }
        TokensOf(first.exp) + (ItemsTokens(rest.exp.items) + [")"]);
        (TokensOf(all[0]) + ItemsTokens(all[1..])) + [")"];
      }
    }
  }

  /** A successful read looks at nothing after the tokens it consumes: any list
      that agrees with tokens up to next reads the same expression, and the
      tokens after next are left as they are for the caller. */
  lemma {:induction false} ReadExpIgnoresRest(tokens: seq<string>, other: seq<string>, pos: nat)
    requires pos <= |tokens| && ReadExp(tokens, pos).Parsed?
    requires ReadExp(tokens, pos).next <= |other|
    requires other[..ReadExp(tokens, pos).next] == tokens[..ReadExp(tokens, pos).next]
    ensures ReadExp(other, pos) == ReadExp(tokens, pos)
    decreases |tokens| - pos, 1
  {
    var r := ReadExp(tokens, pos);
    assert other[pos] == other[..r.next][pos] == tokens[..r.next][pos] == tokens[pos];
    if tokens[pos] == "(" {
      ReadItemsIgnoresRest(tokens, other, pos + 1);
    }
  }

  lemma {:induction false} ReadItemsIgnoresRest(tokens: seq<string>, other: seq<string>, pos: nat)
    requires pos <= |tokens| && ReadItems(tokens, pos).Parsed?
    requires ReadItems(tokens, pos).next <= |other|
    requires other[..ReadItems(tokens, pos).next] == tokens[..ReadItems(tokens, pos).next]
    ensures ReadItems(other, pos) == ReadItems(tokens, pos)
    decreases |tokens| - pos, 2
  {
    var r := ReadItems(tokens, pos);
    assert other[pos] == other[..r.next][pos] == tokens[..r.next][pos] == tokens[pos];
    if tokens[pos] != ")" {
      var first := ReadExp(tokens, pos);
      assert other[..first.next] == other[..r.next][..first.next];
      assert tokens[..first.next] == tokens[..r.next][..first.next];
      ReadExpIgnoresRest(tokens, other, pos);
      ReadItemsIgnoresRest(tokens, other, first.next);
    }
  }

  /** An unterminated '(': when no ')' follows, the read fails with the
      IndexError of the loop test and never with 'unexpected EOF'. */
  lemma Unterminated(tokens: seq<string>, pos: nat)
    requires pos < |tokens| && tokens[pos] == "("
    requires forall i :: pos <= i < |tokens| ==> tokens[i] != ")"
    ensures ReadExp(tokens, pos) == Failed(MissingClose)
  {
    if ReadExp(tokens, pos).Parsed? {
      assert false;
    }
  }

  /** parse("(+ 1 2)") is the list of the symbol + and the numbers 1 and 2. */
  lemma ParseExample()
    ensures Parse("(+ 1 2)") == Ok(List([Sym("+"), Num(1), Num(2)]))
  {
    var ts := ["(", "+", "1", "2", ")"];
    assert ReadItems(ts, 4) == Parsed(List([]), 5);
    assert ReadItems(ts, 3) == Parsed(List([Num(2)]), 5) by {
      AtomOfDigits("2");
      assert ReadExp(ts, 3) == Parsed(Num(2), 4);
    }
    assert ReadItems(ts, 2) == Parsed(List([Num(1), Num(2)]), 5) by {
      AtomOfDigits("1");
      assert ReadExp(ts, 2) == Parsed(Num(1), 3);
    }
    assert ReadItems(ts, 1) == Parsed(List([Sym("+"), Num(1), Num(2)]), 5) by {
      AtomWithoutDigits("+");
      assert ReadExp(ts, 1) == Parsed(Sym("+"), 2);
    }
    assert ReadExp(ts, 0) == Parsed(List([Sym("+"), Num(1), Num(2)]), 5);
    TokenizeExample();
  }

  /** The three failures on small token lists: nothing to read, a stray ')',
      and a '(' that is never closed. */
  lemma ReadErrorExamples()
    ensures Parse("") == Err(UnexpectedEof)
    ensures ReadExp([")"], 0) == Failed(UnexpectedClose)
    ensures ReadExp(["(", "+", "1", "2"], 0) == Failed(MissingClose)
    ensures ReadExp(["("], 0) == Failed(MissingClose)
  {
    assert Tokenize("") == [];
    Unterminated(["(", "+", "1", "2"], 0);
  }

  /** "()" is the empty list. */
  lemma EmptyListExample()
    ensures ReadExp(["(", ")"], 0) == Parsed(List([]), 2)
  {
  }
}
