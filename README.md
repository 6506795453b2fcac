# lis.py in Dafny

A model of the core of `lis.py`, a minimal interpreter for a Scheme-like
S-expression language: the tokenizer (`tokenize`), the recursive-descent
reader (`parse`, `read_from_tokens`), the atom classifier (`atom`, integer
branch), the tree-walking evaluator (`eval`) over one flat mutable
environment, and the printer (`schemestr`).

Layout, one module per component:

- `syntax.dfy` (`Syntax`): the expression type `Exp = Num | Sym | List`.
- `wrappers.dfy` (`Wrappers`): `Option` and `Result`, standing in for Python exceptions.
- `tokenizer.dfy` (`Tokenizer`): `Tokenize`, written as the source writes it (two `str.replace` calls and `str.split()`). It is proved equal to `Scan`, a one-pass reference scanner.
- `atoms.dfy` (`Atoms`): `ParseInt` (what Python's `int()` accepts), `Atom`, and `IntToDecimal` (what `str()` prints for an int).
- `reader.dfy` (`Reader`): `ReadExp`/`ReadItems` are the reader as functions. `ReadFromTokens` is the recursive method with the source's `while` loop, proved equal to them. `Parse` reads one expression from the tokens of a program.
- `printer.dfy` (`Printer`): `Show` is `schemestr`.
- `roundtrip.dfy` (`RoundTrip`): the print/parse round trip.
- `evaluator.dfy` (`Evaluator`): `EvalExp`/`EvalArgs` are the evaluator as functions that thread the environment through. `Environment` is a class holding the dictionary. Its recursive method `Eval` updates the dictionary in place and is proved to agree with `EvalExp`.

Runtime values are `Int(n)`, `Proc(op)` (one of the primitives `+`, `-`, `*`,
each taking two integers) and `NoneValue` (Python's `None`, the value of a
`define`). Truthiness follows Python: `0` and `None` are false, every other
integer and every procedure is true.

Python's exceptions become error variants:

- Reader errors: `UnexpectedEof` and `UnexpectedClose` (the two `SyntaxError`s), and `MissingClose` (the `IndexError` from `tokens[0]`).
- Evaluator errors: `UnboundSymbol` (`KeyError`), `EmptyForm` (`IndexError` on `()`), `BadSpecialForm` (the `ValueError` from the tuple unpacking), and `UnhashableName`, `NotCallable`, `ArityMismatch` and `OperandType` (all Python `TypeError`s).

Behaviours of the code that are easy to misread, kept as written:

- An unterminated `(` does not raise "unexpected EOF". Inside a list, the loop test `tokens[0]` at lis.py:23 raises `IndexError` on the empty list. "unexpected EOF" comes only from an empty token list at the outermost read. `Reader.Unterminated` and `Reader.ReadErrorExamples` state this.
- The name in `(define n e)` is not checked to be a symbol. An integer name binds the integer key: Python dictionary keys may be ints, so the environment is a `map<Exp, Value>`. A list name raises `TypeError` (unhashable), but only after `e` was evaluated and its effects made.
- A non-callable operator is detected only at the call `proc(*args)` (lis.py:73), after every argument was evaluated. An argument's error therefore wins over "not callable" (`Evaluator.ArgumentsBeforeCall`).
- The integer literals modelled are exactly those `int()` accepts from a token: an optional `+` or `-`, then ASCII digits with single underscores allowed between digits (`1_000`, `-007`). A lone `-` or `+` is a symbol.

The model assumes Python 3.10 or later, where `isinstance` accepts the `Union` alias `Number` (lis.py:5, lis.py:61).

## Model

| member | source | states |
|---|---|---|
| `Tokenizer.Tokenize` | lis.py:8-10 | padding parentheses with spaces and splitting on whitespace gives exactly the tokens of a one-pass scanner in which whitespace ends a word and each parenthesis is a token by itself; every token is exactly `(`, exactly `)`, or a non-empty lexeme with no whitespace and no parenthesis |
| `Tokenizer.TokensKeepText` | lis.py:10 | the tokens written one after another are the input with exactly its whitespace deleted, so order is kept and nothing else is dropped |
| `Tokenizer.TokenizeExample` | lis.py:10 | tokenize("(+ 1 2)") is ["(", "+", "1", "2", ")"] |
| `Atoms.ParseInt` | lis.py:35 | int() accepts a token only if it starts with a digit or with a sign followed by a digit, and ends with a digit; a negative result comes only from a leading `-` |
| `Atoms.UnderscoreExamples` | lis.py:35 | int() accepts `1_000` as 1000 and rejects `1__0`, `_1`, `1_` and `-_1` |
| `Atoms.ParseIntOfDecimal` | lis.py:34-35 | int() reads the decimal text str() prints for any integer, negative ones included, back as that integer |
| `Atoms.Atom` | lis.py:32-40 | a token is never read as a list; it becomes a number exactly when int() accepts it, and then the number int() gives, and otherwise the symbol with the token's own text |
| `Atoms.AtomOfDecimal` | lis.py:32-35 | atom turns the printed form of an integer n into the number n |
| `Atoms.AtomOfDigits` | lis.py:34-35 | a token of decimal digits (leading zeros allowed) becomes the number it denotes |
| `Atoms.AtomOfSignedDigits` | lis.py:34-35 | a token of a sign followed by digits becomes the number, negated for `-` |
| `Atoms.AtomWithoutDigits` | lis.py:36-40 | a token with no digit (such as `-`, `+`, `define`) falls back to the symbol equal to the token text |
| `Reader.ReadExp` | lis.py:16-30 | a successful read consumes at least one token and stays within the list; it fails with "unexpected EOF" exactly when no token is left and with "unexpected )" exactly when the first token is `)` |
| `Reader.ReadItems` | lis.py:21-26 | inside a list a read either returns a list and moves past the `)` that closes it, or fails only because the tokens ran out (the IndexError of `tokens[0]`) |
| `Reader.ReadFromTokens` | lis.py:16-30 | the recursive method with the source's while loop returns exactly what ReadExp specifies |
| `Reader.Parse` | lis.py:12-14 | parse fails with "unexpected EOF" exactly when the program has no token and with "unexpected )" exactly when its first token is `)`; the IndexError arises only for a program that starts with `(`; on success the result is a list exactly when the first token is `(` |
| `Reader.ReadExpConsumes` | lis.py:20-26 | the tokens a successful read consumes are exactly the tokens of the expression it returns, elements in written order and `()` an empty list (numerals up to their spelling) |
| `Reader.ReadExpIgnoresRest` | lis.py:12-14 | a successful read depends on nothing after the tokens it consumes, so the rest of the list is left as it is and parse ignores trailing tokens |
| `Reader.Unterminated` | lis.py:21-25 | a `(` with no `)` after it fails with the IndexError of the loop test, not with "unexpected EOF" |
| `Reader.ParseExample` | lis.py:12-30 | parse("(+ 1 2)") is the list of the symbol `+` and the numbers 1 and 2 |
| `Reader.ReadErrorExamples` | lis.py:18-28 | an empty program fails with "unexpected EOF", a lone `)` with "unexpected )", and an unclosed `(` with the IndexError |
| `Reader.EmptyListExample` | lis.py:21-26 | `( )` reads as the empty list |
| `Printer.Show` | lis.py:88-93 | a number prints as text that atom reads back as that number, a symbol as its own text, and a list as text that starts with `(` and ends with `)` |
| `RoundTrip.ParseWellFormed` | lis.py:12-40 | every expression parse returns has symbols that are single lexemes int() rejects |
| `RoundTrip.TokenizeShow` | lis.py:88-93 | the printed form of such an expression tokenizes into exactly its tokens |
| `RoundTrip.PrintThenParse` | lis.py:88-93 | parsing the printed form of a well-formed expression gives the expression back |
| `RoundTrip.ParsePrintParse` | lis.py:88-93 | for every expression parse produces, parsing what schemestr prints yields the same expression |
| `RoundTrip.ShowExample` | lis.py:88-93 | the empty list prints as `()` and a list prints its elements joined by single spaces |
| `Evaluator.StandardEnv` | lis.py:47-52 | the initial environment binds exactly the symbols `+`, `-` and `*` |
| `Evaluator.Apply` | lis.py:48-50 | a call succeeds exactly when the operator is a primitive given two integers, and then yields their sum, difference or product; it raises "not callable" exactly when the operator is not a procedure |
| `Evaluator.Truthy` | lis.py:65 | a value counts as false exactly when it is the integer 0 or None |
| `Evaluator.EvalExp` | lis.py:57-73 | evaluation never removes a binding from the environment |
| `Evaluator.EvalArgs` | lis.py:72 | argument evaluation never removes a binding and on success yields one value per argument |
| `Evaluator.Environment.constructor` | lis.py:55 | a new session starts from the standard environment |
| `Evaluator.Environment.Eval` | lis.py:57-73 | the in-place method returns what EvalExp returns and leaves the dictionary as EvalExp leaves the environment |
| `Evaluator.NoDefineKeepsEnv` | lis.py:57-73 | evaluating an expression that holds no define leaves every binding as it was, whatever the result |
| `Evaluator.DefineTouchesOnlyName` | lis.py:67-69 | when the value expression holds no define and evaluates without error, define binds its value under the name, returns None, adds only that key and keeps every other binding; a list name raises with the environment unchanged |
| `Evaluator.IfShortCircuit` | lis.py:63-66 | if evaluates the test and then only the chosen branch; replacing the untaken branch changes nothing, and an error in the test is the error of the form |
| `Evaluator.SpecialFormArity` | lis.py:63-69 | an if without exactly three operands or a define without exactly two raises before anything is evaluated |
| `Evaluator.EvalArgsAppend` | lis.py:72 | arguments are evaluated strictly left to right, each in the environment the ones before it left |
| `Evaluator.AddExample` | lis.py:70-73 | (+ 1 2) evaluates to 3 |
| `Evaluator.DefineThenLookup` | lis.py:59-69 | (define x 10) returns None and x then evaluates to 10 |
| `Evaluator.IfExamples` | lis.py:63-66 | (if 0 10 20) is 20, and (if 1 10 zzz) is 10 although zzz is unbound |
| `Evaluator.ErrorExamples` | lis.py:59-63 | an unbound symbol raises, and so does the empty list |
| `Evaluator.DefineInEarlierArgument` | lis.py:70-73 | a define in an earlier argument is visible to a later one; in the other order the lookup fails and the define never runs |
| `Evaluator.ArgumentsBeforeCall` | lis.py:70-73 | an argument's error comes before the operator is found not callable |
| `Evaluator.OperatorBeforeArguments` | lis.py:71-73 | the operator is evaluated before the arguments: in `((define f 1) f)` the define runs first, the argument finds `f`, and the call fails because None is not callable |

## Left out

- The prompt loop `repl` (lis.py:75-86) and the call starting it (lis.py:95): console input and output and the catch-all handler.
- The `math` module entries of `standard_env` (lis.py:44-46): host functions and float constants. Only `+`, `-` and `*` on integers are modelled.
- Division `/` (lis.py:51): it yields floats and is not bound in the model's environment.
- The float branch of `atom` (lis.py:37-38): a token such as `1.5`, `1e3` or `inf` becomes a symbol in the model, where Python gives a float. In the model such a symbol is looked up like any name: it is unbound unless a `define` bound it, so after `(define 1.5 7)` the model evaluates `1.5` to 7, where Python binds the float key and `1.5` still evaluates to itself.
- `Atoms.ParseInt`: Unicode decimal digits other than ASCII are not modelled (Python's `int()` accepts them). Nor is the limit of 4300 digits that `int()` enforces on long numerals.
- `Atoms.ParseInt`: the whitespace `int()` strips around its argument is not modelled, because tokens never contain whitespace.
- The destructive `pop(0)` on a shared Python list (lis.py:20, lis.py:25) is modelled as a cursor over an unchanging token sequence. The tokens left for the caller are those after the returned cursor. On a failed read, the model does not record how far the list was consumed.
- Printing of values that are not expressions: procedures (Python's `<function ...>` text) and `None`, which the prompt loop never prints.
- Python's recursion limit on deeply nested input and the `global_env` default argument (lis.py:55, lis.py:57): the environment is passed explicitly.
