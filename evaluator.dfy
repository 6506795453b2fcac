/**
  The evaluator of lis.py:57-73 over one flat environment (lis.py:42-55).

  The Python function eval updates the environment dictionary in place; here
  EvalExp is the specification, a function that threads the environment
  through and returns it with the result, and Environment.Eval is the
  recursive method over a class holding the dictionary, proved to do what
  EvalExp says. An error leaves in place every binding made before it, as the
  in-place dictionary does.
 */
module Evaluator {
  import opened Wrappers
  import opened Syntax

  /** The integer primitives '+', '-' and '*' of lis.py:48-50, each a two-argument lambda. */
  datatype Prim = Add | Sub | Mul

  /** What evaluation produces: an integer, a primitive procedure, or Python's
      None (the value of a define). */
  datatype Value = Int(n: int) | Proc(op: Prim) | NoneValue

  /** The exceptions eval raises. */
  datatype EvalError =
    | UnboundSymbol(name: string)    // KeyError from env[x] (lis.py:60)
    | EmptyForm                      // IndexError from x[0] on () (lis.py:63)
    | BadSpecialForm(keyword: string) // ValueError from the tuple unpacking (lis.py:64, lis.py:68)
    | UnhashableName                 // TypeError: a list as the name of define (lis.py:69)
    | NotCallable                    // TypeError: the operator value is not a procedure (lis.py:73)
    | ArityMismatch                  // TypeError: a two-argument lambda called with another count
    | OperandType                    // TypeError: + - * on something other than two integers

  /** The dictionary: its keys are the hashable expressions, symbols and integers. */
  type Env = map<Exp, Value>

  /** A result together with the environment as it is afterwards. */
  datatype Outcome<T> = Outcome(result: Result<T, EvalError>, env: Env)

  /** The environment standard_env builds, restricted to the integer primitives. */
  function StandardEnv(): (env: Env)
    ensures env.Keys == {Sym("+"), Sym("-"), Sym("*")}
  {
    map[Sym("+") := Proc(Add), Sym("-") := Proc(Sub), Sym("*") := Proc(Mul)]
  }

  function Compute(op: Prim, a: int, b: int): int
  {
    match op
    case Add => a + b
    case Sub => a - b
    case Mul => a * b
  }

  /** proc(*args) of lis.py:73. */
  function Apply(proc: Value, args: seq<Value>): (r: Result<Value, EvalError>)
    ensures r.Ok? <==> proc.Proc? && |args| == 2 && args[0].Int? && args[1].Int?
    ensures r.Ok? ==> r.value == Int(Compute(proc.op, args[0].n, args[1].n))
    ensures r == Err(NotCallable) <==> !proc.Proc?
  {
    if !proc.Proc? then Err(NotCallable)
    else if |args| != 2 then Err(ArityMismatch)
    else if !(args[0].Int? && args[1].Int?) then Err(OperandType)
    else Ok(Int(Compute(proc.op, args[0].n, args[1].n)))
  }

  /** Python truthiness of a value: zero and None are false, every other
      integer and every procedure is true. */
  function Truthy(v: Value): (t: bool)
    ensures !t <==> v == Int(0) || v == NoneValue
  {
    match v
    case Int(n) => n != 0
    case Proc(_) => true
    case NoneValue => false
  }

  /** eval(x, env) of lis.py:57-73: the result and the environment afterwards.
      No binding is ever removed. */
  function EvalExp(x: Exp, env: Env): (out: Outcome<Value>)
    ensures env.Keys <= out.env.Keys
    decreases x
  {
    match x
    case Sym(s) =>
      if x in env then Outcome(Ok(env[x]), env) else Outcome(Err(UnboundSymbol(s)), env)
    case Num(n) => Outcome(Ok(Int(n)), env)
    case List(items) =>
      if |items| == 0 then Outcome(Err(EmptyForm), env)
      else if items[0] == Sym("if") then
        if |items| != 4 then Outcome(Err(BadSpecialForm("if")), env)
        else
          var test := EvalExp(items[1], env);
          match test.result
          case Err(e) => Outcome(Err(e), test.env)
          case Ok(v) => EvalExp(if Truthy(v) then items[2] else items[3], test.env)
      else if items[0] == Sym("define") then
        if |items| != 3 then Outcome(Err(BadSpecialForm("define")), env)
        else
          var value := EvalExp(items[2], env);
          match value.result
          case Err(e) => Outcome(Err(e), value.env)
          case Ok(v) =>
            if items[1].List? then Outcome(Err(UnhashableName), value.env)
            else Outcome(Ok(NoneValue), value.env[items[1] := v])
      else
        var op := EvalExp(items[0], env);
        match op.result
        case Err(e) => Outcome(Err(e), op.env)
        case Ok(proc) =>
          var args := EvalArgs(items[1..], op.env);
          match args.result
          case Err(e) => Outcome(Err(e), args.env)
          case Ok(vs) => Outcome(Apply(proc, vs), args.env)
  }

  /** [eval(arg, env) for arg in args] of lis.py:72: left to right, each argument
      seeing the bindings the ones before it made; the first error stops it. */
  function EvalArgs(args: seq<Exp>, env: Env): (out: Outcome<seq<Value>>)
    ensures env.Keys <= out.env.Keys
    ensures out.result.Ok? ==> |out.result.value| == |args|
    decreases args
  {
    if args == [] then Outcome(Ok([]), env)
    else
      var first := EvalExp(args[0], env);
      match first.result
      case Err(e) => Outcome(Err(e), first.env)
      case Ok(v) =>
        var rest := EvalArgs(args[1..], first.env);
        match rest.result
        case Err(e) => Outcome(Err(e), rest.env)
        case Ok(vs) => Outcome(Ok([v] + vs), rest.env)
  }

  /** The argument values already computed put in front of the ones still to come. */
  function PrefixArgs(done: seq<Value>, out: Outcome<seq<Value>>): Outcome<seq<Value>>
  {
    if out.result.Ok? then Outcome(Ok(done + out.result.value), out.env) else out
  }

  /** The one mutable environment of a session, with eval as a method that
      updates it in place. */
  class Environment {
    var table: Env

    /** global_env = standard_env() of lis.py:55, restricted to the integer primitives. */
    constructor ()
      ensures table == StandardEnv()
    {
      table := StandardEnv();
    }

    /** eval(x, env) of lis.py:57-73: returns what EvalExp returns and leaves the
        table as EvalExp leaves the environment. */
    method Eval(x: Exp) returns (r: Result<Value, EvalError>)
      modifies this
      ensures Outcome(r, table) == EvalExp(x, old(table))
      decreases x
    {
      match x
      case Sym(s) =>
        if x in table {
          r := Ok(table[x]);
        } else {
          r := Err(UnboundSymbol(s));
        }
      case Num(n) =>
        r := Ok(Int(n));
      case List(items) =>
        if |items| == 0 {
          r := Err(EmptyForm);
        } else if items[0] == Sym("if") {
          if |items| != 4 {
            return Err(BadSpecialForm("if"));
          }
          var test := Eval(items[1]);
          if test.Err? {
            return Err(test.error);
          }
          r := Eval(if Truthy(test.value) then items[2] else items[3]);
        } else if items[0] == Sym("define") {
          if |items| != 3 {
            return Err(BadSpecialForm("define"));
          }
          var value := Eval(items[2]);
          if value.Err? {
            return Err(value.error);
          }
          if items[1].List? {
            return Err(UnhashableName);
          }
          table := table[items[1] := value.value];
          r := Ok(NoneValue);
        } else {
          var proc := Eval(items[0]);
          if proc.Err? {
            return Err(proc.error);
          }
          ghost var afterOp := table;
          var args: seq<Value> := [];
          var i := 1;
          ghost var all := EvalArgs(items[1..], table);
          if all.result.Ok? {
            assert [] + all.result.value == all.result.value;
          }
          while i < |items|
            invariant 1 <= i <= |items|
            invariant EvalArgs(items[1..], afterOp) == PrefixArgs(args, EvalArgs(items[i..], table))
            decreases |items| - i
          {
            assert items[i..][0] == items[i] && items[i..][1..] == items[i + 1..];
            var arg := Eval(items[i]);
            if arg.Err? {
              return Err(arg.error);
            }
            ghost var rest := EvalArgs(items[i + 1..], table);
            if rest.result.Ok? {
              assert args + ([arg.value] + rest.result.value) == (args + [arg.value]) + rest.result.value;
            }
            args := args + [arg.value];
            i := i + 1;
          }
          assert items[i..] == [];
          assert args + [] == args;
          r := Apply(proc.value, args);
        }
    }
  }

  /** Whether evaluating x can reach a define form: x is a non-empty list headed by
      the symbol define, or some element of it can. */
  predicate MayDefine(x: Exp)
  {
    match x
    case List(items) =>
      || (|items| > 0 && items[0] == Sym("define"))
      || exists i :: 0 <= i < |items| && MayDefine(items[i])
    case _ => false
  }

  /** Only define changes the environment: evaluating an expression that holds no
      define form, whatever its result, leaves every binding as it was. */
  lemma {:induction false} NoDefineKeepsEnv(x: Exp, env: Env)
    requires !MayDefine(x)
    ensures EvalExp(x, env).env == env
    decreases x
  {
    match x
    case List(items) =>
      if |items| > 0 {
        assert !MayDefine(items[0]);
        if items[0] == Sym("if") {
          if |items| == 4 {
            assert !MayDefine(items[1]) && !MayDefine(items[2]) && !MayDefine(items[3]);
            NoDefineKeepsEnv(items[1], env);
            var test := EvalExp(items[1], env);
            if test.result.Ok? {
              NoDefineKeepsEnv(if Truthy(test.result.value) then items[2] else items[3], env);
            }
          }
        } else {
          NoDefineKeepsEnv(items[0], env);
          forall i | 0 <= i < |items[1..]|
            ensures !MayDefine(items[1..][i])
          {
            assert items[1..][i] == items[i + 1];
          }
          NoDefineArgsKeepEnv(items[1..], env);
        }
      }
    case _ =>
  }

  lemma {:induction false} NoDefineArgsKeepEnv(args: seq<Exp>, env: Env)
    requires forall i :: 0 <= i < |args| ==> !MayDefine(args[i])
    ensures EvalArgs(args, env).env == env
    decreases args
  {
    if args != [] {
      NoDefineKeepsEnv(args[0], env);
      NoDefineArgsKeepEnv(args[1..], env);
    }
  }

  /** (define name e) of lis.py:67-69: the value of e is bound under name and
      None is returned; when e holds no define itself, every other binding is
      left exactly as it was. A list as name raises, after e was evaluated. */
  lemma DefineTouchesOnlyName(name: Exp, e: Exp, env: Env)
    requires !MayDefine(e) && EvalExp(e, env).result.Ok?
    ensures var out := EvalExp(List([Sym("define"), name, e]), env);
      if name.List? then out == Outcome(Err(UnhashableName), env)
      else
        && out.result == Ok(NoneValue)
        && out.env.Keys == env.Keys + {name}
        && out.env[name] == EvalExp(e, env).result.value
        && forall k :: k in env && k != name ==> out.env[k] == env[k]
  {
    NoDefineKeepsEnv(e, env);
  }

  /** (if t c a) of lis.py:63-66: t is evaluated first and then only the branch
      it selects; the other branch is never evaluated, so replacing it changes
      nothing. An error in t is the error of the whole form. */
  lemma IfShortCircuit(t: Exp, c: Exp, a: Exp, other: Exp, env: Env)
    ensures var test := EvalExp(t, env);
      var form := EvalExp(List([Sym("if"), t, c, a]), env);
      && (test.result.Err? ==> form == Outcome(Err(test.result.error), test.env))
      && (test.result.Ok? && Truthy(test.result.value) ==>
            form == EvalExp(c, test.env) == EvalExp(List([Sym("if"), t, c, other]), env))
      && (test.result.Ok? && !Truthy(test.result.value) ==>
            form == EvalExp(a, test.env) == EvalExp(List([Sym("if"), t, other, a]), env))
  {
  }

  /** A form with the wrong number of elements raises before anything in it is
      evaluated. */
  lemma SpecialFormArity(items: seq<Exp>, env: Env)
    requires |items| > 0
    ensures items[0] == Sym("if") && |items| != 4 ==>
      EvalExp(List(items), env) == Outcome(Err(BadSpecialForm("if")), env)
    ensures items[0] == Sym("define") && |items| != 3 ==>
      EvalExp(List(items), env) == Outcome(Err(BadSpecialForm("define")), env)
  {
  }

  /** Evaluating the arguments a + b is evaluating a, then b in the environment a
      left behind: the order is strictly left to right. */
  lemma {:induction false} EvalArgsAppend(a: seq<Exp>, b: seq<Exp>, env: Env)
    ensures EvalArgs(a + b, env) ==
      var first := EvalArgs(a, env);
      if first.result.Err? then Outcome(Err(first.result.error), first.env)
      else PrefixArgs(first.result.value, EvalArgs(b, first.env))
    decreases a
  {
    if a == [] {
      assert a + b == b;
      var rest := EvalArgs(b, env);
      if rest.result.Ok? {
        assert [] + rest.result.value == rest.result.value;
      }
    } else {
      assert (a + b)[0] == a[0] && (a + b)[1..] == a[1..] + b;
      var head := EvalExp(a[0], env);
      if head.result.Ok? {
        EvalArgsAppend(a[1..], b, head.env);
        var tail := EvalArgs(a[1..], head.env);
        if tail.result.Ok? {
          var rest := EvalArgs(b, tail.env);
          if rest.result.Ok? {
            assert [head.result.value] + (tail.result.value + rest.result.value)
                == ([head.result.value] + tail.result.value) + rest.result.value;
          }
        }
      }
    }
  }

  /** (+ 1 2) evaluates to 3 in the standard environment. */
  lemma AddExample()
    ensures EvalExp(List([Sym("+"), Num(1), Num(2)]), StandardEnv()) == Outcome(Ok(Int(3)), StandardEnv())
  {
    var items := [Sym("+"), Num(1), Num(2)];
    assert items[1..] == [Num(1), Num(2)] && items[1..][1..] == [Num(2)] && items[1..][1..][1..] == [];
  }

  /** (define x 10) returns None, and x then evaluates to 10 in the environment it left. */
  lemma DefineThenLookup()
    ensures var defined := EvalExp(List([Sym("define"), Sym("x"), Num(10)]), StandardEnv());
      && defined.result == Ok(NoneValue)
      && EvalExp(Sym("x"), defined.env).result == Ok(Int(10))
  {
  }

  /** (if 0 10 20) is 20; (if 1 10 zzz) is 10 although zzz is unbound: the
      untaken branch is never evaluated. */
  lemma IfExamples()
    ensures EvalExp(List([Sym("if"), Num(0), Num(10), Num(20)]), StandardEnv()).result == Ok(Int(20))
    ensures EvalExp(List([Sym("if"), Num(1), Num(10), Sym("zzz")]), StandardEnv()).result == Ok(Int(10))
  {
  }

  /** An unbound symbol and the empty list both raise. */
  lemma ErrorExamples()
    ensures EvalExp(Sym("zzz"), StandardEnv()).result == Err(UnboundSymbol("zzz"))
    ensures EvalExp(List([]), StandardEnv()).result == Err(EmptyForm)
  {
  }

  /** A define in an earlier argument is visible to later ones: in (+ (define x 5) x)
      the second argument finds x, and only the call fails (None + 5); in
      (+ x (define x 5)) the first argument fails and the define never runs. */
  lemma DefineInEarlierArgument()
    ensures EvalExp(List([Sym("+"), List([Sym("define"), Sym("x"), Num(5)]), Sym("x")]), StandardEnv())
         == Outcome(Err(OperandType), StandardEnv()[Sym("x") := Int(5)])
    ensures EvalExp(List([Sym("+"), Sym("x"), List([Sym("define"), Sym("x"), Num(5)])]), StandardEnv())
         == Outcome(Err(UnboundSymbol("x")), StandardEnv())
  {
    var def := List([Sym("define"), Sym("x"), Num(5)]);
    var env1 := StandardEnv()[Sym("x") := Int(5)];
    assert EvalExp(def, StandardEnv()) == Outcome(Ok(NoneValue), env1);
    var args1 := [def, Sym("x")];
    assert args1[1..] == [Sym("x")] && args1[1..][1..] == [];
    assert EvalExp(Sym("x"), env1) == Outcome(Ok(Int(5)), env1);
    assert EvalArgs([Sym("x")], env1) == Outcome(Ok([Int(5)]), env1) by {
      assert [Sym("x")][1..] == [];
      assert EvalArgs([], env1) == Outcome(Ok([]), env1);
      assert [Int(5)] + [] == [Int(5)];
    }
    assert [NoneValue] + [Int(5)] == [NoneValue, Int(5)];
    assert EvalArgs(args1, StandardEnv()) == Outcome(Ok([NoneValue, Int(5)]), env1);
    var items1 := [Sym("+"), def, Sym("x")];
    assert items1[1..] == args1;
    var items2 := [Sym("+"), Sym("x"), def];
    assert items2[1..] == [Sym("x"), def];
  }

  /** The operator value is checked only when it is called, after every argument
      was evaluated: (1 zzz) raises for zzz, (1 2) because 1 is not callable. */
  lemma ArgumentsBeforeCall()
    ensures EvalExp(List([Num(1), Sym("zzz")]), StandardEnv()).result == Err(UnboundSymbol("zzz"))
    ensures EvalExp(List([Num(1), Num(2)]), StandardEnv()).result == Err(NotCallable)
  {
    assert [Num(1), Sym("zzz")][1..] == [Sym("zzz")];
    assert [Num(1), Num(2)][1..] == [Num(2)];
  }

  /** The operator is evaluated before the arguments: in ((define f 1) f) the
      define in operator position binds f, the argument then finds it, and the
      call fails only because the operator's value None is not callable. */
  lemma OperatorBeforeArguments()
    ensures EvalExp(List([List([Sym("define"), Sym("f"), Num(1)]), Sym("f")]), StandardEnv())
         == Outcome(Err(NotCallable), StandardEnv()[Sym("f") := Int(1)])
  {
    var def := List([Sym("define"), Sym("f"), Num(1)]);
    var env1 := StandardEnv()[Sym("f") := Int(1)];
    assert EvalExp(def, StandardEnv()) == Outcome(Ok(NoneValue), env1);
    assert [def, Sym("f")][1..] == [Sym("f")] && [Sym("f")][1..] == [];
    assert EvalArgs([Sym("f")], env1) == Outcome(Ok([Int(1)]), env1) by {
      assert EvalArgs([], env1) == Outcome(Ok([]), env1);
      assert [Int(1)] + [] == [Int(1)];
    }
  }
}
