/**
  The expression data model of lis.py: an expression is a symbol (a Python str),
  an integer (a Python int) or a list of expressions (a Python list).
  Floating-point numbers are not part of this model.
 */
module Syntax {

  datatype Exp =
    | Num(n: int)
    | Sym(name: string)
    | List(items: seq<Exp>)
}
