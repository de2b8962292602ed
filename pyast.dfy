/**
 * The small part of Python's abstract syntax that the linkers and the
 * output-capture rules look at. Node kinds they treat alike are merged:
 * `Call`, `Tuple`, `List` and `Other` stand for every expression whose children are
 * simply visited in order, `Compound` for every statement (if, for, while,
 * with, return, ...) whose expressions and nested statements are.
 */
module PyAst {
  import opened Wrappers
  import opened Refs

  /** The context of a `Name`: read, written or deleted. */
  datatype Ctx = Load | Store | Del

  /** Where a node sits in the source: `(lineno, col_offset)` to `(end_lineno, end_col_offset)`. */
  datatype Span = Span(start: Pos, end: Pos)

  datatype Expr =
    | Name(id: string, ctx: Ctx, span: Span)
    | Str(s: string)                                      // a string constant
    | Subscript(value: Expr, slice: Expr)
    | Call(func: Expr, args: seq<Expr>)
    | Tuple(elts: seq<Expr>, ctx: Ctx)
    | List(elts: seq<Expr>)                               // a list display `[a, b, ...]`
    | Other(children: seq<Expr>)                          // any other expression, by its children
    | Lambda(params: Params, body: Expr)
    | Comp(generators: seq<Comprehension>, elt: Expr)     // list, set and generator comprehensions
    | DictComp(generators: seq<Comprehension>, key: Expr, val: Expr)
    | NamedExpr(target: Expr, value: Expr)

  /** One `for target in iter if cond...` clause of a comprehension. */
  datatype Comprehension = Comprehension(target: Expr, iter: Expr, ifs: seq<Expr>)

  /**
   * The parameters of a function or lambda: positional-only, ordinary,
   * `*vararg`, keyword-only and `**kwarg` names, and the default values.
   */
  datatype Params = Params(
    posonly: seq<string>,
    args: seq<string>,
    vararg: Option<string>,
    kwonly: seq<string>,
    kwarg: Option<string>,
    defaults: seq<Expr>)

  datatype Stmt =
    | Assign(targets: seq<Expr>, value: Expr)
    | AugAssign(target: Expr, value: Expr)
    | AnnAssign(target: Expr, annotation: Expr, init: Option<Expr>)     // `target: annotation = init`
    | ExprStmt(value: Expr)
    | FunctionDef(name: string, params: Params, body: seq<Stmt>, decorators: seq<Expr>)
    | ClassDef(name: string, bases: seq<Expr>, body: seq<Stmt>)
    | Try(body: seq<Stmt>, handlers: seq<Handler>, orelse: seq<Stmt>)
    | Import(names: seq<Alias>)                           // `import` and `from ... import`
    | Delete(targets: seq<Expr>)
    | Compound(exprs: seq<Expr>, body: seq<Stmt>)         // any other statement, by its parts

  /** `except typ as name: body` */
  datatype Handler = Handler(typ: Option<Expr>, name: Option<string>, body: seq<Stmt>)

  /** `name` or `name as asname` in an import. */
  datatype Alias = Alias(name: string, asname: Option<string>)
}
