/**
 * The scope-stack linker that walks a cell's syntax tree. In recording mode
 * (`DataflowLinker` inside `ground_refs`) it collects a reference for every
 * free name that links to another cell's output; in renaming mode
 * (`DFconvertDataflowLinker` inside `convert_output_tags`) it suffixes the
 * cell's own top-level names with the cell id through `update_identifier`
 * and collects the cells the code depends on.
 */
module Linker {
  import opened Wrappers
  import opened Text
  import opened Refs
  import opened PyAst

  // ---------------------------------------------------------------------
  // Configuration

  /**
   * What `ground_refs` consults: the explicit `cell_refs` (if given), the
   * links the dataflow state knows at this execution count (name to cell id),
   * the tags of the cells (`input_tags`) and the output tags.
   */
  datatype RecordConfig = RecordConfig(
    cellRefs: Option<map<string, seq<string>>>,
    links: map<string, string>,
    inputTags: map<string, string>,
    outputTags: map<string, seq<string>>)

  /** What `convert_output_tags` consults: this cell's id, the notebook's cell ids in order, and the builtin names. */
  datatype RenameConfig = RenameConfig(uuid: string, uuidsInNb: seq<string>, builtins: set<string>)

  datatype Mode = Record(rec: RecordConfig) | Rename(ren: RenameConfig)

  // ---------------------------------------------------------------------
  // Scopes and update_identifier

  /** `id` is bound in some scope other than the outermost one (the cell's own). */
  predicate InInnerScope(scope: seq<set<string>>, id: string)
  {
    exists k :: 1 <= k < |scope| && id in scope[k]
  }

  /** `id` is bound in some scope of the stack. */
  predicate Bound(scope: seq<set<string>>, id: string)
  {
    exists k :: 0 <= k < |scope| && id in scope[k]
  }

  /** The index of the first cell id, from position `i` on, that occurs in `id`. */
  function FirstContainedFrom(uuids: seq<string>, id: string, i: nat): (r: Option<nat>)
    requires i <= |uuids|
    ensures r.Some? ==> i <= r.value < |uuids| && Contains(id, uuids[r.value])
    ensures r.Some? ==> forall j :: i <= j < r.value ==> !Contains(id, uuids[j])
    ensures r.None? ==> forall j :: i <= j < |uuids| ==> !Contains(id, uuids[j])
    decreases |uuids| - i
  {
    if i == |uuids| then None
    else if Contains(id, uuids[i]) then Some(i)
    else FirstContainedFrom(uuids, id, i + 1)
  }

  /** The index of the first cell id of the notebook that occurs in `id`, if any. */
  function FirstContained(uuids: seq<string>, id: string): (r: Option<nat>)
    ensures r.Some? ==> r.value < |uuids| && Contains(id, uuids[r.value])
    ensures r.Some? ==> forall j :: 0 <= j < r.value ==> !Contains(id, uuids[j])
    ensures r.None? ==> forall j :: 0 <= j < |uuids| ==> !Contains(id, uuids[j])
  {
    FirstContainedFrom(uuids, id, 0)
  }

  /** A name the renaming leaves alone wherever it is: it contains a cell id, is `get_ipython` or a builtin. */
  predicate Kept(id: string, cfg: RenameConfig)
  {
    FirstContained(cfg.uuidsInNb, id).Some? || id == "get_ipython" || id in cfg.builtins
  }

  /**
   * `update_identifier`: the text an identifier is printed as, and the cell
   * id recorded as a dependency, if any. An import without alias keeps its
   * module and binds `name_<uuid>`; a name bound in an inner scope is kept;
   * otherwise a name containing a cell id is kept and depends on the first
   * such id; `get_ipython` and builtins are kept; anything else gets the
   * `_<uuid>` suffix.
   */
  function UpdateIdentifier(id: string, scope: seq<set<string>>, imported: bool, cfg: RenameConfig): (r: (string, Option<string>))
    ensures imported ==> r == (id + " as " + id + "_" + cfg.uuid, None)
    ensures !imported && InInnerScope(scope, id) ==> r == (id, None)
    ensures !imported && !InInnerScope(scope, id) ==>
      (r.0 == id <==> Kept(id, cfg)) && (r.0 != id ==> r.0 == id + "_" + cfg.uuid)
    ensures !imported && !InInnerScope(scope, id) && FirstContained(cfg.uuidsInNb, id).Some? ==>
      r.1 == Some(cfg.uuidsInNb[FirstContained(cfg.uuidsInNb, id).value])
    ensures r.1.Some? ==> r.1.value in cfg.uuidsInNb && Contains(id, r.1.value)
  {
    if imported then (id + " as " + id + "_" + cfg.uuid, None)
    else if InInnerScope(scope, id) then (id, None)
    else match FirstContained(cfg.uuidsInNb, id)
      case Some(k) => (id, Some(cfg.uuidsInNb[k]))
      case None =>
        if id == "get_ipython" || id in cfg.builtins then (id, None)
        else
          assert |id + "_" + cfg.uuid| > |id|;
          (id + "_" + cfg.uuid, None)
  }

  /**
   * At the cell's top level the printed form of a name does not depend on
   * the scope contents, so a definition and a later use of the same name
   * agree; inside a function, class, handler or comprehension a name just
   * bound in the innermost scope is printed unchanged.
   */
  lemma UpdateIdentifierConsistent(id: string, s1: seq<set<string>>, s2: seq<set<string>>, cfg: RenameConfig)
    requires |s1| == 1 && |s2| == 1
    ensures UpdateIdentifier(id, s1, false, cfg) == UpdateIdentifier(id, s2, false, cfg)
    ensures forall inner: seq<set<string>> ::
      |inner| > 1 && id in inner[|inner| - 1] ==> UpdateIdentifier(id, inner, false, cfg).0 == id
  {
    forall inner: seq<set<string>> | |inner| > 1 && id in inner[|inner| - 1]
      ensures UpdateIdentifier(id, inner, false, cfg).0 == id
    {
      assert InInnerScope(inner, id);
    }
  }

  /**
   * The scope a function or lambda pushes: all of its parameter names,
   * `*vararg` and `**kwarg` included.
   */
  function FunctionScope(p: Params): (r: set<string>)
    ensures forall n :: n in p.posonly || n in p.args || n in p.kwonly ==> n in r
    ensures p.vararg.Some? ==> p.vararg.value in r
    ensures p.kwarg.Some? ==> p.kwarg.value in r
    ensures forall n :: n in r ==> n in p.posonly || n in p.args || n in p.kwonly || Some(n) == p.vararg || Some(n) == p.kwarg
  {
    (set n | n in p.args + p.posonly + p.kwonly)
    + (if p.vararg.Some? then {p.vararg.value} else {})
    + (if p.kwarg.Some? then {p.kwarg.value} else {})
  }

  /** The scope `process_function` pushes as written: `args`, `posonlyargs` and `kwonlyargs` only. */
  function FunctionScopeAsWritten(p: Params): (r: set<string>)
    ensures forall n :: n in r <==> n in p.args || n in p.posonly || n in p.kwonly
  {
    set n | n in p.args + p.posonly + p.kwonly
  }

  /**
   * As written, a `*args` parameter is missing from the function's scope,
   * so a use of `args` in the body is renamed to `args_<uuid>` while the
   * parameter keeps its name: `def f(*args): return args` loses its binding.
   */
  lemma VarargRenamedAsWritten(v: string, cfg: RenameConfig)
    requires !Kept(v, cfg)
    ensures var p := Params([], [], Some(v), [], None, []);
      && v !in FunctionScopeAsWritten(p)
      && UpdateIdentifier(v, [{}, FunctionScopeAsWritten(p)], false, cfg).0 == v + "_" + cfg.uuid
  {
    var p := Params([], [], Some(v), [], None, []);
    var scope := [{}, FunctionScopeAsWritten(p)];
    assert !InInnerScope(scope, v) by {
      forall k | 1 <= k < |scope| ensures v !in scope[k] {
        assert scope[k] == FunctionScopeAsWritten(p);
      }
    }
  }

  /** With the corrected scope, every use of a parameter inside its function is printed unchanged. */
  lemma ParamsKept(p: Params, outer: seq<set<string>>, n: string, cfg: RenameConfig)
    requires |outer| >= 1
    requires n in p.posonly || n in p.args || n in p.kwonly || Some(n) == p.vararg || Some(n) == p.kwarg
    ensures UpdateIdentifier(n, outer + [FunctionScope(p)], false, cfg) == (n, None)
  {
    var scope := outer + [FunctionScope(p)];
    assert n in scope[|scope| - 1];
  }

  /** The cell ids an `update_identifier` result records as dependencies. */
  function DepSet(dep: Option<string>): set<string>
  {
    if dep.Some? then {dep.value} else {}
  }

  /**
   * A name at a binding position (a store, a function or class name, an
   * import alias) is added to the innermost scope before it is renamed, so
   * inside a function, class, handler or comprehension it is never renamed,
   * and at the cell's top level it is renamed exactly when it is not kept.
   */
  lemma BindingRenamed(id: string, scope: seq<set<string>>, cfg: RenameConfig)
    requires |scope| >= 1 && id in scope[|scope| - 1]
    ensures RenamedBinding(id, UpdateIdentifier(id, scope, false, cfg).0, |scope| > 1, cfg)
  {
    if |scope| > 1 {
      assert InInnerScope(scope, id);
    }
  }

  /** A use of a name is kept or suffixed, and at top level as `RenamedId` says. */
  lemma UseRenamed(id: string, scope: seq<set<string>>, cfg: RenameConfig)
    requires |scope| >= 1
    ensures RenamedId(id, UpdateIdentifier(id, scope, false, cfg).0, |scope| > 1, cfg)
  {
  }

  // ---------------------------------------------------------------------
  // The `Out["<cell id>"]` subscript

  /**
   * The rules a walk follows: the source's own, or the corrected ones,
   * where a function's scope holds every parameter (`FunctionScope`) and
   * `Out["<s>"]` is tested on the subscript's own cell id (`OutRefId`).
   */
  datatype Rules = AsWritten | Corrected

  /** The scope a function or lambda pushes under the given rules. */
  function ParamScope(p: Params, rules: Rules): set<string>
  {
    if rules == Corrected then FunctionScope(p) else FunctionScopeAsWritten(p)
  }

  /**
   * The cell id whose output `Out["<s>"]` names, in the corrected form:
   * the subscript's string starts with one of the notebook's cell ids.
   */
  function OutRefId(e: Expr, cfg: RenameConfig): (r: Option<string>)
    ensures r.Some? ==> e.Subscript? && e.value.Name? && e.value.id == "Out" && e.slice == Str(r.value)
    ensures r.Some? ==> |r.value| >= 8 && r.value[..8] in cfg.uuidsInNb
  {
    if e.Subscript? && e.value.Name? && e.value.id == "Out" && e.slice.Str?
      && |e.slice.s| >= 8 && e.slice.s[..8] in cfg.uuidsInNb
    then Some(e.slice.s)
    else None
  }

  /** The test `visit_Subscript` makes as written: the first 8 characters of `"Out_" + s`. */
  function OutRefIdAsWritten(e: Expr, cfg: RenameConfig): (r: Option<string>)
    ensures r.Some? ==> e.Subscript? && e.value.Name? && e.value.id == "Out" && e.slice == Str(r.value)
    ensures r.Some? ==> |"Out_" + r.value| > 7 && ("Out_" + r.value)[..8] in cfg.uuidsInNb
  {
    if e.Subscript? && e.value.Name? && e.value.id == "Out" && e.slice.Str?
      && |"Out_" + e.slice.s| > 7 && ("Out_" + e.slice.s)[..8] in cfg.uuidsInNb
    then Some(e.slice.s)
    else None
  }

  /**
   * As written the test compares `"Out_"` plus four characters with the cell
   * ids, so it never holds for ids that do not start with `Out_` (cell ids
   * are hexadecimal): `Out["0123abcd"]` in a notebook whose cells include
   * `0123abcd` is left alone, where the corrected test rewrites it.
   */
  lemma OutRefAsWrittenNeverFires(e: Expr, cfg: RenameConfig)
    requires forall u :: u in cfg.uuidsInNb ==> |u| == 8 && IsLowerHexDigit(u[0])
    ensures OutRefIdAsWritten(e, cfg) == None
    ensures var x := Subscript(Name("Out", Load, Span(Pos(1, 0), Pos(1, 3))), Str("0123abcd"));
      var c := RenameConfig("89abcdef", ["0123abcd"], {});
      OutRefIdAsWritten(x, c) == None && OutRefId(x, c) == Some("0123abcd")
  {
    var x := Subscript(Name("Out", Load, Span(Pos(1, 0), Pos(1, 3))), Str("0123abcd"));
    assert ("Out_" + "0123abcd")[..8] == "Out_0123";
    assert "0123abcd"[..8] == "0123abcd";
  }

  /**
   * What `visit_Subscript` does with `Out["<s>"]` when its test holds under
   * the given rules: the value becomes the name `Out_<s>`, and the cell id
   * the test matched (`new_id[:8]` as written, `s[:8]` corrected) is
   * recorded as a dependency; that id occurs in the new name.
   */
  function OutRewrite(e: Expr, cfg: RenameConfig, rules: Rules): (r: Option<(string, string)>)
    ensures r.Some? ==> e.Subscript? && e.value.Name? && e.value.id == "Out" && e.slice.Str?
    ensures r.Some? ==> r.value.0 == "Out_" + e.slice.s && r.value.1 in cfg.uuidsInNb && Contains(r.value.0, r.value.1)
    ensures r.Some? <==> (if rules == Corrected then OutRefId(e, cfg) else OutRefIdAsWritten(e, cfg)).Some?
  {
    if rules == Corrected then
      match OutRefId(e, cfg)
      case None => None
      case Some(s) =>
        assert OccursAt("Out_" + s, s[..8], 4) by {
          assert ("Out_" + s)[4..12] == s[..8];
        }
        Some(("Out_" + s, s[..8]))
    else
      match OutRefIdAsWritten(e, cfg)
      case None => None
      case Some(s) =>
        assert OccursAt("Out_" + s, ("Out_" + s)[..8], 0);
        Some(("Out_" + s, ("Out_" + s)[..8]))
  }

  /** A name that contains one of the notebook's cell ids keeps its text under renaming, in any scope. */
  lemma ContainingNameKept(n: string, dep: string, scope: seq<set<string>>, cfg: RenameConfig)
    requires dep in cfg.uuidsInNb && Contains(n, dep)
    ensures UpdateIdentifier(n, scope, false, cfg).0 == n
  {
    var j :| 0 <= j < |cfg.uuidsInNb| && cfg.uuidsInNb[j] == dep;
    assert Kept(n, cfg);
  }

  // ---------------------------------------------------------------------
  // What the renaming walk does to a tree

  /** A use of a name: unchanged or suffixed; at top level suffixed exactly when not kept. */
  predicate RenamedId(id: string, id2: string, nested: bool, cfg: RenameConfig)
  {
    if nested then id2 == id || (!Kept(id, cfg) && id2 == id + "_" + cfg.uuid)
    else id2 == (if Kept(id, cfg) then id else id + "_" + cfg.uuid)
  }

  /** A binding of a name: unchanged inside a nested scope, else as a top-level use. */
  predicate RenamedBinding(id: string, id2: string, nested: bool, cfg: RenameConfig)
  {
    if nested then id2 == id else RenamedId(id, id2, false, cfg)
  }

  /** A name in context: uses other than `Out` are renamed, stores are bindings, deletes are kept. */
  predicate RenamedName(id: string, id2: string, ctx: Ctx, nested: bool, cfg: RenameConfig)
  {
    match ctx
    case Load => if id == "Out" then id2 == id else RenamedId(id, id2, nested, cfg)
    case Store => RenamedBinding(id, id2, nested, cfg)
    case Del => id2 == id
  }

  /**
   * `e2` is `e` with its names renamed as the walk does when `e` is visited
   * at the given nesting; functions, lambdas, classes, handlers and
   * comprehensions visit their parts nested.
   */
  predicate RenamedExpr(e: Expr, e2: Expr, nested: bool, cfg: RenameConfig, rules: Rules)
    decreases e
  {
    match e
    case Name(id, ctx, span) =>
      e2.Name? && e2.ctx == ctx && e2.span == span && RenamedName(id, e2.id, ctx, nested, cfg)
    case Str(_) => e2 == e
    case Subscript(v, sl) =>
      && e2.Subscript?
      && RenamedExpr(sl, e2.slice, nested, cfg, rules)
      && if OutRewrite(e, cfg, rules).Some?
         then e2.value == Name(OutRewrite(e, cfg, rules).value.0, Load, v.span)
         else RenamedExpr(v, e2.value, nested, cfg, rules)
    case Call(f, args) => e2.Call? && RenamedExpr(f, e2.func, nested, cfg, rules) && RenamedExprs(args, e2.args, nested, cfg, rules)
    case Tuple(elts, ctx) => e2.Tuple? && e2.ctx == ctx && RenamedExprs(elts, e2.elts, nested, cfg, rules)
    case List(elts) => e2.List? && RenamedExprs(elts, e2.elts, nested, cfg, rules)
    case Other(cs) => e2.Other? && RenamedExprs(cs, e2.children, nested, cfg, rules)
    case Lambda(p, body) => e2.Lambda? && RenamedParams(p, e2.params, cfg, rules) && RenamedExpr(body, e2.body, true, cfg, rules)
    case Comp(gs, elt) => e2.Comp? && RenamedComps(gs, e2.generators, cfg, rules) && RenamedExpr(elt, e2.elt, true, cfg, rules)
    case DictComp(gs, k, v) =>
      && e2.DictComp? && RenamedComps(gs, e2.generators, cfg, rules)
      && RenamedExpr(k, e2.key, true, cfg, rules) && RenamedExpr(v, e2.val, true, cfg, rules)
    case NamedExpr(t, v) =>
      e2.NamedExpr? && RenamedExpr(t, e2.target, nested, cfg, rules) && RenamedExpr(v, e2.value, nested, cfg, rules)
  }

  predicate RenamedExprs(es: seq<Expr>, es2: seq<Expr>, nested: bool, cfg: RenameConfig, rules: Rules)
    decreases es
  {
    |es2| == |es| && forall i :: 0 <= i < |es| ==> RenamedExpr(es[i], es2[i], nested, cfg, rules)
  }

  /** Parameter names are never renamed; default values are visited inside the function. */
  predicate RenamedParams(p: Params, p2: Params, cfg: RenameConfig, rules: Rules)
    decreases p
  {
    p2 == p.(defaults := p2.defaults) && RenamedExprs(p.defaults, p2.defaults, true, cfg, rules)
  }

  predicate RenamedComps(gs: seq<Comprehension>, gs2: seq<Comprehension>, cfg: RenameConfig, rules: Rules)
    decreases gs
  {
    |gs2| == |gs| && forall i :: 0 <= i < |gs| ==> RenamedComp(gs[i], gs2[i], cfg, rules)
  }

  predicate RenamedComp(g: Comprehension, g2: Comprehension, cfg: RenameConfig, rules: Rules)
    decreases g
  {
    && RenamedExpr(g.target, g2.target, true, cfg, rules)
    && RenamedExpr(g.iter, g2.iter, true, cfg, rules)
    && RenamedExprs(g.ifs, g2.ifs, true, cfg, rules)
  }

  /** An import without alias binds `name as name_<uuid>`; an alias is a binding. */
  predicate RenamedAlias(a: Alias, a2: Alias, nested: bool, cfg: RenameConfig)
  {
    if a.asname.Some?
    then a2.name == a.name && a2.asname.Some? && RenamedBinding(a.asname.value, a2.asname.value, nested, cfg)
    else a2 == Alias(a.name + " as " + a.name + "_" + cfg.uuid, None)
  }

  predicate RenamedAliases(aliases: seq<Alias>, aliases2: seq<Alias>, nested: bool, cfg: RenameConfig)
  {
    |aliases2| == |aliases| && forall i :: 0 <= i < |aliases| ==> RenamedAlias(aliases[i], aliases2[i], nested, cfg)
  }

  predicate RenamedStmt(s: Stmt, s2: Stmt, nested: bool, cfg: RenameConfig, rules: Rules)
    decreases s
  {
    match s
    case Assign(ts, v) =>
      s2.Assign? && RenamedExprs(ts, s2.targets, nested, cfg, rules) && RenamedExpr(v, s2.value, nested, cfg, rules)
    case AugAssign(t, v) =>
      s2.AugAssign? && RenamedExpr(t, s2.target, nested, cfg, rules) && RenamedExpr(v, s2.value, nested, cfg, rules)
    case AnnAssign(t, a, v) =>
      && s2.AnnAssign? && RenamedExpr(t, s2.target, nested, cfg, rules) && RenamedExpr(a, s2.annotation, nested, cfg, rules)
      && s2.init.Some? == v.Some? && (v.Some? ==> RenamedExpr(v.value, s2.init.value, nested, cfg, rules))
    case ExprStmt(v) => s2.ExprStmt? && RenamedExpr(v, s2.value, nested, cfg, rules)
    case FunctionDef(name, p, body, decs) =>
      && s2.FunctionDef? && RenamedBinding(name, s2.name, nested, cfg) && RenamedParams(p, s2.params, cfg, rules)
      && RenamedStmts(body, s2.body, true, cfg, rules) && RenamedExprs(decs, s2.decorators, true, cfg, rules)
    case ClassDef(name, bases, body) =>
      && s2.ClassDef? && RenamedBinding(name, s2.name, nested, cfg)
      && RenamedExprs(bases, s2.bases, true, cfg, rules) && RenamedStmts(body, s2.body, true, cfg, rules)
    case Try(body, hs, orelse) =>
      && s2.Try? && RenamedStmts(body, s2.body, nested, cfg, rules)
      && RenamedHandlers(hs, s2.handlers, cfg, rules) && RenamedStmts(orelse, s2.orelse, nested, cfg, rules)
    case Import(names) => s2.Import? && RenamedAliases(names, s2.names, nested, cfg)
    case Delete(ts) => s2.Delete? && RenamedExprs(ts, s2.targets, nested, cfg, rules)
    case Compound(es, body) =>
      s2.Compound? && RenamedExprs(es, s2.exprs, nested, cfg, rules) && RenamedStmts(body, s2.body, nested, cfg, rules)
  }

  predicate RenamedStmts(ss: seq<Stmt>, ss2: seq<Stmt>, nested: bool, cfg: RenameConfig, rules: Rules)
    decreases ss
  {
    |ss2| == |ss| && forall i :: 0 <= i < |ss| ==> RenamedStmt(ss[i], ss2[i], nested, cfg, rules)
  }

  /** The handler's own name is bound in the handler's scope, so it is never renamed. */
  predicate RenamedHandler(h: Handler, h2: Handler, cfg: RenameConfig, rules: Rules)
    decreases h
  {
    && h2.name == h.name
    && h2.typ.Some? == h.typ.Some? && (h.typ.Some? ==> RenamedExpr(h.typ.value, h2.typ.value, true, cfg, rules))
    && RenamedStmts(h.body, h2.body, true, cfg, rules)
  }

  predicate RenamedHandlers(hs: seq<Handler>, hs2: seq<Handler>, cfg: RenameConfig, rules: Rules)
    decreases hs
  {
    |hs2| == |hs| && forall i :: 0 <= i < |hs| ==> RenamedHandler(hs[i], hs2[i], cfg, rules)
  }

  // ---------------------------------------------------------------------
  // Recording mode

  /**
   * The cell a free name refers to: an entry of `cell_refs` takes priority
   * and must name exactly one cell; otherwise the dataflow link, if any.
   */
  function LinkFor(id: string, rec: RecordConfig): (r: Result<Option<string>>)
    ensures r.Failure? <==> rec.cellRefs.Some? && id in rec.cellRefs.value && |rec.cellRefs.value[id]| != 1
    ensures r.Failure? ==> r.error == AmbiguousCellRef
    ensures r == Success(None) <==> (rec.cellRefs.None? || id !in rec.cellRefs.value) && id !in rec.links
    ensures rec.cellRefs.Some? && id in rec.cellRefs.value && r.Success? ==> r.value == Some(rec.cellRefs.value[id][0])
    ensures (rec.cellRefs.None? || id !in rec.cellRefs.value) && id in rec.links ==> r.value == Some(rec.links[id])
  {
    if rec.cellRefs.Some? && id in rec.cellRefs.value then
      if |rec.cellRefs.value[id]| == 1 then Success(Some(rec.cellRefs.value[id][0]))
      else Failure(AmbiguousCellRef)
    else if id in rec.links then Success(Some(rec.links[id]))
    else Success(None)
  }

  /** Every explicit entry of `cell_refs` names exactly one cell. */
  predicate SingleCells(rec: RecordConfig)
  {
    rec.cellRefs.Some? ==> forall id :: id in rec.cellRefs.value ==> |rec.cellRefs.value[id]| == 1
  }

  /** The reference `_create_dataflow_ref` builds for a free name at `span`, if the name links to a cell. */
  function NameRef(id: string, span: Span, rec: RecordConfig): Result<Option<DataflowRef>>
  {
    match LinkFor(id, rec)
    case Failure(e) => Failure(e)
    case Success(None) => Success(None)
    case Success(Some(c)) =>
      var tag := if c in rec.inputTags then Some(rec.inputTags[c]) else None;
      Success(Some(DataflowRef(span.start, span.end, id, c, tag, IsAmbiguous(id, c, rec.outputTags))))
  }

  /**
   * `u` is what recording a free use of `u.name` at `u`'s span produces:
   * its cell is the name's link, its tag that cell's tag and its
   * ambiguity that of `is_ambiguous`.
   */
  predicate Recorded(u: DataflowRef, rec: RecordConfig)
  {
    NameRef(u.name, Span(u.startPos, u.endPos), rec) == Success(Some(u))
  }

  /** A recorded reference points at the linked cell, carries that cell's tag and is ambiguous as `is_ambiguous` says. */
  lemma RecordedMeans(u: DataflowRef, rec: RecordConfig)
    requires Recorded(u, rec)
    ensures LinkFor(u.name, rec) == Success(Some(u.cellId))
    ensures u.cellTag == (if u.cellId in rec.inputTags then Some(rec.inputTags[u.cellId]) else None)
    ensures !u.ambiguous <==> u.name in rec.outputTags && rec.outputTags[u.name] == [u.cellId]
  {
  }

  /** A load of a name that no scope binds, at its span. */
  datatype Use = Use(id: string, span: Span)

  /** The reference recording a free use produces: one when the name links to a cell, none otherwise. */
  function LinkOf(x: Use, rec: RecordConfig): seq<DataflowRef>
  {
    match NameRef(x.id, x.span, rec)
    case Success(Some(u)) => [u]
    case _ => []
  }

  /**
   * The references recording the free uses `xs` produces, in order: one per
   * use whose name links to a cell, each pointing at that cell.
   */
  function Linked(xs: seq<Use>, rec: RecordConfig): (r: seq<DataflowRef>)
    ensures |r| <= |xs|
    ensures forall u :: u in r ==> Recorded(u, rec)
    ensures forall u :: u in r ==> exists i :: 0 <= i < |xs| && u.name == xs[i].id
  {
    if xs == [] then []
    else
      var init := Linked(xs[..|xs| - 1], rec);
      assert forall u :: u in init ==> exists i :: 0 <= i < |xs| && u.name == xs[i].id by {
        forall u | u in init ensures exists i :: 0 <= i < |xs| && u.name == xs[i].id {
          var i :| 0 <= i < |xs| - 1 && u.name == xs[..|xs| - 1][i].id;
          assert xs[i] == xs[..|xs| - 1][i];
        }
      }
      init + LinkOf(xs[|xs| - 1], rec)
  }

  lemma {:induction false} LinkedAppend(xs: seq<Use>, ys: seq<Use>, rec: RecordConfig)
    ensures Linked(xs + ys, rec) == Linked(xs, rec) + Linked(ys, rec)
    decreases |ys|
  {
    if ys == [] {
      assert xs + ys == xs;
    } else {
      var init := ys[..|ys| - 1];
      assert (xs + ys)[..|xs + ys| - 1] == xs + init;
      LinkedAppend(xs, init, rec);
    }
  }

  /** Some free use names an entry of `cell_refs` that does not hold exactly one cell. */
  predicate Ambiguous(xs: seq<Use>, rec: RecordConfig)
  {
    exists i :: 0 <= i < |xs| && LinkFor(xs[i].id, rec).Failure?
  }

  lemma AmbiguousAppend(xs: seq<Use>, ys: seq<Use>, rec: RecordConfig)
    ensures Ambiguous(xs + ys, rec) <==> Ambiguous(xs, rec) || Ambiguous(ys, rec)
  {
    if Ambiguous(xs + ys, rec) {
      var i :| 0 <= i < |xs + ys| && LinkFor((xs + ys)[i].id, rec).Failure?;
      if i < |xs| {
        assert (xs + ys)[i] == xs[i];
      } else {
        assert (xs + ys)[i] == ys[i - |xs|];
      }
    }
    if Ambiguous(xs, rec) {
      var i :| 0 <= i < |xs| && LinkFor(xs[i].id, rec).Failure?;
      assert (xs + ys)[i] == xs[i];
    }
    if Ambiguous(ys, rec) {
      var i :| 0 <= i < |ys| && LinkFor(ys[i].id, rec).Failure?;
      assert (xs + ys)[|xs| + i] == ys[i];
    }
  }

  /** With every `cell_refs` entry naming one cell, no use is ambiguous, so `ground_refs` never fails. */
  lemma SingleCellsNeverAmbiguous(xs: seq<Use>, rec: RecordConfig)
    requires SingleCells(rec)
    ensures !Ambiguous(xs, rec)
  {
  }

  /**
   * A single free use: it fails the walk exactly when its `cell_refs` entry
   * is not a single cell, and otherwise is recorded exactly when it links.
   */
  lemma {:induction false} LinkedSingle(x: Use, rec: RecordConfig)
    ensures Ambiguous([x], rec) <==> LinkFor(x.id, rec).Failure?
    ensures Linked([x], rec) == (if LinkFor(x.id, rec).Success? && LinkFor(x.id, rec).value.Some? then
      [DataflowRef(x.span.start, x.span.end, x.id, LinkFor(x.id, rec).value.value,
        if LinkFor(x.id, rec).value.value in rec.inputTags then Some(rec.inputTags[LinkFor(x.id, rec).value.value]) else None,
        IsAmbiguous(x.id, LinkFor(x.id, rec).value.value, rec.outputTags))]
      else [])
  {
    assert [x][..0] == [];
    assert [x][0] == x;
  }

  // ---------------------------------------------------------------------
  // The scopes and the free uses of a walk

  /** `self.scope[-1].add(id)`. */
  function Bind(scope: seq<set<string>>, id: string): (r: seq<set<string>>)
    requires |scope| >= 1
    ensures |r| == |scope|
  {
    scope[|scope| - 1 := scope[|scope| - 1] + {id}]
  }

  /** `self.scope[-1].discard(id)`. */
  function Unbind(scope: seq<set<string>>, id: string): (r: seq<set<string>>)
    requires |scope| >= 1
    ensures |r| == |scope|
  {
    scope[|scope| - 1 := scope[|scope| - 1] - {id}]
  }

  /** The name an import binds: the alias if given, else the imported name. */
  function BoundName(a: Alias): string
  {
    if a.asname.Some? then a.asname.value else a.name
  }

  /** The scope after an import binds its names, one after the other. */
  function BindAliases(scope: seq<set<string>>, names: seq<Alias>): (r: seq<set<string>>)
    requires |scope| >= 1
    ensures |r| == |scope|
  {
    if names == [] then scope
    else Bind(BindAliases(scope, names[..|names| - 1]), BoundName(names[|names| - 1]))
  }

  /** An import adds exactly its bound names to the innermost scope and leaves the others alone. */
  lemma {:induction false} BindAliasesMeans(scope: seq<set<string>>, names: seq<Alias>)
    requires |scope| >= 1
    ensures var r := BindAliases(scope, names);
      && r[..|r| - 1] == scope[..|scope| - 1]
      && r[|r| - 1] == scope[|scope| - 1] + (set i | 0 <= i < |names| :: BoundName(names[i]))
  {
    if names != [] {
      var init := names[..|names| - 1];
      BindAliasesMeans(scope, init);
      assert forall i :: 0 <= i < |init| ==> init[i] == names[i];
      assert (set i | 0 <= i < |names| :: BoundName(names[i])) ==
        (set i | 0 <= i < |init| :: BoundName(init[i])) + {BoundName(names[|names| - 1])};
    }
  }

  /**
   * The free uses met while walking `e` from the scope stack `sc`, in visit
   * order, and the stack afterwards. Visit order: an assignment's value
   * before its targets, a named expression's value before its target,
   * comprehension clauses before the element; the rest in field order.
   */
  function LoadsExpr(e: Expr, sc: seq<set<string>>, rules: Rules): (r: (seq<Use>, seq<set<string>>))
    requires |sc| >= 1
    ensures |r.1| == |sc|
    decreases e
  {
    match e
    case Name(id, ctx, span) =>
      (match ctx
       case Store => ([], Bind(sc, id))
       case Del => ([], Unbind(sc, id))
       case Load => (if Bound(sc, id) then [] else [Use(id, span)], sc))
    case Str(_) => ([], sc)
    case Subscript(v, sl) =>
      var x := LoadsExpr(v, sc, rules);
      var y := LoadsExpr(sl, x.1, rules);
      (x.0 + y.0, y.1)
    case Call(f, args) =>
      var x := LoadsExpr(f, sc, rules);
      var y := LoadsExprs(args, x.1, rules);
      (x.0 + y.0, y.1)
    case Tuple(elts, _) => LoadsExprs(elts, sc, rules)
    case List(elts) => LoadsExprs(elts, sc, rules)
    case Other(cs) => LoadsExprs(cs, sc, rules)
    case Lambda(p, body) =>
      var x := LoadsExprs(p.defaults, sc + [ParamScope(p, rules)], rules);
      var y := LoadsExpr(body, x.1, rules);
      (x.0 + y.0, y.1[..|sc|])
    case Comp(gs, elt) =>
      var x := LoadsComps(gs, sc + [{}], rules);
      var y := LoadsExpr(elt, x.1, rules);
      (x.0 + y.0, y.1[..|sc|])
    case DictComp(gs, k, v) =>
      var x := LoadsComps(gs, sc + [{}], rules);
      var y := LoadsExpr(k, x.1, rules);
      var z := LoadsExpr(v, y.1, rules);
      (x.0 + y.0 + z.0, z.1[..|sc|])
    case NamedExpr(t, v) =>
      var x := LoadsExpr(v, sc, rules);
      var y := LoadsExpr(t, x.1, rules);
      (x.0 + y.0, y.1)
  }

  function LoadsExprs(es: seq<Expr>, sc: seq<set<string>>, rules: Rules): (r: (seq<Use>, seq<set<string>>))
    requires |sc| >= 1
    ensures |r.1| == |sc|
    decreases es
  {
    if es == [] then ([], sc)
    else
      var x := LoadsExprs(es[..|es| - 1], sc, rules);
      var y := LoadsExpr(es[|es| - 1], x.1, rules);
      (x.0 + y.0, y.1)
  }

  function LoadsOptExpr(o: Option<Expr>, sc: seq<set<string>>, rules: Rules): (r: (seq<Use>, seq<set<string>>))
    requires |sc| >= 1
    ensures |r.1| == |sc|
    decreases o
  {
    match o
    case None => ([], sc)
    case Some(e) => LoadsExpr(e, sc, rules)
  }

  /** The scope a handler pushes: its name, if it has one. */
  function HandlerScope(name: Option<string>): set<string>
  {
    if name.Some? then {name.value} else {}
  }

  function LoadsComp(g: Comprehension, sc: seq<set<string>>, rules: Rules): (r: (seq<Use>, seq<set<string>>))
    requires |sc| >= 1
    ensures |r.1| == |sc|
    decreases g
  {
    var x := LoadsExpr(g.target, sc, rules);
    var y := LoadsExpr(g.iter, x.1, rules);
    var z := LoadsExprs(g.ifs, y.1, rules);
    (x.0 + y.0 + z.0, z.1)
  }

  function LoadsComps(gs: seq<Comprehension>, sc: seq<set<string>>, rules: Rules): (r: (seq<Use>, seq<set<string>>))
    requires |sc| >= 1
    ensures |r.1| == |sc|
    decreases gs
  {
    if gs == [] then ([], sc)
    else
      var x := LoadsComps(gs[..|gs| - 1], sc, rules);
      var y := LoadsComp(gs[|gs| - 1], x.1, rules);
      (x.0 + y.0, y.1)
  }

  function LoadsStmt(s: Stmt, sc: seq<set<string>>, rules: Rules): (r: (seq<Use>, seq<set<string>>))
    requires |sc| >= 1
    ensures |r.1| == |sc|
    decreases s
  {
    match s
    case Assign(ts, v) =>
      var x := LoadsExpr(v, sc, rules);
      var y := LoadsExprs(ts, x.1, rules);
      (x.0 + y.0, y.1)
    case AugAssign(t, v) =>
      var x := LoadsExpr(v, sc, rules);
      var y := LoadsExpr(t, x.1, rules);
      (x.0 + y.0, y.1)
    case AnnAssign(t, an, init) =>
      var x := LoadsOptExpr(init, sc, rules);
      var y := LoadsExpr(an, x.1, rules);
      var z := LoadsExpr(t, y.1, rules);
      (x.0 + y.0 + z.0, z.1)
    case ExprStmt(v) => LoadsExpr(v, sc, rules)
    case FunctionDef(name, p, body, decs) =>
      var sc1 := Bind(sc, name);
      var x := LoadsExprs(p.defaults, sc1 + [ParamScope(p, rules)], rules);
      var y := LoadsStmts(body, x.1, rules);
      var z := LoadsExprs(decs, y.1, rules);
      (x.0 + y.0 + z.0, z.1[..|sc|])
    case ClassDef(name, bases, body) =>
      var sc1 := Bind(sc, name);
      var x := LoadsExprs(bases, sc1 + [{}], rules);
      var y := LoadsStmts(body, x.1, rules);
      (x.0 + y.0, y.1[..|sc|])
    case Try(body, hs, orelse) =>
      var x := LoadsStmts(body, sc, rules);
      var y := LoadsHandlers(hs, x.1, rules);
      var z := LoadsStmts(orelse, y.1, rules);
      (x.0 + y.0 + z.0, z.1)
    case Import(names) => ([], BindAliases(sc, names))
    case Delete(ts) => LoadsExprs(ts, sc, rules)
    case Compound(es, body) =>
      var x := LoadsExprs(es, sc, rules);
      var y := LoadsStmts(body, x.1, rules);
      (x.0 + y.0, y.1)
  }

  function LoadsStmts(ss: seq<Stmt>, sc: seq<set<string>>, rules: Rules): (r: (seq<Use>, seq<set<string>>))
    requires |sc| >= 1
    ensures |r.1| == |sc|
    decreases ss
  {
    if ss == [] then ([], sc)
    else
      var x := LoadsStmts(ss[..|ss| - 1], sc, rules);
      var y := LoadsStmt(ss[|ss| - 1], x.1, rules);
      (x.0 + y.0, y.1)
  }

  function LoadsHandler(h: Handler, sc: seq<set<string>>, rules: Rules): (r: (seq<Use>, seq<set<string>>))
    requires |sc| >= 1
    ensures |r.1| == |sc|
    decreases h
  {
    var x := LoadsOptExpr(h.typ, sc + [HandlerScope(h.name)], rules);
    var y := LoadsStmts(h.body, x.1, rules);
    (x.0 + y.0, y.1[..|sc|])
  }

  function LoadsHandlers(hs: seq<Handler>, sc: seq<set<string>>, rules: Rules): (r: (seq<Use>, seq<set<string>>))
    requires |sc| >= 1
    ensures |r.1| == |sc|
    decreases hs
  {
    if hs == [] then ([], sc)
    else
      var x := LoadsHandlers(hs[..|hs| - 1], sc, rules);
      var y := LoadsHandler(hs[|hs| - 1], x.1, rules);
      (x.0 + y.0, y.1)
  }

  /** The free uses in a cell's body, in the order `ground_refs` meets them. */
  function FreeUses(tree: seq<Stmt>, rules: Rules): seq<Use>
  {
    LoadsStmts(tree, [{}], rules).0
  }

  // ---------------------------------------------------------------------
  // The walk, as functions

  /**
   * What a walk carries from node to node: the stack of scopes (the cell's
   * own first), the references recorded, the cells the renamed code depends
   * on, and whether an ambiguous `cell_refs` entry was met (the source's
   * failed assertion).
   */
  datatype Acc = Acc(scope: seq<set<string>>, updates: seq<DataflowRef>, deps: set<string>, failed: bool)

  function Push(a: Acc, s: set<string>): (r: Acc)
    ensures |r.scope| == |a.scope| + 1
  {
    a.(scope := a.scope + [s])
  }

  function Pop(a: Acc): (r: Acc)
    requires |a.scope| >= 1
    ensures |r.scope| == |a.scope| - 1
  {
    a.(scope := a.scope[..|a.scope| - 1])
  }

  /**
   * A name at a binding position: added to the innermost scope and, when
   * renaming, printed as `update_identifier` says with the scope after.
   */
  function BindVisit(id: string, a: Acc, m: Mode): (r: (string, Acc))
    requires |a.scope| >= 1
    ensures |r.1.scope| == |a.scope|
  {
    var scope := Bind(a.scope, id);
    if m.Rename? then
      var u := UpdateIdentifier(id, scope, false, m.ren);
      (u.0, a.(scope := scope, deps := a.deps + DepSet(u.1)))
    else (id, a.(scope := scope))
  }

  /**
   * `visit_Name`. Recording: a load bound in no scope records the reference
   * its link gives, or fails on an ambiguous `cell_refs` entry. Renaming:
   * loads other than `Out` are printed as `update_identifier` says.
   */
  function NameVisit(e: Expr, a: Acc, m: Mode): (r: (Expr, Acc))
    requires e.Name? && |a.scope| >= 1
    ensures |r.1.scope| == |a.scope|
  {
    match e.ctx
    case Store =>
      var b := BindVisit(e.id, a, m);
      (e.(id := b.0), b.1)
    case Del => (e, a.(scope := Unbind(a.scope, e.id)))
    case Load =>
      if m.Rename? then
        if e.id == "Out" then (e, a)
        else
          var u := UpdateIdentifier(e.id, a.scope, false, m.ren);
          (e.(id := u.0), a.(deps := a.deps + DepSet(u.1)))
      else if Bound(a.scope, e.id) then (e, a)
      else
        match NameRef(e.id, e.span, m.rec)
        case Failure(_) => (e, a.(failed := true))
        case Success(None) => (e, a)
        case Success(Some(u)) => (e, a.(updates := a.updates + [u]))
  }

  /** One name of an import, as `process_import` treats it. */
  function AliasVisit(al: Alias, a: Acc, m: Mode): (r: (Alias, Acc))
    requires |a.scope| >= 1
    ensures |r.1.scope| == |a.scope|
  {
    if al.asname.Some? then
      var b := BindVisit(al.asname.value, a, m);
      (al.(asname := Some(b.0)), b.1)
    else
      var scope := Bind(a.scope, al.name);
      (if m.Rename? then al.(name := UpdateIdentifier(al.name, scope, true, m.ren).0) else al, a.(scope := scope))
  }

  function WalkAliases(names: seq<Alias>, a: Acc, m: Mode): (r: (seq<Alias>, Acc))
    requires |a.scope| >= 1
    ensures |r.1.scope| == |a.scope|
  {
    if names == [] then ([], a)
    else
      var x := WalkAliases(names[..|names| - 1], a, m);
      var y := AliasVisit(names[|names| - 1], x.1, m);
      (x.0 + [y.0], y.1)
  }

  /**
   * Visiting `e` with the walk in state `a`: the new node and the new state.
   * Every node kind is visited as in `LoadsExpr`; when renaming, a
   * subscript `Out["<s>"]` that `OutRewrite` matches reads `Out_<s>` and
   * records its cell.
   */
  function WalkExpr(e: Expr, a: Acc, m: Mode, rules: Rules): (r: (Expr, Acc))
    requires |a.scope| >= 1
    ensures |r.1.scope| == |a.scope|
    decreases e
  {
    match e
    case Name(_, _, _) => NameVisit(e, a, m)
    case Str(_) => (e, a)
    case Subscript(v, sl) =>
      var o := if m.Rename? then OutRewrite(e, m.ren, rules) else None;
      var x := if o.Some? then NameVisit(Name(o.value.0, Load, v.span), a.(deps := a.deps + {o.value.1}), m)
               else WalkExpr(v, a, m, rules);
      var y := WalkExpr(sl, x.1, m, rules);
      (Subscript(x.0, y.0), y.1)
    case Call(f, args) =>
      var x := WalkExpr(f, a, m, rules);
      var y := WalkExprs(args, x.1, m, rules);
      (Call(x.0, y.0), y.1)
    case Tuple(elts, ctx) =>
      var x := WalkExprs(elts, a, m, rules);
      (Tuple(x.0, ctx), x.1)
    case List(elts) =>
      var x := WalkExprs(elts, a, m, rules);
      (List(x.0), x.1)
    case Other(cs) =>
      var x := WalkExprs(cs, a, m, rules);
      (Other(x.0), x.1)
    case Lambda(p, body) =>
      var x := WalkExprs(p.defaults, Push(a, ParamScope(p, rules)), m, rules);
      var y := WalkExpr(body, x.1, m, rules);
      (Lambda(p.(defaults := x.0), y.0), Pop(y.1))
    case Comp(gs, elt) =>
      var x := WalkComps(gs, Push(a, {}), m, rules);
      var y := WalkExpr(elt, x.1, m, rules);
      (Comp(x.0, y.0), Pop(y.1))
    case DictComp(gs, k, v) =>
      var x := WalkComps(gs, Push(a, {}), m, rules);
      var y := WalkExpr(k, x.1, m, rules);
      var z := WalkExpr(v, y.1, m, rules);
      (DictComp(x.0, y.0, z.0), Pop(z.1))
    case NamedExpr(t, v) =>
      var x := WalkExpr(v, a, m, rules);
      var y := WalkExpr(t, x.1, m, rules);
      (NamedExpr(y.0, x.0), y.1)
  }

  function WalkExprs(es: seq<Expr>, a: Acc, m: Mode, rules: Rules): (r: (seq<Expr>, Acc))
    requires |a.scope| >= 1
    ensures |r.1.scope| == |a.scope|
    decreases es
  {
    if es == [] then ([], a)
    else
      var x := WalkExprs(es[..|es| - 1], a, m, rules);
      var y := WalkExpr(es[|es| - 1], x.1, m, rules);
      (x.0 + [y.0], y.1)
  }

  /** An optional part (an annotated assignment's value, a handler's type): visited when present. */
  function WalkOptExpr(o: Option<Expr>, a: Acc, m: Mode, rules: Rules): (r: (Option<Expr>, Acc))
    requires |a.scope| >= 1
    ensures |r.1.scope| == |a.scope|
    decreases o
  {
    match o
    case None => (None, a)
    case Some(e) =>
      var x := WalkExpr(e, a, m, rules);
      (Some(x.0), x.1)
  }

  function WalkComp(g: Comprehension, a: Acc, m: Mode, rules: Rules): (r: (Comprehension, Acc))
    requires |a.scope| >= 1
    ensures |r.1.scope| == |a.scope|
    decreases g
  {
    var x := WalkExpr(g.target, a, m, rules);
    var y := WalkExpr(g.iter, x.1, m, rules);
    var z := WalkExprs(g.ifs, y.1, m, rules);
    (Comprehension(x.0, y.0, z.0), z.1)
  }

  function WalkComps(gs: seq<Comprehension>, a: Acc, m: Mode, rules: Rules): (r: (seq<Comprehension>, Acc))
    requires |a.scope| >= 1
    ensures |r.1.scope| == |a.scope|
    decreases gs
  {
    if gs == [] then ([], a)
    else
      var x := WalkComps(gs[..|gs| - 1], a, m, rules);
      var y := WalkComp(gs[|gs| - 1], x.1, m, rules);
      (x.0 + [y.0], y.1)
  }

  function WalkStmt(s: Stmt, a: Acc, m: Mode, rules: Rules): (r: (Stmt, Acc))
    requires |a.scope| >= 1
    ensures |r.1.scope| == |a.scope|
    decreases s
  {
    match s
    case Assign(ts, v) =>
      var x := WalkExpr(v, a, m, rules);
      var y := WalkExprs(ts, x.1, m, rules);
      (Assign(y.0, x.0), y.1)
    case AugAssign(t, v) =>
      var x := WalkExpr(v, a, m, rules);
      var y := WalkExpr(t, x.1, m, rules);
      (AugAssign(y.0, x.0), y.1)
    case AnnAssign(t, an, init) =>
      var x := WalkOptExpr(init, a, m, rules);
      var y := WalkExpr(an, x.1, m, rules);
      var z := WalkExpr(t, y.1, m, rules);
      (AnnAssign(z.0, y.0, x.0), z.1)
    case ExprStmt(v) =>
      var x := WalkExpr(v, a, m, rules);
      (ExprStmt(x.0), x.1)
    case FunctionDef(name, p, body, decs) =>
      var b := BindVisit(name, a, m);
      var x := WalkExprs(p.defaults, Push(b.1, ParamScope(p, rules)), m, rules);
      var y := WalkStmts(body, x.1, m, rules);
      var z := WalkExprs(decs, y.1, m, rules);
      (FunctionDef(b.0, p.(defaults := x.0), y.0, z.0), Pop(z.1))
    case ClassDef(name, bases, body) =>
      var b := BindVisit(name, a, m);
      var x := WalkExprs(bases, Push(b.1, {}), m, rules);
      var y := WalkStmts(body, x.1, m, rules);
      (ClassDef(b.0, x.0, y.0), Pop(y.1))
    case Try(body, hs, orelse) =>
      var x := WalkStmts(body, a, m, rules);
      var y := WalkHandlers(hs, x.1, m, rules);
      var z := WalkStmts(orelse, y.1, m, rules);
      (Try(x.0, y.0, z.0), z.1)
    case Import(names) =>
      var x := WalkAliases(names, a, m);
      (Import(x.0), x.1)
    case Delete(ts) =>
      var x := WalkExprs(ts, a, m, rules);
      (Delete(x.0), x.1)
    case Compound(es, body) =>
      var x := WalkExprs(es, a, m, rules);
      var y := WalkStmts(body, x.1, m, rules);
      (Compound(x.0, y.0), y.1)
  }

  function WalkStmts(ss: seq<Stmt>, a: Acc, m: Mode, rules: Rules): (r: (seq<Stmt>, Acc))
    requires |a.scope| >= 1
    ensures |r.1.scope| == |a.scope|
    decreases ss
  {
    if ss == [] then ([], a)
    else
      var x := WalkStmts(ss[..|ss| - 1], a, m, rules);
      var y := WalkStmt(ss[|ss| - 1], x.1, m, rules);
      (x.0 + [y.0], y.1)
  }

  /** The handler's name is bound in its own scope; when renaming it keeps its text and records nothing. */
  function WalkHandler(h: Handler, a: Acc, m: Mode, rules: Rules): (r: (Handler, Acc))
    requires |a.scope| >= 1
    ensures |r.1.scope| == |a.scope|
    decreases h
  {
    var x := WalkOptExpr(h.typ, Push(a, HandlerScope(h.name)), m, rules);
    var y := WalkStmts(h.body, x.1, m, rules);
    (Handler(x.0, h.name, y.0), Pop(y.1))
  }

  function WalkHandlers(hs: seq<Handler>, a: Acc, m: Mode, rules: Rules): (r: (seq<Handler>, Acc))
    requires |a.scope| >= 1
    ensures |r.1.scope| == |a.scope|
    decreases hs
  {
    if hs == [] then ([], a)
    else
      var x := WalkHandlers(hs[..|hs| - 1], a, m, rules);
      var y := WalkHandler(hs[|hs| - 1], x.1, m, rules);
      (x.0 + [y.0], y.1)
  }

  /** A lambda's walk, one part after the other. */
  lemma WalkLambdaParts(e: Expr, a: Acc, m: Mode, rules: Rules)
    requires e.Lambda? && |a.scope| >= 1
    ensures var x := WalkExprs(e.params.defaults, Push(a, ParamScope(e.params, rules)), m, rules);
      var y := WalkExpr(e.body, x.1, m, rules);
      WalkExpr(e, a, m, rules) == (Lambda(e.params.(defaults := x.0), y.0), Pop(y.1))
  {
  }

  /** A comprehension's walk, one part after the other. */
  lemma WalkCompParts(e: Expr, a: Acc, m: Mode, rules: Rules)
    requires e.Comp? && |a.scope| >= 1
    ensures var x := WalkComps(e.generators, Push(a, {}), m, rules);
      var y := WalkExpr(e.elt, x.1, m, rules);
      WalkExpr(e, a, m, rules) == (Comp(x.0, y.0), Pop(y.1))
  {
  }

  /** A function definition's walk, one part after the other. */
  lemma WalkFunctionDefParts(s: Stmt, a: Acc, m: Mode, rules: Rules)
    requires s.FunctionDef? && |a.scope| >= 1
    ensures var b := BindVisit(s.name, a, m);
      var x := WalkExprs(s.params.defaults, Push(b.1, ParamScope(s.params, rules)), m, rules);
      var y := WalkStmts(s.body, x.1, m, rules);
      var z := WalkExprs(s.decorators, y.1, m, rules);
      WalkStmt(s, a, m, rules) == (FunctionDef(b.0, s.params.(defaults := x.0), y.0, z.0), Pop(z.1))
  {
  }

  /** A class definition's walk, one part after the other. */
  lemma WalkClassDefParts(s: Stmt, a: Acc, m: Mode, rules: Rules)
    requires s.ClassDef? && |a.scope| >= 1
    ensures var b := BindVisit(s.name, a, m);
      var x := WalkExprs(s.bases, Push(b.1, {}), m, rules);
      var y := WalkStmts(s.body, x.1, m, rules);
      WalkStmt(s, a, m, rules) == (ClassDef(b.0, x.0, y.0), Pop(y.1))
  {
  }

  /** A dict comprehension's walk, one part after the other. */
  lemma WalkDictCompParts(e: Expr, a: Acc, m: Mode, rules: Rules)
    requires e.DictComp? && |a.scope| >= 1
    ensures var x := WalkComps(e.generators, Push(a, {}), m, rules);
      var y := WalkExpr(e.key, x.1, m, rules);
      var z := WalkExpr(e.val, y.1, m, rules);
      WalkExpr(e, a, m, rules) == (DictComp(x.0, y.0, z.0), Pop(z.1))
  {
  }

  // ---------------------------------------------------------------------
  // The linker

  /**
   * The linker: a stack of scopes (the cell's own first), the references
   * recorded so far, the cells the renamed code depends on, and whether an
   * ambiguous `cell_refs` entry was met (the source's failed assertion).
   * Each visit changes the tree and these fields exactly as the matching
   * walk function says.
   */
  class Linker {
    const mode: Mode
    const rules: Rules
    var scope: seq<set<string>>
    var updates: seq<DataflowRef>
    var deps: set<string>
    var failed: bool

    ghost predicate Valid()
      reads this
    {
      |scope| >= 1
    }

    function State(): Acc
      reads this
    {
      Acc(scope, updates, deps, failed)
    }

    constructor(mode: Mode, rules: Rules)
      ensures Valid() && this.mode == mode && this.rules == rules
      ensures State() == Acc([{}], [], {}, false)
    {
      this.mode := mode;
      this.rules := rules;
      scope := [{}];
      updates := [];
      deps := {};
      failed := false;
    }

    /**
     * `visit_Name`. A store adds the name to the innermost scope, a delete
     * removes it. Recording: a load bound in no scope records the reference
     * its link gives. Renaming: stores and loads other than `Out` print as
     * `update_identifier` says, with the scope after the store.
     */
    method VisitName(e: Expr) returns (e2: Expr)
      requires Valid() && e.Name?
      modifies this
      ensures Valid() && (e2, State()) == NameVisit(e, old(State()), mode)
    {
      e2 := e;
      match e.ctx
      case Store =>
        scope := Bind(scope, e.id);
        if mode.Rename? {
          var (id2, dep) := UpdateIdentifier(e.id, scope, false, mode.ren);
          e2 := e.(id := id2);
          deps := deps + DepSet(dep);
        }
      case Del =>
        scope := Unbind(scope, e.id);
      case Load =>
        if mode.Rename? {
          if e.id != "Out" {
            var (id2, dep) := UpdateIdentifier(e.id, scope, false, mode.ren);
            e2 := e.(id := id2);
            deps := deps + DepSet(dep);
          }
        } else if !Bound(scope, e.id) {
          match NameRef(e.id, e.span, mode.rec)
          case Failure(_) =>
            failed := true;
          case Success(None) =>
          case Success(Some(u)) =>
            updates := updates + [u];
        }
    }

    /**
     * `visit_Subscript` when renaming: `Out["<s>"]` that passes the test
     * reads `Out_<s>` and depends on the matched cell; then both parts are
     * visited. Recording visits both parts.
     */
    method VisitSubscript(e: Expr) returns (e2: Expr)
      requires Valid() && e.Subscript?
      modifies this
      decreases e, 1
      ensures Valid() && (e2, State()) == WalkExpr(e, old(State()), mode, rules)
    {
      var value: Expr;
      var o := if mode.Rename? then OutRewrite(e, mode.ren, rules) else None;
      if o.Some? {
        deps := deps + {o.value.1};
        value := VisitName(Name(o.value.0, Load, e.value.span));
      } else {
        value := VisitExpr(e.value);
      }
      var slice := VisitExpr(e.slice);
      e2 := Subscript(value, slice);
    }

    /** `visit_Lambda`: the defaults and the body are visited in a scope holding the parameters. */
    method VisitLambda(e: Expr) returns (e2: Expr)
      requires Valid() && e.Lambda?
      modifies this
      decreases e, 1
      ensures Valid() && (e2, State()) == WalkExpr(e, old(State()), mode, rules)
    {
      scope := scope + [ParamScope(e.params, rules)];
      ghost var a1 := State();
      var defaults := VisitExprs(e.params.defaults);
      ghost var x := WalkExprs(e.params.defaults, a1, mode, rules);
      var body := VisitExpr(e.body);
      assert State() == WalkExpr(e.body, x.1, mode, rules).1;
      WalkLambdaParts(e, old(State()), mode, rules);
      scope := scope[..|scope| - 1];
      e2 := Lambda(e.params.(defaults := defaults), body);
    }

    /** `process_elt_comp`: generators, then the element, in a fresh scope. */
    method ProcessEltComp(e: Expr) returns (e2: Expr)
      requires Valid() && e.Comp?
      modifies this
      decreases e, 1
      ensures Valid() && (e2, State()) == WalkExpr(e, old(State()), mode, rules)
    {
      scope := scope + [{}];
      ghost var a1 := State();
      var gs := VisitComprehensions(e.generators);
      ghost var x := WalkComps(e.generators, a1, mode, rules);
      var elt := VisitExpr(e.elt);
      assert State() == WalkExpr(e.elt, x.1, mode, rules).1;
      WalkCompParts(e, old(State()), mode, rules);
      scope := scope[..|scope| - 1];
      e2 := Comp(gs, elt);
    }

    /** `visit_DictComp`: generators, then key, then value, in a fresh scope. */
    method VisitDictComp(e: Expr) returns (e2: Expr)
      requires Valid() && e.DictComp?
      modifies this
      decreases e, 1
      ensures Valid() && (e2, State()) == WalkExpr(e, old(State()), mode, rules)
    {
      scope := scope + [{}];
      ghost var a1 := State();
      var gs := VisitComprehensions(e.generators);
      ghost var x := WalkComps(e.generators, a1, mode, rules);
      var key := VisitExpr(e.key);
      ghost var y := WalkExpr(e.key, x.1, mode, rules);
      var val := VisitExpr(e.val);
      assert State() == WalkExpr(e.val, y.1, mode, rules).1;
      WalkDictCompParts(e, old(State()), mode, rules);
      scope := scope[..|scope| - 1];
      e2 := DictComp(gs, key, val);
    }

    /** Visits any expression; every kind without a rule of its own has its children visited in order. */
    method VisitExpr(e: Expr) returns (e2: Expr)
      requires Valid()
      modifies this
      decreases e, 2
      ensures Valid() && (e2, State()) == WalkExpr(e, old(State()), mode, rules)
    {
      match e
      case Name(_, _, _) =>
        e2 := VisitName(e);
      case Str(_) =>
        e2 := e;
      case Subscript(_, _) =>
        e2 := VisitSubscript(e);
      case Call(f, args) =>
        var f2 := VisitExpr(f);
        var args2 := VisitExprs(args);
        e2 := Call(f2, args2);
      case Tuple(elts, ctx) =>
        var elts2 := VisitExprs(elts);
        e2 := Tuple(elts2, ctx);
      case List(elts) =>
        var elts2 := VisitExprs(elts);
        e2 := List(elts2);
      case Other(cs) =>
        var cs2 := VisitExprs(cs);
        e2 := Other(cs2);
      case Lambda(_, _) =>
        e2 := VisitLambda(e);
      case Comp(_, _) =>
        e2 := ProcessEltComp(e);
      case DictComp(_, _, _) =>
        e2 := VisitDictComp(e);
      case NamedExpr(t, v) =>
        // `visit_NamedExpr`: the value before the target
        var v2 := VisitExpr(v);
        var t2 := VisitExpr(t);
        e2 := NamedExpr(t2, v2);
    }

    method VisitExprs(es: seq<Expr>) returns (es2: seq<Expr>)
      requires Valid()
      modifies this
      decreases es
      ensures Valid() && (es2, State()) == WalkExprs(es, old(State()), mode, rules)
    {
      es2 := [];
      var i := 0;
      while i < |es|
        invariant 0 <= i <= |es|
        invariant Valid() && (es2, State()) == WalkExprs(es[..i], old(State()), mode, rules)
      {
        assert es[..i + 1][..i] == es[..i];
        var x := VisitExpr(es[i]);
        es2 := es2 + [x];
        i := i + 1;
      }
      assert es[..i] == es;
    }

    /** A comprehension clause: target, iterable, then conditions. */
    method VisitComprehension(g: Comprehension) returns (g2: Comprehension)
      requires Valid()
      modifies this
      decreases g, 2
      ensures Valid() && (g2, State()) == WalkComp(g, old(State()), mode, rules)
    {
      var target := VisitExpr(g.target);
      var iter := VisitExpr(g.iter);
      var ifs := VisitExprs(g.ifs);
      g2 := Comprehension(target, iter, ifs);
    }

    method VisitComprehensions(gs: seq<Comprehension>) returns (gs2: seq<Comprehension>)
      requires Valid()
      modifies this
      decreases gs
      ensures Valid() && (gs2, State()) == WalkComps(gs, old(State()), mode, rules)
    {
      gs2 := [];
      var i := 0;
      while i < |gs|
        invariant 0 <= i <= |gs|
        invariant Valid() && (gs2, State()) == WalkComps(gs[..i], old(State()), mode, rules)
      {
        assert gs[..i + 1][..i] == gs[..i];
        var x := VisitComprehension(gs[i]);
        gs2 := gs2 + [x];
        i := i + 1;
      }
      assert gs[..i] == gs;
    }

    /** One name of an import: bound in the innermost scope and, when renaming, renamed. */
    method ProcessAlias(a: Alias) returns (a2: Alias)
      requires Valid()
      modifies this
      ensures Valid() && (a2, State()) == AliasVisit(a, old(State()), mode)
    {
      scope := Bind(scope, BoundName(a));
      a2 := a;
      if mode.Rename? {
        if a.asname.Some? {
          var (id2, dep) := UpdateIdentifier(a.asname.value, scope, false, mode.ren);
          a2 := a.(asname := Some(id2));
          deps := deps + DepSet(dep);
        } else {
          a2 := a.(name := UpdateIdentifier(a.name, scope, true, mode.ren).0);
        }
      }
    }

    /**
     * `process_import`: each imported name (or its alias) is bound in the
     * innermost scope; when renaming, an alias is renamed as a binding and an
     * import without alias becomes `name as name_<uuid>`.
     */
    method ProcessImport(st: Stmt) returns (st2: Stmt)
      requires Valid() && st.Import?
      modifies this
      ensures Valid() && (st2, State()) == WalkStmt(st, old(State()), mode, rules)
    {
      var names2 := ProcessAliases(st.names);
      st2 := Import(names2);
    }

    /** The loop of `process_import` over the imported names. */
    method ProcessAliases(names: seq<Alias>) returns (names2: seq<Alias>)
      requires Valid()
      modifies this
      ensures Valid() && (names2, State()) == WalkAliases(names, old(State()), mode)
    {
      names2 := [];
      var i := 0;
      while i < |names|
        invariant 0 <= i <= |names|
        invariant Valid() && (names2, State()) == WalkAliases(names[..i], old(State()), mode)
      {
        assert names[..i + 1][..i] == names[..i];
        var a2 := ProcessAlias(names[i]);
        names2 := names2 + [a2];
        i := i + 1;
      }
      assert names[..i] == names;
    }

    /**
     * The name of a function or class definition: bound in the innermost
     * scope and, when renaming, printed as `update_identifier` says.
     */
    method BindName(id: string) returns (id2: string)
      requires Valid()
      modifies this
      ensures Valid() && (id2, State()) == BindVisit(id, old(State()), mode)
    {
      scope := Bind(scope, id);
      id2 := id;
      if mode.Rename? {
        var (printed, dep) := UpdateIdentifier(id, scope, false, mode.ren);
        id2 := printed;
        deps := deps + DepSet(dep);
      }
    }

    /**
     * `visit_FunctionDef` (`process_function`): the function's name is bound
     * in the current scope, then defaults, body and decorators are visited
     * in a scope holding the parameters the rules name.
     */
    method VisitFunctionDef(st: Stmt) returns (st2: Stmt)
      requires Valid() && st.FunctionDef?
      modifies this
      decreases st, 1
      ensures Valid() && (st2, State()) == WalkStmt(st, old(State()), mode, rules)
    {
      var name := BindName(st.name);
      scope := scope + [ParamScope(st.params, rules)];
      ghost var a1 := State();
      var defaults := VisitExprs(st.params.defaults);
      ghost var x := WalkExprs(st.params.defaults, a1, mode, rules);
      var body := VisitStmts(st.body);
      ghost var y := WalkStmts(st.body, x.1, mode, rules);
      var decorators := VisitExprs(st.decorators);
      assert State() == WalkExprs(st.decorators, y.1, mode, rules).1;
      WalkFunctionDefParts(st, old(State()), mode, rules);
      scope := scope[..|scope| - 1];
      st2 := FunctionDef(name, st.params.(defaults := defaults), body, decorators);
    }

    /** `visit_ClassDef`: the class name is bound, then bases and body are visited in a fresh scope. */
    method VisitClassDef(st: Stmt) returns (st2: Stmt)
      requires Valid() && st.ClassDef?
      modifies this
      decreases st, 1
      ensures Valid() && (st2, State()) == WalkStmt(st, old(State()), mode, rules)
    {
      var name := BindName(st.name);
      scope := scope + [{}];
      ghost var a1 := State();
      var bases := VisitExprs(st.bases);
      ghost var x := WalkExprs(st.bases, a1, mode, rules);
      var body := VisitStmts(st.body);
      assert State() == WalkStmts(st.body, x.1, mode, rules).1;
      WalkClassDefParts(st, old(State()), mode, rules);
      scope := scope[..|scope| - 1];
      st2 := ClassDef(name, bases, body);
    }

    /**
     * `visit_ExceptHandler`: a fresh scope holding the handler's name, in
     * which the exception type and the body are visited.
     */
    method VisitExceptHandler(h: Handler) returns (h2: Handler)
      requires Valid()
      modifies this
      decreases h, 2
      ensures Valid() && (h2, State()) == WalkHandler(h, old(State()), mode, rules)
    {
      EnterHandler(h.name);
      ghost var a1 := State();
      var typ := h.typ;
      if h.typ.Some? {
        var t := VisitExpr(h.typ.value);
        typ := Some(t);
      }
      assert (typ, State()) == WalkOptExpr(h.typ, a1, mode, rules);
      var body := VisitStmts(h.body);
      scope := scope[..|scope| - 1];
      h2 := Handler(typ, h.name, body);
    }

    /**
     * The scope a handler pushes, holding its name; when renaming, the name
     * is bound in that inner scope, so it keeps its text and records nothing.
     */
    method EnterHandler(name: Option<string>)
      requires Valid()
      modifies this
      ensures Valid() && State() == Push(old(State()), HandlerScope(name))
    {
      scope := scope + [{}];
      if name.Some? {
        scope := scope[|scope| - 1 := {name.value}];
        if mode.Rename? {
          var (_, dep) := UpdateIdentifier(name.value, scope, false, mode.ren);
          assert InInnerScope(scope, name.value) by {
            assert name.value in scope[|scope| - 1];
          }
          deps := deps + DepSet(dep);
        }
      }
    }

    method VisitHandlers(hs: seq<Handler>) returns (hs2: seq<Handler>)
      requires Valid()
      modifies this
      decreases hs
      ensures Valid() && (hs2, State()) == WalkHandlers(hs, old(State()), mode, rules)
    {
      hs2 := [];
      var i := 0;
      while i < |hs|
        invariant 0 <= i <= |hs|
        invariant Valid() && (hs2, State()) == WalkHandlers(hs[..i], old(State()), mode, rules)
      {
        assert hs[..i + 1][..i] == hs[..i];
        var x := VisitExceptHandler(hs[i]);
        hs2 := hs2 + [x];
        i := i + 1;
      }
      assert hs[..i] == hs;
    }

    /** `visit_Assign`: the value is visited before the targets. */
    method VisitAssign(st: Stmt) returns (st2: Stmt)
      requires Valid() && st.Assign?
      modifies this
      decreases st, 1
      ensures Valid() && (st2, State()) == WalkStmt(st, old(State()), mode, rules)
    {
      var v := VisitExpr(st.value);
      var ts := VisitExprs(st.targets);
      st2 := Assign(ts, v);
    }

    /** `visit_AugAssign`: the value is visited before the target. */
    method VisitAugAssign(st: Stmt) returns (st2: Stmt)
      requires Valid() && st.AugAssign?
      modifies this
      decreases st, 1
      ensures Valid() && (st2, State()) == WalkStmt(st, old(State()), mode, rules)
    {
      var v := VisitExpr(st.value);
      var t := VisitExpr(st.target);
      st2 := AugAssign(t, v);
    }

    /** `visit_AnnAssign`: value, annotation, then target. */
    method VisitAnnAssign(st: Stmt) returns (st2: Stmt)
      requires Valid() && st.AnnAssign?
      modifies this
      decreases st, 1
      ensures Valid() && (st2, State()) == WalkStmt(st, old(State()), mode, rules)
    {
      var init := st.init;
      if st.init.Some? {
        var v := VisitExpr(st.init.value);
        init := Some(v);
      }
      var a := VisitExpr(st.annotation);
      var t := VisitExpr(st.target);
      st2 := AnnAssign(t, a, init);
    }

    /**
     * Visits a statement. Assignments visit the value before the targets
     * (`visit_Assign`, `visit_AugAssign`); an annotated assignment visits
     * value, annotation, target (`visit_AnnAssign`); every other kind visits
     * its parts in order.
     */
    method VisitStmt(st: Stmt) returns (st2: Stmt)
      requires Valid()
      modifies this
      decreases st, 2
      ensures Valid() && (st2, State()) == WalkStmt(st, old(State()), mode, rules)
    {
      match st
      case Assign(_, _) =>
        st2 := VisitAssign(st);
      case AugAssign(_, _) =>
        st2 := VisitAugAssign(st);
      case AnnAssign(_, _, _) =>
        st2 := VisitAnnAssign(st);
      case ExprStmt(value) =>
        var v := VisitExpr(value);
        st2 := ExprStmt(v);
      case FunctionDef(_, _, _, _) =>
        st2 := VisitFunctionDef(st);
      case ClassDef(_, _, _) =>
        st2 := VisitClassDef(st);
      case Try(body, handlers, orelse) =>
        var b := VisitStmts(body);
        var hs := VisitHandlers(handlers);
        var o := VisitStmts(orelse);
        st2 := Try(b, hs, o);
      case Import(_) =>
        st2 := ProcessImport(st);
      case Delete(targets) =>
        var ts := VisitExprs(targets);
        st2 := Delete(ts);
      case Compound(exprs, body) =>
        var es := VisitExprs(exprs);
        var b := VisitStmts(body);
        st2 := Compound(es, b);
    }

    method VisitStmts(ss: seq<Stmt>) returns (ss2: seq<Stmt>)
      requires Valid()
      modifies this
      decreases ss
      ensures Valid() && (ss2, State()) == WalkStmts(ss, old(State()), mode, rules)
    {
      ss2 := [];
      var i := 0;
      while i < |ss|
        invariant 0 <= i <= |ss|
        invariant Valid() && (ss2, State()) == WalkStmts(ss[..i], old(State()), mode, rules)
      {
        assert ss[..i + 1][..i] == ss[..i];
        var x := VisitStmt(ss[i]);
        ss2 := ss2 + [x];
        i := i + 1;
      }
      assert ss[..i] == ss;
    }
  }

  // ---------------------------------------------------------------------
  // What the recording walk computes

  /**
   * The state after recording the free uses `l.0` and ending with the scope
   * stack `l.1`: the links of those uses appended in order, failure once
   * one of them is ambiguous, and the dependencies untouched.
   */
  function Recording(a: Acc, l: (seq<Use>, seq<set<string>>), rec: RecordConfig): Acc
  {
    Acc(l.1, a.updates + Linked(l.0, rec), a.deps, a.failed || Ambiguous(l.0, rec))
  }

  lemma RecordingNothing(a: Acc, rec: RecordConfig)
    ensures Recording(a, ([], a.scope), rec) == a
  {
    assert a.updates + [] == a.updates;
  }

  lemma RecordingThen(a: Acc, l1: (seq<Use>, seq<set<string>>), l2: (seq<Use>, seq<set<string>>), rec: RecordConfig)
    ensures Recording(Recording(a, l1, rec), l2, rec) == Recording(a, (l1.0 + l2.0, l2.1), rec)
  {
    UpdatesThen(a.updates, l1.0, l2.0, rec);
    AmbiguousAppend(l1.0, l2.0, rec);
  }

  /** Recording two runs of uses one after the other appends the links of the joined run. */
  lemma UpdatesThen(us: seq<DataflowRef>, xs: seq<Use>, ys: seq<Use>, rec: RecordConfig)
    ensures us + Linked(xs, rec) + Linked(ys, rec) == us + Linked(xs + ys, rec)
  {
    LinkedAppend(xs, ys, rec);
    ConcatAssoc(us, Linked(xs, rec), Linked(ys, rec));
  }

  lemma ConcatAssoc<T>(s: seq<T>, t: seq<T>, u: seq<T>)
    ensures s + t + u == s + (t + u)
  {
  }

  lemma {:induction false} RecordNameVisit(e: Expr, a: Acc, rec: RecordConfig, rules: Rules)
    requires e.Name? && |a.scope| >= 1
    ensures NameVisit(e, a, Record(rec)) == (e, Recording(a, LoadsExpr(e, a.scope, rules), rec))
  {
    if e.ctx == Load && !Bound(a.scope, e.id) {
      LinkedSingle(Use(e.id, e.span), rec);
      assert a.updates + [] == a.updates;
    } else {
      RecordingNothing(a.(scope := LoadsExpr(e, a.scope, rules).1), rec);
    }
  }

  lemma RecordWalkAliases(names: seq<Alias>, a: Acc, rec: RecordConfig)
    requires |a.scope| >= 1
    ensures WalkAliases(names, a, Record(rec)) == (names, a.(scope := BindAliases(a.scope, names)))
  {
    if names != [] {
      var init, last := names[..|names| - 1], names[|names| - 1];
      RecordWalkAliases(init, a, rec);
      var x := WalkAliases(init, a, Record(rec));
      var y := AliasVisit(last, x.1, Record(rec));
      assert y == (last, x.1.(scope := Bind(x.1.scope, BoundName(last))));
      assert BindAliases(a.scope, names) == Bind(BindAliases(a.scope, init), BoundName(last));
      assert init + [last] == names;
    }
  }

  /**
   * Recording leaves every node as it is and ends in the state `Recording`
   * gives for the free uses and the scopes `LoadsExpr` computes: the
   * references are exactly the links of the free uses, in visit order, and
   * the walk fails exactly when one of them is ambiguous.
   */
  lemma {:induction false} RecordWalkExpr(e: Expr, a: Acc, rec: RecordConfig, rules: Rules)
    requires |a.scope| >= 1
    ensures WalkExpr(e, a, Record(rec), rules) == (e, Recording(a, LoadsExpr(e, a.scope, rules), rec))
    decreases e, 1
  {
    match e
    case Name(_, _, _) =>
      RecordNameVisit(e, a, rec, rules);
    case Str(_) =>
      RecordingNothing(a, rec);
    case Subscript(v, sl) =>
      RecordPair(e, v, sl, a, rec, rules);
    case Call(f, args) =>
      RecordCall(e, a, rec, rules);
    case Tuple(elts, _) =>
      RecordWalkExprs(elts, a, rec, rules);
    case List(elts) =>
      RecordWalkExprs(elts, a, rec, rules);
    case Other(cs) =>
      RecordWalkExprs(cs, a, rec, rules);
    case Lambda(p, body) =>
      RecordLambda(e, a, rec, rules);
    case Comp(gs, elt) =>
      RecordComp(e, a, rec, rules);
    case DictComp(gs, k, v) =>
      RecordDictComp(e, a, rec, rules);
    case NamedExpr(t, v) =>
      RecordPair(e, v, t, a, rec, rules);
  }

  /** A subscript (value, then slice) or a named expression (value, then target): two parts in turn. */
  lemma {:induction false} RecordPair(e: Expr, first: Expr, second: Expr, a: Acc, rec: RecordConfig, rules: Rules)
    requires |a.scope| >= 1
    requires (e.Subscript? && first == e.value && second == e.slice) || (e.NamedExpr? && first == e.value && second == e.target)
    ensures WalkExpr(e, a, Record(rec), rules) == (e, Recording(a, LoadsExpr(e, a.scope, rules), rec))
    decreases e, 0
  {
    RecordWalkExpr(first, a, rec, rules);
    var x := WalkExpr(first, a, Record(rec), rules);
    RecordWalkExpr(second, x.1, rec, rules);
    RecordingThen(a, LoadsExpr(first, a.scope, rules), LoadsExpr(second, x.1.scope, rules), rec);
  }

  lemma {:induction false} RecordCall(e: Expr, a: Acc, rec: RecordConfig, rules: Rules)
    requires |a.scope| >= 1 && e.Call?
    ensures WalkExpr(e, a, Record(rec), rules) == (e, Recording(a, LoadsExpr(e, a.scope, rules), rec))
    decreases e, 0
  {
    RecordWalkExpr(e.func, a, rec, rules);
    var x := WalkExpr(e.func, a, Record(rec), rules);
    RecordWalkExprs(e.args, x.1, rec, rules);
    RecordingThen(a, LoadsExpr(e.func, a.scope, rules), LoadsExprs(e.args, x.1.scope, rules), rec);
  }

  lemma {:induction false} RecordLambda(e: Expr, a: Acc, rec: RecordConfig, rules: Rules)
    requires |a.scope| >= 1 && e.Lambda?
    ensures WalkExpr(e, a, Record(rec), rules) == (e, Recording(a, LoadsExpr(e, a.scope, rules), rec))
    decreases e, 0
  {
    var a1 := Push(a, ParamScope(e.params, rules));
    RecordWalkExprs(e.params.defaults, a1, rec, rules);
    var x := WalkExprs(e.params.defaults, a1, Record(rec), rules);
    RecordWalkExpr(e.body, x.1, rec, rules);
    RecordingThen(a1, LoadsExprs(e.params.defaults, a1.scope, rules), LoadsExpr(e.body, x.1.scope, rules), rec);
  }

  lemma {:induction false} RecordComp(e: Expr, a: Acc, rec: RecordConfig, rules: Rules)
    requires |a.scope| >= 1 && e.Comp?
    ensures WalkExpr(e, a, Record(rec), rules) == (e, Recording(a, LoadsExpr(e, a.scope, rules), rec))
    decreases e, 0
  {
    var a1 := Push(a, {});
    RecordWalkComps(e.generators, a1, rec, rules);
    var x := WalkComps(e.generators, a1, Record(rec), rules);
    RecordWalkExpr(e.elt, x.1, rec, rules);
    RecordingThen(a1, LoadsComps(e.generators, a1.scope, rules), LoadsExpr(e.elt, x.1.scope, rules), rec);
  }

  lemma {:induction false} RecordDictComp(e: Expr, a: Acc, rec: RecordConfig, rules: Rules)
    requires |a.scope| >= 1 && e.DictComp?
    ensures WalkExpr(e, a, Record(rec), rules) == (e, Recording(a, LoadsExpr(e, a.scope, rules), rec))
    decreases e, 0
  {
    var m := Record(rec);
    var a1 := Push(a, {});
    RecordWalkComps(e.generators, a1, rec, rules);
    var x := WalkComps(e.generators, a1, m, rules);
    RecordWalkExpr(e.key, x.1, rec, rules);
    var y := WalkExpr(e.key, x.1, m, rules);
    RecordWalkExpr(e.val, y.1, rec, rules);
    var lx, ly, lz := LoadsComps(e.generators, a1.scope, rules), LoadsExpr(e.key, x.1.scope, rules), LoadsExpr(e.val, y.1.scope, rules);
    RecordingThen(a1, lx, ly, rec);
    RecordingThen(a1, (lx.0 + ly.0, ly.1), lz, rec);
  }

  lemma {:induction false} RecordWalkExprs(es: seq<Expr>, a: Acc, rec: RecordConfig, rules: Rules)
    requires |a.scope| >= 1
    ensures WalkExprs(es, a, Record(rec), rules) == (es, Recording(a, LoadsExprs(es, a.scope, rules), rec))
    decreases es
  {
    if es == [] {
      RecordingNothing(a, rec);
    } else {
      var init := es[..|es| - 1];
      RecordWalkExprs(init, a, rec, rules);
      var x := WalkExprs(init, a, Record(rec), rules);
      RecordWalkExpr(es[|es| - 1], x.1, rec, rules);
      RecordingThen(a, LoadsExprs(init, a.scope, rules), LoadsExpr(es[|es| - 1], x.1.scope, rules), rec);
      assert init + [es[|es| - 1]] == es;
    }
  }

  lemma {:induction false} RecordWalkComp(g: Comprehension, a: Acc, rec: RecordConfig, rules: Rules)
    requires |a.scope| >= 1
    ensures WalkComp(g, a, Record(rec), rules) == (g, Recording(a, LoadsComp(g, a.scope, rules), rec))
    decreases g
  {
    var m := Record(rec);
    RecordWalkExpr(g.target, a, rec, rules);
    var x := WalkExpr(g.target, a, m, rules);
    RecordWalkExpr(g.iter, x.1, rec, rules);
    var y := WalkExpr(g.iter, x.1, m, rules);
    RecordWalkExprs(g.ifs, y.1, rec, rules);
    var lx, ly, lz := LoadsExpr(g.target, a.scope, rules), LoadsExpr(g.iter, x.1.scope, rules), LoadsExprs(g.ifs, y.1.scope, rules);
    RecordingThen(a, lx, ly, rec);
    RecordingThen(a, (lx.0 + ly.0, ly.1), lz, rec);
  }

  lemma {:induction false} RecordWalkComps(gs: seq<Comprehension>, a: Acc, rec: RecordConfig, rules: Rules)
    requires |a.scope| >= 1
    ensures WalkComps(gs, a, Record(rec), rules) == (gs, Recording(a, LoadsComps(gs, a.scope, rules), rec))
    decreases gs
  {
    if gs == [] {
      RecordingNothing(a, rec);
    } else {
      var init := gs[..|gs| - 1];
      RecordWalkComps(init, a, rec, rules);
      var x := WalkComps(init, a, Record(rec), rules);
      RecordWalkComp(gs[|gs| - 1], x.1, rec, rules);
      RecordingThen(a, LoadsComps(init, a.scope, rules), LoadsComp(gs[|gs| - 1], x.1.scope, rules), rec);
      assert init + [gs[|gs| - 1]] == gs;
    }
  }

  lemma {:induction false} RecordWalkStmt(s: Stmt, a: Acc, rec: RecordConfig, rules: Rules)
    requires |a.scope| >= 1
    ensures WalkStmt(s, a, Record(rec), rules) == (s, Recording(a, LoadsStmt(s, a.scope, rules), rec))
    decreases s, 1
  {
    match s
    case Assign(_, _) =>
      RecordAssign(s, a, rec, rules);
    case AugAssign(_, _) =>
      RecordAugAssign(s, a, rec, rules);
    case AnnAssign(_, _, _) =>
      RecordAnnAssign(s, a, rec, rules);
    case ExprStmt(v) =>
      RecordWalkExpr(v, a, rec, rules);
    case FunctionDef(_, _, _, _) =>
      RecordFunctionDef(s, a, rec, rules);
    case ClassDef(_, _, _) =>
      RecordClassDef(s, a, rec, rules);
    case Try(_, _, _) =>
      RecordTry(s, a, rec, rules);
    case Import(names) =>
      RecordWalkAliases(names, a, rec);
      RecordingNothing(a.(scope := BindAliases(a.scope, names)), rec);
    case Delete(ts) =>
      RecordWalkExprs(ts, a, rec, rules);
    case Compound(_, _) =>
      RecordCompound(s, a, rec, rules);
  }

  lemma {:induction false} RecordAssign(s: Stmt, a: Acc, rec: RecordConfig, rules: Rules)
    requires s.Assign? && |a.scope| >= 1
    ensures WalkStmt(s, a, Record(rec), rules) == (s, Recording(a, LoadsStmt(s, a.scope, rules), rec))
    decreases s, 0
  {
    RecordWalkExpr(s.value, a, rec, rules);
    var x := WalkExpr(s.value, a, Record(rec), rules);
    RecordWalkExprs(s.targets, x.1, rec, rules);
    RecordingThen(a, LoadsExpr(s.value, a.scope, rules), LoadsExprs(s.targets, x.1.scope, rules), rec);
  }

  lemma {:induction false} RecordAugAssign(s: Stmt, a: Acc, rec: RecordConfig, rules: Rules)
    requires s.AugAssign? && |a.scope| >= 1
    ensures WalkStmt(s, a, Record(rec), rules) == (s, Recording(a, LoadsStmt(s, a.scope, rules), rec))
    decreases s, 0
  {
    RecordWalkExpr(s.value, a, rec, rules);
    var x := WalkExpr(s.value, a, Record(rec), rules);
    RecordWalkExpr(s.target, x.1, rec, rules);
    RecordingThen(a, LoadsExpr(s.value, a.scope, rules), LoadsExpr(s.target, x.1.scope, rules), rec);
  }

  lemma {:induction false} RecordClassDef(s: Stmt, a: Acc, rec: RecordConfig, rules: Rules)
    requires s.ClassDef? && |a.scope| >= 1
    ensures WalkStmt(s, a, Record(rec), rules) == (s, Recording(a, LoadsStmt(s, a.scope, rules), rec))
    decreases s, 0
  {
    var a1 := Push(a.(scope := Bind(a.scope, s.name)), {});
    RecordWalkExprs(s.bases, a1, rec, rules);
    var x := WalkExprs(s.bases, a1, Record(rec), rules);
    RecordWalkStmts(s.body, x.1, rec, rules);
    RecordingThen(a1, LoadsExprs(s.bases, a1.scope, rules), LoadsStmts(s.body, x.1.scope, rules), rec);
  }

  lemma {:induction false} RecordTry(s: Stmt, a: Acc, rec: RecordConfig, rules: Rules)
    requires s.Try? && |a.scope| >= 1
    ensures WalkStmt(s, a, Record(rec), rules) == (s, Recording(a, LoadsStmt(s, a.scope, rules), rec))
    decreases s, 0
  {
    var m := Record(rec);
    RecordWalkStmts(s.body, a, rec, rules);
    var x := WalkStmts(s.body, a, m, rules);
    RecordWalkHandlers(s.handlers, x.1, rec, rules);
    var y := WalkHandlers(s.handlers, x.1, m, rules);
    RecordWalkStmts(s.orelse, y.1, rec, rules);
    var lx, ly, lz := LoadsStmts(s.body, a.scope, rules), LoadsHandlers(s.handlers, x.1.scope, rules), LoadsStmts(s.orelse, y.1.scope, rules);
    RecordingThen(a, lx, ly, rec);
    RecordingThen(a, (lx.0 + ly.0, ly.1), lz, rec);
  }

  lemma {:induction false} RecordCompound(s: Stmt, a: Acc, rec: RecordConfig, rules: Rules)
    requires s.Compound? && |a.scope| >= 1
    ensures WalkStmt(s, a, Record(rec), rules) == (s, Recording(a, LoadsStmt(s, a.scope, rules), rec))
    decreases s, 0
  {
    RecordWalkExprs(s.exprs, a, rec, rules);
    var x := WalkExprs(s.exprs, a, Record(rec), rules);
    RecordWalkStmts(s.body, x.1, rec, rules);
    RecordingThen(a, LoadsExprs(s.exprs, a.scope, rules), LoadsStmts(s.body, x.1.scope, rules), rec);
  }

  lemma {:induction false} RecordWalkOptExpr(o: Option<Expr>, a: Acc, rec: RecordConfig, rules: Rules)
    requires |a.scope| >= 1
    ensures WalkOptExpr(o, a, Record(rec), rules) == (o, Recording(a, LoadsOptExpr(o, a.scope, rules), rec))
    decreases o
  {
    if o.Some? {
      RecordWalkExpr(o.value, a, rec, rules);
    } else {
      RecordingNothing(a, rec);
    }
  }

  lemma {:induction false} RecordAnnAssign(s: Stmt, a: Acc, rec: RecordConfig, rules: Rules)
    requires s.AnnAssign? && |a.scope| >= 1
    ensures WalkStmt(s, a, Record(rec), rules) == (s, Recording(a, LoadsStmt(s, a.scope, rules), rec))
    decreases s, 0
  {
    var m := Record(rec);
    RecordWalkOptExpr(s.init, a, rec, rules);
    var x := WalkOptExpr(s.init, a, m, rules);
    RecordWalkExpr(s.annotation, x.1, rec, rules);
    var y := WalkExpr(s.annotation, x.1, m, rules);
    RecordWalkExpr(s.target, y.1, rec, rules);
    var lx, ly, lz := LoadsOptExpr(s.init, a.scope, rules), LoadsExpr(s.annotation, x.1.scope, rules), LoadsExpr(s.target, y.1.scope, rules);
    RecordingThen(a, lx, ly, rec);
    RecordingThen(a, (lx.0 + ly.0, ly.1), lz, rec);
  }

  lemma {:induction false} RecordFunctionDef(s: Stmt, a: Acc, rec: RecordConfig, rules: Rules)
    requires s.FunctionDef? && |a.scope| >= 1
    ensures WalkStmt(s, a, Record(rec), rules) == (s, Recording(a, LoadsStmt(s, a.scope, rules), rec))
    decreases s, 0
  {
    var m := Record(rec);
    var a1 := Push(a.(scope := Bind(a.scope, s.name)), ParamScope(s.params, rules));
    RecordWalkExprs(s.params.defaults, a1, rec, rules);
    var x := WalkExprs(s.params.defaults, a1, m, rules);
    RecordWalkStmts(s.body, x.1, rec, rules);
    var y := WalkStmts(s.body, x.1, m, rules);
    RecordWalkExprs(s.decorators, y.1, rec, rules);
    var lx, ly, lz := LoadsExprs(s.params.defaults, a1.scope, rules), LoadsStmts(s.body, x.1.scope, rules), LoadsExprs(s.decorators, y.1.scope, rules);
    RecordingThen(a1, lx, ly, rec);
    RecordingThen(a1, (lx.0 + ly.0, ly.1), lz, rec);
  }

  lemma {:induction false} RecordWalkStmts(ss: seq<Stmt>, a: Acc, rec: RecordConfig, rules: Rules)
    requires |a.scope| >= 1
    ensures WalkStmts(ss, a, Record(rec), rules) == (ss, Recording(a, LoadsStmts(ss, a.scope, rules), rec))
    decreases ss
  {
    if ss == [] {
      RecordingNothing(a, rec);
    } else {
      var init := ss[..|ss| - 1];
      RecordWalkStmts(init, a, rec, rules);
      var x := WalkStmts(init, a, Record(rec), rules);
      RecordWalkStmt(ss[|ss| - 1], x.1, rec, rules);
      RecordingThen(a, LoadsStmts(init, a.scope, rules), LoadsStmt(ss[|ss| - 1], x.1.scope, rules), rec);
      assert init + [ss[|ss| - 1]] == ss;
    }
  }

  lemma {:induction false} RecordWalkHandler(h: Handler, a: Acc, rec: RecordConfig, rules: Rules)
    requires |a.scope| >= 1
    ensures WalkHandler(h, a, Record(rec), rules) == (h, Recording(a, LoadsHandler(h, a.scope, rules), rec))
    decreases h
  {
    var a1 := Push(a, HandlerScope(h.name));
    RecordWalkOptExpr(h.typ, a1, rec, rules);
    var x := WalkOptExpr(h.typ, a1, Record(rec), rules);
    RecordWalkStmts(h.body, x.1, rec, rules);
    RecordingThen(a1, LoadsOptExpr(h.typ, a1.scope, rules), LoadsStmts(h.body, x.1.scope, rules), rec);
  }

  lemma {:induction false} RecordWalkHandlers(hs: seq<Handler>, a: Acc, rec: RecordConfig, rules: Rules)
    requires |a.scope| >= 1
    ensures WalkHandlers(hs, a, Record(rec), rules) == (hs, Recording(a, LoadsHandlers(hs, a.scope, rules), rec))
    decreases hs
  {
    if hs == [] {
      RecordingNothing(a, rec);
    } else {
      var init, last := hs[..|hs| - 1], hs[|hs| - 1];
      assert init + [last] == hs;
      RecordWalkHandlers(init, a, rec, rules);
      var lx := LoadsHandlers(init, a.scope, rules);
      var b := Recording(a, lx, rec);
      assert WalkHandlers(init, a, Record(rec), rules) == (init, b);
      RecordWalkHandler(last, b, rec, rules);
      var ly := LoadsHandler(last, lx.1, rules);
      assert WalkHandler(last, b, Record(rec), rules) == (last, Recording(b, ly, rec));
      assert LoadsHandlers(hs, a.scope, rules) == (lx.0 + ly.0, ly.1);
      RecordingThen(a, lx, ly, rec);
    }
  }


  // ---------------------------------------------------------------------
  // What a renaming walk does

  /** A renaming walk records no reference, fails nothing, and only adds cell ids of the notebook to the dependencies. */
  predicate RenameOnly(a: Acc, b: Acc, cfg: RenameConfig)
  {
    && b.updates == a.updates && b.failed == a.failed
    && a.deps <= b.deps && b.deps <= a.deps + (set u | u in cfg.uuidsInNb)
  }

  lemma RenameBindVisit(id: string, a: Acc, cfg: RenameConfig)
    requires |a.scope| >= 1
    ensures var r := BindVisit(id, a, Rename(cfg));
      RenamedBinding(id, r.0, |a.scope| > 1, cfg) && RenameOnly(a, r.1, cfg)
  {
    BindingRenamed(id, Bind(a.scope, id), cfg);
  }

  lemma RenameNameVisit(e: Expr, a: Acc, cfg: RenameConfig, rules: Rules)
    requires e.Name? && |a.scope| >= 1
    ensures var r := NameVisit(e, a, Rename(cfg));
      RenamedExpr(e, r.0, |a.scope| > 1, cfg, rules) && RenameOnly(a, r.1, cfg)
  {
    if e.ctx == Store {
      RenameBindVisit(e.id, a, cfg);
    } else if e.ctx == Load && e.id != "Out" {
      UseRenamed(e.id, a.scope, cfg);
    }
  }

  lemma RenameAliasVisit(al: Alias, a: Acc, cfg: RenameConfig)
    requires |a.scope| >= 1
    ensures var r := AliasVisit(al, a, Rename(cfg));
      RenamedAlias(al, r.0, |a.scope| > 1, cfg) && RenameOnly(a, r.1, cfg)
  {
    if al.asname.Some? {
      RenameBindVisit(al.asname.value, a, cfg);
    }
  }

  lemma {:induction false} RenameWalkAliases(names: seq<Alias>, a: Acc, cfg: RenameConfig)
    requires |a.scope| >= 1
    ensures var r := WalkAliases(names, a, Rename(cfg));
      RenamedAliases(names, r.0, |a.scope| > 1, cfg) && RenameOnly(a, r.1, cfg)
  {
    if names != [] {
      var init := names[..|names| - 1];
      RenameWalkAliases(init, a, cfg);
      var x := WalkAliases(init, a, Rename(cfg));
      RenameAliasVisit(names[|names| - 1], x.1, cfg);
    }
  }

  lemma RenamedExprsSnoc(es: seq<Expr>, x: seq<Expr>, y: Expr, nested: bool, cfg: RenameConfig, rules: Rules)
    requires es != [] && RenamedExprs(es[..|es| - 1], x, nested, cfg, rules) && RenamedExpr(es[|es| - 1], y, nested, cfg, rules)
    ensures RenamedExprs(es, x + [y], nested, cfg, rules)
  {
    forall i | 0 <= i < |es| ensures RenamedExpr(es[i], (x + [y])[i], nested, cfg, rules) {
      if i < |es| - 1 {
        assert es[i] == es[..|es| - 1][i];
      }
    }
  }

  lemma {:induction false} RenameWalkExpr(e: Expr, a: Acc, cfg: RenameConfig, rules: Rules)
    requires |a.scope| >= 1
    ensures var r := WalkExpr(e, a, Rename(cfg), rules);
      RenamedExpr(e, r.0, |a.scope| > 1, cfg, rules) && RenameOnly(a, r.1, cfg)
    decreases e, 1
  {
    match e
    case Name(_, _, _) => RenameNameVisit(e, a, cfg, rules);
    case Str(_) =>
    case Subscript(_, _) => RenameSubscript(e, a, cfg, rules);
    case Call(_, _) => RenameCall(e, a, cfg, rules);
    case Tuple(elts, _) => RenameWalkExprs(elts, a, cfg, rules);
    case List(elts) => RenameWalkExprs(elts, a, cfg, rules);
    case Other(cs) => RenameWalkExprs(cs, a, cfg, rules);
    case Lambda(_, _) => RenameLambda(e, a, cfg, rules);
    case Comp(_, _) => RenameComp(e, a, cfg, rules);
    case DictComp(_, _, _) => RenameDictComp(e, a, cfg, rules);
    case NamedExpr(_, _) => RenameNamedExpr(e, a, cfg, rules);
  }

  /** `Out["<s>"]` matched by `OutRewrite` becomes the name `Out_<s>`, kept as it is since it contains a cell id. */
  lemma {:induction false} RenameSubscript(e: Expr, a: Acc, cfg: RenameConfig, rules: Rules)
    requires e.Subscript? && |a.scope| >= 1
    ensures var r := WalkExpr(e, a, Rename(cfg), rules);
      RenamedExpr(e, r.0, |a.scope| > 1, cfg, rules) && RenameOnly(a, r.1, cfg)
    decreases e, 0
  {
    var m := Rename(cfg);
    var o := OutRewrite(e, cfg, rules);
    var x: (Expr, Acc);
    if o.Some? {
      var n := Name(o.value.0, Load, e.value.span);
      ContainingNameKept(o.value.0, o.value.1, a.scope, cfg);
      assert |o.value.0| >= 4;
      x := NameVisit(n, a.(deps := a.deps + {o.value.1}), m);
      assert x.0 == n;
    } else {
      RenameWalkExpr(e.value, a, cfg, rules);
      x := WalkExpr(e.value, a, m, rules);
    }
    RenameWalkExpr(e.slice, x.1, cfg, rules);
  }

  lemma {:induction false} RenameCall(e: Expr, a: Acc, cfg: RenameConfig, rules: Rules)
    requires e.Call? && |a.scope| >= 1
    ensures var r := WalkExpr(e, a, Rename(cfg), rules);
      RenamedExpr(e, r.0, |a.scope| > 1, cfg, rules) && RenameOnly(a, r.1, cfg)
    decreases e, 0
  {
    RenameWalkExpr(e.func, a, cfg, rules);
    var x := WalkExpr(e.func, a, Rename(cfg), rules);
    RenameWalkExprs(e.args, x.1, cfg, rules);
  }

  lemma {:induction false} RenameNamedExpr(e: Expr, a: Acc, cfg: RenameConfig, rules: Rules)
    requires e.NamedExpr? && |a.scope| >= 1
    ensures var r := WalkExpr(e, a, Rename(cfg), rules);
      RenamedExpr(e, r.0, |a.scope| > 1, cfg, rules) && RenameOnly(a, r.1, cfg)
    decreases e, 0
  {
    RenameWalkExpr(e.value, a, cfg, rules);
    var x := WalkExpr(e.value, a, Rename(cfg), rules);
    RenameWalkExpr(e.target, x.1, cfg, rules);
  }

  lemma {:induction false} RenameLambda(e: Expr, a: Acc, cfg: RenameConfig, rules: Rules)
    requires e.Lambda? && |a.scope| >= 1
    ensures var r := WalkExpr(e, a, Rename(cfg), rules);
      RenamedExpr(e, r.0, |a.scope| > 1, cfg, rules) && RenameOnly(a, r.1, cfg)
    decreases e, 0
  {
    var a1 := Push(a, ParamScope(e.params, rules));
    RenameWalkExprs(e.params.defaults, a1, cfg, rules);
    var x := WalkExprs(e.params.defaults, a1, Rename(cfg), rules);
    RenameWalkExpr(e.body, x.1, cfg, rules);
  }

  lemma {:induction false} RenameComp(e: Expr, a: Acc, cfg: RenameConfig, rules: Rules)
    requires e.Comp? && |a.scope| >= 1
    ensures var r := WalkExpr(e, a, Rename(cfg), rules);
      RenamedExpr(e, r.0, |a.scope| > 1, cfg, rules) && RenameOnly(a, r.1, cfg)
    decreases e, 0
  {
    var a1 := Push(a, {});
    RenameWalkComps(e.generators, a1, cfg, rules);
    var x := WalkComps(e.generators, a1, Rename(cfg), rules);
    RenameWalkExpr(e.elt, x.1, cfg, rules);
  }

  lemma {:induction false} RenameDictComp(e: Expr, a: Acc, cfg: RenameConfig, rules: Rules)
    requires e.DictComp? && |a.scope| >= 1
    ensures var r := WalkExpr(e, a, Rename(cfg), rules);
      RenamedExpr(e, r.0, |a.scope| > 1, cfg, rules) && RenameOnly(a, r.1, cfg)
    decreases e, 0
  {
    var m := Rename(cfg);
    var a1 := Push(a, {});
    RenameWalkComps(e.generators, a1, cfg, rules);
    var x := WalkComps(e.generators, a1, m, rules);
    RenameWalkExpr(e.key, x.1, cfg, rules);
    var y := WalkExpr(e.key, x.1, m, rules);
    RenameWalkExpr(e.val, y.1, cfg, rules);
  }

  lemma {:induction false} RenameWalkExprs(es: seq<Expr>, a: Acc, cfg: RenameConfig, rules: Rules)
    requires |a.scope| >= 1
    ensures var r := WalkExprs(es, a, Rename(cfg), rules);
      RenamedExprs(es, r.0, |a.scope| > 1, cfg, rules) && RenameOnly(a, r.1, cfg)
    decreases es
  {
    if es != [] {
      var m := Rename(cfg);
      var init := es[..|es| - 1];
      RenameWalkExprs(init, a, cfg, rules);
      var x := WalkExprs(init, a, m, rules);
      RenameWalkExpr(es[|es| - 1], x.1, cfg, rules);
      var y := WalkExpr(es[|es| - 1], x.1, m, rules);
      RenamedExprsSnoc(es, x.0, y.0, |a.scope| > 1, cfg, rules);
    }
  }

  lemma {:induction false} RenameWalkOptExpr(o: Option<Expr>, a: Acc, cfg: RenameConfig, rules: Rules)
    requires |a.scope| >= 1
    ensures var r := WalkOptExpr(o, a, Rename(cfg), rules);
      && r.0.Some? == o.Some? && (o.Some? ==> RenamedExpr(o.value, r.0.value, |a.scope| > 1, cfg, rules))
      && RenameOnly(a, r.1, cfg)
    decreases o
  {
    if o.Some? {
      RenameWalkExpr(o.value, a, cfg, rules);
    }
  }

  /** Comprehensions are visited inside the scope they push. */
  lemma {:induction false} RenameWalkComp(g: Comprehension, a: Acc, cfg: RenameConfig, rules: Rules)
    requires |a.scope| >= 2
    ensures var r := WalkComp(g, a, Rename(cfg), rules);
      RenamedComp(g, r.0, cfg, rules) && RenameOnly(a, r.1, cfg)
    decreases g
  {
    var m := Rename(cfg);
    RenameWalkExpr(g.target, a, cfg, rules);
    var x := WalkExpr(g.target, a, m, rules);
    RenameWalkExpr(g.iter, x.1, cfg, rules);
    var y := WalkExpr(g.iter, x.1, m, rules);
    RenameWalkExprs(g.ifs, y.1, cfg, rules);
  }

  lemma {:induction false} RenameWalkComps(gs: seq<Comprehension>, a: Acc, cfg: RenameConfig, rules: Rules)
    requires |a.scope| >= 2
    ensures var r := WalkComps(gs, a, Rename(cfg), rules);
      RenamedComps(gs, r.0, cfg, rules) && RenameOnly(a, r.1, cfg)
    decreases gs
  {
    if gs != [] {
      var m := Rename(cfg);
      var init := gs[..|gs| - 1];
      RenameWalkComps(init, a, cfg, rules);
      var x := WalkComps(init, a, m, rules);
      RenameWalkComp(gs[|gs| - 1], x.1, cfg, rules);
      var y := WalkComp(gs[|gs| - 1], x.1, m, rules);
      forall i | 0 <= i < |gs| ensures RenamedComp(gs[i], (x.0 + [y.0])[i], cfg, rules) {
        if i < |gs| - 1 {
          assert gs[i] == init[i];
        }
      }
    }
  }

  lemma {:induction false} RenameWalkStmt(s: Stmt, a: Acc, cfg: RenameConfig, rules: Rules)
    requires |a.scope| >= 1
    ensures var r := WalkStmt(s, a, Rename(cfg), rules);
      RenamedStmt(s, r.0, |a.scope| > 1, cfg, rules) && RenameOnly(a, r.1, cfg)
    decreases s, 1
  {
    match s
    case Assign(_, _) => RenameAssign(s, a, cfg, rules);
    case AugAssign(_, _) => RenameAugAssign(s, a, cfg, rules);
    case AnnAssign(_, _, _) => RenameAnnAssign(s, a, cfg, rules);
    case ExprStmt(v) => RenameWalkExpr(v, a, cfg, rules);
    case FunctionDef(_, _, _, _) => RenameFunctionDef(s, a, cfg, rules);
    case ClassDef(_, _, _) => RenameClassDef(s, a, cfg, rules);
    case Try(_, _, _) => RenameTry(s, a, cfg, rules);
    case Import(names) => RenameWalkAliases(names, a, cfg);
    case Delete(ts) => RenameWalkExprs(ts, a, cfg, rules);
    case Compound(_, _) => RenameCompound(s, a, cfg, rules);
  }

  lemma {:induction false} RenameAssign(s: Stmt, a: Acc, cfg: RenameConfig, rules: Rules)
    requires s.Assign? && |a.scope| >= 1
    ensures var r := WalkStmt(s, a, Rename(cfg), rules);
      RenamedStmt(s, r.0, |a.scope| > 1, cfg, rules) && RenameOnly(a, r.1, cfg)
    decreases s, 0
  {
    RenameWalkExpr(s.value, a, cfg, rules);
    var x := WalkExpr(s.value, a, Rename(cfg), rules);
    RenameWalkExprs(s.targets, x.1, cfg, rules);
  }

  lemma {:induction false} RenameAugAssign(s: Stmt, a: Acc, cfg: RenameConfig, rules: Rules)
    requires s.AugAssign? && |a.scope| >= 1
    ensures var r := WalkStmt(s, a, Rename(cfg), rules);
      RenamedStmt(s, r.0, |a.scope| > 1, cfg, rules) && RenameOnly(a, r.1, cfg)
    decreases s, 0
  {
    RenameWalkExpr(s.value, a, cfg, rules);
    var x := WalkExpr(s.value, a, Rename(cfg), rules);
    RenameWalkExpr(s.target, x.1, cfg, rules);
  }

  lemma {:induction false} RenameAnnAssign(s: Stmt, a: Acc, cfg: RenameConfig, rules: Rules)
    requires s.AnnAssign? && |a.scope| >= 1
    ensures var r := WalkStmt(s, a, Rename(cfg), rules);
      RenamedStmt(s, r.0, |a.scope| > 1, cfg, rules) && RenameOnly(a, r.1, cfg)
    decreases s, 0
  {
    var m := Rename(cfg);
    RenameWalkOptExpr(s.init, a, cfg, rules);
    var x := WalkOptExpr(s.init, a, m, rules);
    RenameWalkExpr(s.annotation, x.1, cfg, rules);
    var y := WalkExpr(s.annotation, x.1, m, rules);
    RenameWalkExpr(s.target, y.1, cfg, rules);
  }

  lemma {:induction false} RenameFunctionDef(s: Stmt, a: Acc, cfg: RenameConfig, rules: Rules)
    requires s.FunctionDef? && |a.scope| >= 1
    ensures var r := WalkStmt(s, a, Rename(cfg), rules);
      RenamedStmt(s, r.0, |a.scope| > 1, cfg, rules) && RenameOnly(a, r.1, cfg)
    decreases s, 0
  {
    var m := Rename(cfg);
    RenameBindVisit(s.name, a, cfg);
    var b := BindVisit(s.name, a, m);
    var a1 := Push(b.1, ParamScope(s.params, rules));
    RenameWalkExprs(s.params.defaults, a1, cfg, rules);
    var x := WalkExprs(s.params.defaults, a1, m, rules);
    RenameWalkStmts(s.body, x.1, cfg, rules);
    var y := WalkStmts(s.body, x.1, m, rules);
    RenameWalkExprs(s.decorators, y.1, cfg, rules);
  }

  lemma {:induction false} RenameClassDef(s: Stmt, a: Acc, cfg: RenameConfig, rules: Rules)
    requires s.ClassDef? && |a.scope| >= 1
    ensures var r := WalkStmt(s, a, Rename(cfg), rules);
      RenamedStmt(s, r.0, |a.scope| > 1, cfg, rules) && RenameOnly(a, r.1, cfg)
    decreases s, 0
  {
    var m := Rename(cfg);
    RenameBindVisit(s.name, a, cfg);
    var b := BindVisit(s.name, a, m);
    var a1 := Push(b.1, {});
    RenameWalkExprs(s.bases, a1, cfg, rules);
    var x := WalkExprs(s.bases, a1, m, rules);
    RenameWalkStmts(s.body, x.1, cfg, rules);
  }

  lemma {:induction false} RenameTry(s: Stmt, a: Acc, cfg: RenameConfig, rules: Rules)
    requires s.Try? && |a.scope| >= 1
    ensures var r := WalkStmt(s, a, Rename(cfg), rules);
      RenamedStmt(s, r.0, |a.scope| > 1, cfg, rules) && RenameOnly(a, r.1, cfg)
    decreases s, 0
  {
    var m := Rename(cfg);
    RenameWalkStmts(s.body, a, cfg, rules);
    var x := WalkStmts(s.body, a, m, rules);
    RenameWalkHandlers(s.handlers, x.1, cfg, rules);
    var y := WalkHandlers(s.handlers, x.1, m, rules);
    RenameWalkStmts(s.orelse, y.1, cfg, rules);
  }

  lemma {:induction false} RenameCompound(s: Stmt, a: Acc, cfg: RenameConfig, rules: Rules)
    requires s.Compound? && |a.scope| >= 1
    ensures var r := WalkStmt(s, a, Rename(cfg), rules);
      RenamedStmt(s, r.0, |a.scope| > 1, cfg, rules) && RenameOnly(a, r.1, cfg)
    decreases s, 0
  {
    RenameWalkExprs(s.exprs, a, cfg, rules);
    var x := WalkExprs(s.exprs, a, Rename(cfg), rules);
    RenameWalkStmts(s.body, x.1, cfg, rules);
  }

  lemma {:induction false} RenameWalkStmts(ss: seq<Stmt>, a: Acc, cfg: RenameConfig, rules: Rules)
    requires |a.scope| >= 1
    ensures var r := WalkStmts(ss, a, Rename(cfg), rules);
      RenamedStmts(ss, r.0, |a.scope| > 1, cfg, rules) && RenameOnly(a, r.1, cfg)
    decreases ss
  {
    if ss != [] {
      var m := Rename(cfg);
      var init := ss[..|ss| - 1];
      RenameWalkStmts(init, a, cfg, rules);
      var x := WalkStmts(init, a, m, rules);
      RenameWalkStmt(ss[|ss| - 1], x.1, cfg, rules);
      var y := WalkStmt(ss[|ss| - 1], x.1, m, rules);
      forall i | 0 <= i < |ss| ensures RenamedStmt(ss[i], (x.0 + [y.0])[i], |a.scope| > 1, cfg, rules) {
        if i < |ss| - 1 {
          assert ss[i] == init[i];
        }
      }
    }
  }

  /** A handler is visited inside the scope it pushes. */
  lemma {:induction false} RenameWalkHandler(h: Handler, a: Acc, cfg: RenameConfig, rules: Rules)
    requires |a.scope| >= 1
    ensures var r := WalkHandler(h, a, Rename(cfg), rules);
      RenamedHandler(h, r.0, cfg, rules) && RenameOnly(a, r.1, cfg)
    decreases h
  {
    var m := Rename(cfg);
    var a1 := Push(a, HandlerScope(h.name));
    RenameWalkOptExpr(h.typ, a1, cfg, rules);
    var x := WalkOptExpr(h.typ, a1, m, rules);
    RenameWalkStmts(h.body, x.1, cfg, rules);
  }

  lemma {:induction false} RenameWalkHandlers(hs: seq<Handler>, a: Acc, cfg: RenameConfig, rules: Rules)
    requires |a.scope| >= 1
    ensures var r := WalkHandlers(hs, a, Rename(cfg), rules);
      RenamedHandlers(hs, r.0, cfg, rules) && RenameOnly(a, r.1, cfg)
    decreases hs
  {
    if hs != [] {
      var m := Rename(cfg);
      var init := hs[..|hs| - 1];
      RenameWalkHandlers(init, a, cfg, rules);
      var x := WalkHandlers(init, a, m, rules);
      RenameWalkHandler(hs[|hs| - 1], x.1, cfg, rules);
      var y := WalkHandler(hs[|hs| - 1], x.1, m, rules);
      forall i | 0 <= i < |hs| ensures RenamedHandler(hs[i], (x.0 + [y.0])[i], cfg, rules) {
        if i < |hs| - 1 {
          assert hs[i] == init[i];
        }
      }
    }
  }

  /**
   * `[x for x in xs]` at top level: the target and the element stay `x`,
   * which the comprehension's own scope binds, while `xs` is a top-level
   * use, kept or suffixed with `_<uuid>` as `update_identifier` says.
   */
  lemma CompElementKept(x: string, xs: string, sx: Span, sxs: Span, se: Span, cfg: RenameConfig, rules: Rules)
    requires x != xs && xs != "Out"
    ensures var e := Comp([Comprehension(Name(x, Store, sx), Name(xs, Load, sxs), [])], Name(x, Load, se));
      var xs2 := if Kept(xs, cfg) then xs else xs + "_" + cfg.uuid;
      WalkExpr(e, Acc([{}], [], {}, false), Rename(cfg), rules).0 ==
        Comp([Comprehension(Name(x, Store, sx), Name(xs2, Load, sxs), [])], Name(x, Load, se))
  {
    var g := Comprehension(Name(x, Store, sx), Name(xs, Load, sxs), []);
    var e := Comp([g], Name(x, Load, se));
    var m := Rename(cfg);
    var a0 := Acc([{}], [], {}, false);
    var a1 := Push(a0, {});
    WalkCompParts(e, a0, m, rules);
    assert [g][..0] == [];
    var sc := Bind(a1.scope, x);
    assert |sc| == 2 && sc[1] == {x};
    assert InInnerScope(sc, x);
    assert !InInnerScope(sc, xs);
    var t := WalkExpr(g.target, a1, m, rules);
    assert t == NameVisit(g.target, a1, m);
    assert t.0 == Name(x, Store, sx) && t.1.scope == sc;
    var it := WalkExpr(g.iter, t.1, m, rules);
    assert it == NameVisit(g.iter, t.1, m);
    assert it.0 == Name(if Kept(xs, cfg) then xs else xs + "_" + cfg.uuid, Load, sxs) && it.1.scope == sc;
    assert WalkExprs(g.ifs, it.1, m, rules) == ([], it.1);
    var c := WalkComp(g, a1, m, rules);
    assert c.0 == Comprehension(t.0, it.0, []) && c.1 == it.1;
    assert WalkComps([g][..0], a1, m, rules) == ([], a1);
    assert WalkComps([g], a1, m, rules) == ([] + [c.0], c.1);
    var y := WalkExpr(e.elt, c.1, m, rules);
    assert y == NameVisit(e.elt, c.1, m);
    assert y.0 == Name(x, Load, se);
  }

  // ---------------------------------------------------------------------
  // Entry points

  /**
   * The recording walk of `ground_refs` over a cell's parsed body: the
   * references are the links of the free uses, in the order met, and the
   * walk fails exactly when some free use names a `cell_refs` entry that
   * does not hold exactly one cell.
   */
  method RecordRefs(tree: seq<Stmt>, rec: RecordConfig, rules: Rules) returns (refs: seq<DataflowRef>, failed: bool)
    ensures refs == Linked(FreeUses(tree, rules), rec)
    ensures failed == Ambiguous(FreeUses(tree, rules), rec)
  {
    var linker := new Linker(Record(rec), rules);
    var _ := linker.VisitStmts(tree);
    RecordWalkStmts(tree, Acc([{}], [], {}, false), rec, rules);
    refs := linker.updates;
    failed := linker.failed;
  }

  /**
   * `ground_refs` on a cell whose parsed body is `tree`, with the scopes
   * `process_function` pushes as written: an ambiguous `cell_refs` entry in
   * use fails the call; otherwise the result is the text patched by
   * `run_replacer`, each reference replaced in place when the references
   * sit on their lines without overlapping.
   */
  method GroundRefs(s: string, tree: seq<Stmt>, f: Replacer, rec: RecordConfig) returns (r: Result<string>, refs: seq<DataflowRef>)
    ensures refs == Linked(FreeUses(tree, AsWritten), rec)
    ensures Ambiguous(FreeUses(tree, AsWritten), rec) ==> r == Failure(AmbiguousCellRef)
    ensures !Ambiguous(FreeUses(tree, AsWritten), rec) ==> r == RunReplacerSpec(s, refs, f)
    ensures !Ambiguous(FreeUses(tree, AsWritten), rec) && PatchesFor(refs, SplitLines(s)) && Disjoint(refs, |SplitLines(s)|) ==>
      r == Success(JoinLines(PatchedLines(SplitLines(s), refs, f)))
  {
    var failed;
    refs, failed := RecordRefs(tree, rec, AsWritten);
    if failed {
      return Failure(AmbiguousCellRef), refs;
    }
    r := RunReplacer(s, refs, f);
    if PatchesFor(refs, SplitLines(s)) && Disjoint(refs, |SplitLines(s)|) {
      RunReplacerSimultaneous(s, refs, f);
    }
  }

  /** `ground_refs` with every parameter of a function in its scope, `*args` and `**kwargs` included. */
  method GroundRefsCorrected(s: string, tree: seq<Stmt>, f: Replacer, rec: RecordConfig) returns (r: Result<string>, refs: seq<DataflowRef>)
    ensures refs == Linked(FreeUses(tree, Corrected), rec)
    ensures Ambiguous(FreeUses(tree, Corrected), rec) ==> r == Failure(AmbiguousCellRef)
    ensures !Ambiguous(FreeUses(tree, Corrected), rec) ==> r == RunReplacerSpec(s, refs, f)
    ensures !Ambiguous(FreeUses(tree, Corrected), rec) && PatchesFor(refs, SplitLines(s)) && Disjoint(refs, |SplitLines(s)|) ==>
      r == Success(JoinLines(PatchedLines(SplitLines(s), refs, f)))
  {
    var failed;
    refs, failed := RecordRefs(tree, rec, Corrected);
    if failed {
      return Failure(AmbiguousCellRef), refs;
    }
    r := RunReplacer(s, refs, f);
    if PatchesFor(refs, SplitLines(s)) && Disjoint(refs, |SplitLines(s)|) {
      RunReplacerSimultaneous(s, refs, f);
    }
  }

  /**
   * The renaming walk over a cell's parsed body: the new tree, renamed at
   * top level as `RenamedStmts` describes, and the cells it depends on,
   * every one a cell of the notebook.
   */
  function Renaming(tree: seq<Stmt>, cfg: RenameConfig, rules: Rules): (r: (seq<Stmt>, set<string>))
    ensures RenamedStmts(tree, r.0, false, cfg, rules)
    ensures forall d :: d in r.1 ==> d in cfg.uuidsInNb
  {
    RenameWalkStmts(tree, Acc([{}], [], {}, false), cfg, rules);
    var w := WalkStmts(tree, Acc([{}], [], {}, false), Rename(cfg), rules);
    (w.0, w.1.deps)
  }

  /** The renaming walk of `convert_output_tags`, with the source's own scopes and `Out[...]` test. */
  method ConvertOutputTags(tree: seq<Stmt>, cfg: RenameConfig) returns (tree2: seq<Stmt>, deps: set<string>)
    ensures (tree2, deps) == Renaming(tree, cfg, AsWritten)
  {
    var linker := new Linker(Rename(cfg), AsWritten);
    tree2 := linker.VisitStmts(tree);
    deps := linker.deps;
  }

  /** The renaming walk with every parameter in its function's scope and `Out["<s>"]` tested on `s`. */
  method ConvertOutputTagsCorrected(tree: seq<Stmt>, cfg: RenameConfig) returns (tree2: seq<Stmt>, deps: set<string>)
    ensures (tree2, deps) == Renaming(tree, cfg, Corrected)
  {
    var linker := new Linker(Rename(cfg), Corrected);
    tree2 := linker.VisitStmts(tree);
    deps := linker.deps;
  }

  // ---------------------------------------------------------------------
  // `*args` in a function's scope

  /** `def f(*v): v`, as a cell's parsed body. */
  function VarargCell(v: string, sp: Span): seq<Stmt>
  {
    [FunctionDef("f", Params([], [], Some(v), [], None, []), [ExprStmt(Name(v, Load, sp))], [])]
  }

  /**
   * As written, `*v` is missing from the function's scope, so the `v` in
   * its body is a free use, linked and replaced by `ground_refs` as if it
   * named another cell's output.
   */
  lemma VarargFreeAsWritten(v: string, sp: Span)
    requires v != "f"
    ensures FreeUses(VarargCell(v, sp), AsWritten) == [Use(v, sp)]
  {
    VarargUses(v, sp, AsWritten);
    var sc := [{"f"}, ParamScope(Params([], [], Some(v), [], None, []), AsWritten)];
    assert !Bound(sc, v) by {
      forall k | 0 <= k < |sc| ensures v !in sc[k] {}
    }
  }

  /** With the corrected scope the `v` in the body is bound by the parameter: the cell has no free use. */
  lemma VarargBoundCorrected(v: string, sp: Span)
    ensures FreeUses(VarargCell(v, sp), Corrected) == []
  {
    VarargUses(v, sp, Corrected);
    var p := Params([], [], Some(v), [], None, []);
    var sc := [{"f"}, ParamScope(p, Corrected)];
    assert v in sc[1];
  }

  /** The free uses of `VarargCell` are those of its body, under the function's scope. */
  lemma VarargUses(v: string, sp: Span, rules: Rules)
    ensures var sc := [{"f"}, ParamScope(Params([], [], Some(v), [], None, []), rules)];
      FreeUses(VarargCell(v, sp), rules) == (if Bound(sc, v) then [] else [Use(v, sp)])
  {
    var p := Params([], [], Some(v), [], None, []);
    var body := [ExprStmt(Name(v, Load, sp))];
    var fd := FunctionDef("f", p, body, []);
    var sc1 := Bind([{}], "f");
    assert sc1[0] == {"f"};
    assert sc1 == [{"f"}];
    var sc := sc1 + [ParamScope(p, rules)];
    assert sc == [{"f"}, ParamScope(p, rules)];
    var u := if Bound(sc, v) then [] else [Use(v, sp)];
    assert LoadsExpr(Name(v, Load, sp), sc, rules) == (u, sc);
    assert body[..0] == [];
    assert LoadsStmt(body[0], sc, rules) == (u, sc);
    assert LoadsStmts(body[..0], sc, rules) == ([], sc);
    assert [] + u == u;
    assert LoadsStmts(body, sc, rules) == (u, sc);
    assert LoadsExprs([], sc, rules) == ([], sc);
    assert LoadsStmt(fd, [{}], rules).0 == [] + u + [];
    assert [] + u + [] == u;
    assert VarargCell(v, sp)[..0] == [];
    assert LoadsStmts(VarargCell(v, sp), [{}], rules).0 == [] + LoadsStmt(fd, [{}], rules).0;
    assert FreeUses(VarargCell(v, sp), rules) == LoadsStmts(VarargCell(v, sp), [{}], rules).0;
  }
}
