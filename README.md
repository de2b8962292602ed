# dfnbutils conversion engine, modelled in Dafny

dfnbutils turns a dataflow notebook into a plain Jupyter notebook. A
dataflow notebook lets a cell refer to another cell's output by name,
as `name$cellid` or `name$tag`, and shows the cells in any order. The
conversion does five things:

- it prints each cross-cell reference back into the code (`refs.py`);
- it finds the `name$suffix` shorthand in a token stream (`convert_dollar`);
- it suffixes each cell's own top-level names with the cell id
  (`update_identifier` and the scope-stack linker);
- it captures each cell's final value in `Out_<cell>`
  (`transform_out_refs`, `transform_last_node`, `out_assign`);
- it splits the notebook into code and prose, rewrites every code cell,
  puts the cells in dependency order with their prose, and resets their
  ids (`convert_notebook`).

This project models that engine and proves what it does.

Modules, one per file:

- `Wrappers` (`wrappers.dfy`): `Option` and `Result`. A `Failure` stands
  for a Python exception; `convert_notebook` turns any exception into `''`.
- `Text` (`text.dfy`): the Python string operations the engine relies on:
  `splitlines`, `'\n'.join`, slicing, `in`, hexadecimal and decimal
  printing, `rjust`.
- `Refs` (`refs.dfy`): `DataflowRef.to_str`, the replacers, `is_ambiguous`,
  `run_replacer` (a loop over a list of lines) and `refs_to_dict`.
- `Dollar` (`dollar.dfy`): the token loop of `convert_dollar`, as a state
  machine over abstract tokens.
- `PyAst` (`pyast.dfy`): a small syntax tree. Names carry their
  Store/Load/Del context. There are functions, lambdas, classes, except
  handlers, comprehensions, imports, assignments, subscripts and tuples.
- `Linker` (`linker.dfy`): one `Linker` class holding the scope stack.
  - Recording mode is `DataflowLinker` in `ground_refs`.
  - Renaming mode is `DFconvertDataflowLinker` in `convert_output_tags`.
  - Each `visit_*` is a method that changes the scope stack and returns the
    rewritten node.
- `Capture` (`capture.dfy`): the `Out[...]` rewrites, `_replace_export_id`,
  the execution-count label, `transform_last_node` and `out_assign`.
- `ODicts` (`odict.dfy`): a Python dict with insertion order.
- `Cells` (`cells.dfy`): cells and outputs, the cell key, tag collection,
  and stripping transient execution counts.
- `Partition` (`partition.dfy`): the first loop of `convert_notebook`,
  which splits cells into code and prose and builds the prose blocks.
- `Assemble` (`assemble.dfy`): the second loop (rewriting the code cells,
  display of exports), the ordering loop, the kernel metadata step, the
  id reset, and the whole conversion of a `Notebook` (its cells and the
  key set of its metadata).

## Model

| member | source | states |
|---|---|---|
| Refs.ToStr | dfnbutils/refs.py:39-48 | the printed reference always begins with the reference's name |
| Refs.ToStrReadsBack | dfnbutils/refs.py:39-48 | reading the printed form back at its first `$` gives the name and exactly one qualifier: none when not persistent and not ambiguous, the tag when ambiguous, tagged and tags are wanted, the cell id otherwise |
| Refs.ToStrBareName | dfnbutils/refs.py:39-48 | persistent always gives `name$cell_id`; the bare name comes out exactly when not persistent and not ambiguous; `name$tag` when ambiguous, tagged and tags are wanted |
| Refs.ReplacerQualifiers | dfnbutils/refs.py:59-66 | `dollar_replacer` always qualifies with the cell id; only `dollar_disp_replacer` can print a tag |
| Refs.IsAmbiguous | dfnbutils/refs.py:85-88 | a name is unambiguous exactly when its output tags are the one cell id |
| Refs.LineIndex | dfnbutils/refs.py:74 | the Python index `line - 1` (0 wrapping to the last line) names an existing line or the lookup raises |
| Refs.SortByEndDesc | dfnbutils/refs.py:70 | the refs sorted by descending end position: a permutation of the input, and stable (the refs ending at each position keep their input order), as Python's `sorted` is |
| Refs.InsertByEndSorted | dfnbutils/refs.py:70 | the stable insertion step of the sort keeps the order descending |
| Refs.InsertByEndStable | dfnbutils/refs.py:70 | inserting one ref keeps the relative order of the refs ending at each position, the new one placed before the equal ones it follows in the reversed input |
| Refs.ApplyRef | dfnbutils/refs.py:72-76 | one replacement keeps the number of lines, and raises for a multi-line ref or a missing line |
| Refs.ApplyRefsFailsOnMultiLine | dfnbutils/refs.py:72-76 | a single ref whose start and end lines differ makes the edit loop raise, wherever it is in the list |
| Refs.RunReplacer | dfnbutils/refs.py:68-77 | the loop computes the specification: the lines edited in descending end order and joined with `\n`, or the exception |
| Refs.RunReplacerNoRefs | dfnbutils/refs.py:68-77 | with no refs the result is the input's lines joined: splitting it on `\n` gives the same lines; for `\n`-only text it is the input minus one trailing newline |
| Refs.RunReplacerRejectsMultiLine | dfnbutils/refs.py:72 | a ref whose start and end lines differ makes the call raise, whatever the other refs are |
| Refs.ApplyRefsPerLine | dfnbutils/refs.py:69-76 | every line of the result is its own line with only its own refs' edits applied, so other lines are unchanged |
| Refs.LineEditsSimultaneous | dfnbutils/refs.py:74-76 | edits of one line applied right to left one by one equal all of them applied at once to the original line |
| Refs.EditStep | dfnbutils/refs.py:74-76 | one edit of the rightmost remaining ref splits into the untouched prefix and the replaced tail, and both the one-by-one and the at-once readings continue on that prefix |
| Refs.RunReplacerSimultaneous | dfnbutils/refs.py:68-77 | for non-overlapping single-line refs, each line is its original text with its spans replaced at once, and a line with no ref is unchanged |
| Refs.SpansInOrderDisjoint | dfnbutils/refs.py:68-77 | refs found left to right never overlap, so the simultaneous reading applies |
| Refs.RefsToDict | dfnbutils/refs.py:79-83 | the keys are exactly the refs' names, and each name maps to exactly the set of cells its refs point to |
| Text.SplitJoinLines | dfnbutils/refs.py:77 | splitting a `\n`-join of `\n`-free lines gives the lines back |
| Text.SplitLinesHaveNoBreaks | dfnbutils/refs.py:69 | every line `splitlines` gives is free of line breaks |
| Text.SplitLinesNonEmpty | dfnbutils/refs.py:69 | `splitlines` gives no line exactly for the empty text |
| Text.JoinSplitLines | dfnbutils/refs.py:69-77 | joining the `splitlines` of `\n`-only text restores it, less one trailing newline |
| Text.PadLeftHex | dfnbutils/dfconvert/make_ipy.py:129 | zero-padding hexadecimal digits keeps them lower-case hex digits that denote the same number |
| Dollar.TagCells | dfnbutils/refs.py:234 | the inverted tag table has exactly the tags as keys; each tag maps to the cell of its last entry, as a dict comprehension keeps the last value |
| Dollar.TagCellsStep | dfnbutils/refs.py:234 | adding one more `(cell, tag)` entry keeps both facts: the tag is now a key and maps to that entry's cell |
| Dollar.TrimNumber | dfnbutils/refs.py:260-272 | drops trailing characters one by one and stops at the first place the loop condition fails (hex text, the token's start, or column 0); the end column drops by exactly the number of characters dropped and never passes the token's start |
| Dollar.TrimFrom | dfnbutils/refs.py:260-272 | the number of characters the trimming loop drops is between the ones already dropped and the token's end column |
| Dollar.TrimFromStops | dfnbutils/refs.py:260-272 | that number is the first count at which the loop condition fails |
| Dollar.EmitRef | dfnbutils/refs.py:277-300 | the token loop's turn for a token that closes the open ref: the ref is appended, resolved as `Resolve` says (a known tag gives that tag and its cell, any other suffix is the cell id), the scanner is reset and keeps the token only if it is a NAME; the result is exactly one `Step`, and the scanner invariant is kept |
| Dollar.ScanDollarSign | dfnbutils/refs.py:254-258 | the loop's turn for a `$`: exactly one `Step`, which emits nothing; a `$` opens a ref only where it begins exactly at the end of the remembered NAME; the scanner invariant is kept |
| Dollar.ScanAfterDollar | dfnbutils/refs.py:259-300 | the loop's turn for a token after an open ref: exactly one `Step`; an adjacent NUMBER or NAME extends the suffix and end, any other token closes and emits the ref; the scanner invariant is kept |
| Dollar.ScanToken | dfnbutils/refs.py:253-302 | one turn of the token loop is exactly one `Step` of the scanner, its emitted refs appended to the updates; the scanner invariant is kept |
| Dollar.Step | dfnbutils/refs.py:253-302 | one token emits at most one ref |
| Dollar.Scan | dfnbutils/refs.py:253-302 | the token loop as a fold of `Step`: at most one ref per token |
| Dollar.ScanSnoc | dfnbutils/refs.py:253-302 | scanning one more token is one more `Step` on the scanner state left by the shorter list |
| Dollar.ClosedScannerEmpty | dfnbutils/refs.py:253-302 | whenever no ref is open the suffix buffer is empty |
| Dollar.StepName | dfnbutils/refs.py:274-300 | a NAME that does not extend the open ref closes it, emits it, and is remembered as the last NAME |
| Dollar.OpenedAt | dfnbutils/refs.py:254-258 | a NAME followed by an adjacent `$` opens a ref that starts at the NAME and bears its text, after emitting whatever was open before |
| Dollar.ExtendStep | dfnbutils/refs.py:259-272 | each continuing token appends its text (a NUMBER trimmed) to the suffix and moves the end |
| Dollar.SuffixScan | dfnbutils/refs.py:253-302 | while the suffix continues, the scanner holds the ref opened at the NAME with the suffix read so far and emits nothing |
| Dollar.DollarRefEmitted | dfnbutils/refs.py:253-302 | every `name$suffix` in the tokens is emitted exactly once, right after the closing token, as `Resolve` of its start, end, name and suffix |
| Dollar.ResolveMeans | dfnbutils/refs.py:277-298 | a resolved ref has the given span and name; a known tag gives that tag and the tag's cell, any other suffix is the cell id with no tag; it is unambiguous exactly when the name's output tags are that one cell |
| Dollar.SimpleDollarRef | dfnbutils/refs.py:253-302 | `x$abc` followed by a newline yields exactly one ref, from column 0 to column 5, to cell `abc` |
| Dollar.OrderedStep | dfnbutils/refs.py:253-276 | a token that emits nothing keeps the emitted spans ordered and bounded |
| Dollar.OrderedEmit | dfnbutils/refs.py:285-298 | emitting the open ref keeps the emitted spans in order, left to right |
| Dollar.AppendEmitted | dfnbutils/refs.py:285 | appending an emitted ref keeps every update a proper one |
| Dollar.ScanDollar | dfnbutils/refs.py:253-302 | the loop computes `Scan`; every ref starts at a NAME followed by an adjacent `$` and bears that name; its tag and cell are resolved as the tag table says and its ambiguity is `is_ambiguous`; for well-formed, ordered tokens the spans come left to right without overlap |
| Dollar.ConvertDollar | dfnbutils/refs.py:233-305 | the refs are exactly those `Scan` emits with the inverted tag table; the result is `run_replacer` on them; for well-formed, ordered tokens whose refs lie on the text's lines, each line has its refs' spans replaced at once |
| Linker.FirstContained | dfnbutils/dfconvert/make_ipy.py:36-39 | the index of the first notebook cell id that occurs in the identifier, and no earlier id occurs in it |
| Linker.UpdateIdentifier | dfnbutils/dfconvert/make_ipy.py:23-45 | an unaliased import becomes `name as name_<uuid>`; a name bound in an inner scope is kept; otherwise the name is kept exactly when it contains a cell id, is `get_ipython` or a builtin, and else gets the `_<uuid>` suffix; the recorded dependency is the first cell id the name contains |
| Linker.UpdateIdentifierConsistent | dfnbutils/dfconvert/make_ipy.py:29-33 | at top level the printed name does not depend on the scope's contents, so a definition and a later use agree; a name bound in the innermost of several scopes is kept |
| Linker.FunctionScope | dfnbutils/dfconvert/make_ipy.py:83-86 | corrected: the pushed scope holds exactly the parameters, `*args` and `**kwargs` included |
| Linker.FunctionScopeAsWritten | dfnbutils/dfconvert/make_ipy.py:83-86 | as written: the pushed scope holds exactly `args`, `posonlyargs` and `kwonlyargs` |
| Linker.VarargRenamedAsWritten | dfnbutils/dfconvert/make_ipy.py:83-86 | as written, a use of a `*args` parameter inside its function is renamed to `args_<uuid>` |
| Linker.ParamsKept | dfnbutils/dfconvert/make_ipy.py:79-89 | with the corrected scope every parameter used in its function keeps its name and records no dependency |
| Linker.BindingRenamed | dfnbutils/dfconvert/make_ipy.py:49-51 | a store is added to the innermost scope before renaming, so it is never renamed inside a function, class, handler or comprehension; at top level it is renamed exactly when not kept |
| Linker.UseRenamed | dfnbutils/dfconvert/make_ipy.py:54-56 | a use is kept or suffixed with `_<uuid>`, as the renaming relation says |
| Linker.OutRefId | dfnbutils/dfconvert/make_ipy.py:59-66 | corrected: `Out["<s>"]` is recognised exactly when `<s>` starts with a notebook cell id |
| Linker.OutRefIdAsWritten | dfnbutils/dfconvert/make_ipy.py:59-66 | as written: the test compares the first 8 characters of `Out_<s>` with the cell ids |
| Linker.OutRefAsWrittenNeverFires | dfnbutils/dfconvert/make_ipy.py:64 | with hexadecimal cell ids the written test never holds; `Out["0123abcd"]` is left alone where the corrected test rewrites it |
| Linker.OutRewrite | dfnbutils/dfconvert/make_ipy.py:59-66 | a rewrite happens only for `Out["<s>"]`, exactly when the rules' test holds; the new name is `Out_<s>` and the recorded dependency is a notebook cell id that occurs in it |
| Linker.ContainingNameKept | dfnbutils/dfconvert/make_ipy.py:36-39 | a name that contains a notebook cell id is never renamed at top level, so the `Out_<s>` that replaces a subscript is not renamed again |
| Linker.LinkFor | dfnbutils/refs.py:109-116 | a `cell_refs` entry takes priority and raises unless it names exactly one cell; otherwise the dataflow link is used; with neither there is no reference |
| Linker.RecordedMeans | dfnbutils/refs.py:120-129 | a recorded ref points at the linked cell, carries that cell's input tag, and is ambiguous as `is_ambiguous` says |
| Linker.Linked | dfnbutils/refs.py:106-129 | recording a run of free uses gives at most one ref per use, each recorded as the link of one of the uses' names |
| Linker.LinkedAppend | dfnbutils/refs.py:99-129 | the refs of two runs of free uses are those of the first followed by those of the second: refs are appended in visit order |
| Linker.AmbiguousAppend | dfnbutils/refs.py:109-111 | two runs of free uses fail the assertion exactly when one of them does |
| Linker.LinkedSingle | dfnbutils/refs.py:106-129 | one free use fails the assertion exactly when its `cell_refs` entry is not a single cell; otherwise it records exactly the ref its link gives (span, name, cell, tag, ambiguity), or nothing when it has no link |
| Linker.SingleCellsNeverAmbiguous | dfnbutils/refs.py:109-111 | when every `cell_refs` entry names one cell, the assertion never fails |
| Linker.BindAliasesMeans | dfnbutils/refs.py:177-183 | an import adds exactly the alias, or else the name, of each imported module to the innermost scope and leaves the outer scopes alone |
| Linker.WalkExpr | dfnbutils/refs.py:99-225 | visiting an expression leaves the scope stack as deep as it was: every scope pushed is popped |
| Linker.WalkStmt | dfnbutils/refs.py:99-225 | the same for a statement |
| Linker.WalkStmts | dfnbutils/refs.py:99-225 | the same for a body of statements |
| Linker.Linker.constructor | dfnbutils/refs.py:94-97 | one empty scope, no refs, no dependencies |
| Linker.Linker.VisitName | dfnbutils/dfconvert/make_ipy.py:48-57 | the linker's state after the visit is exactly `NameVisit`: a store adds the name to the innermost scope and a delete removes it; recording a free load appends the ref its link gives (`visit_Name` of `ground_refs`); renaming prints stores and non-`Out` loads as `update_identifier` says and adds its dependency |
| Linker.Linker.VisitSubscript | dfnbutils/dfconvert/make_ipy.py:59-67 | the new node and state are exactly the walk's: `Out["<s>"]` is rewritten as `OutRewrite` says, recording its dependency; anything else is visited field by field |
| Linker.Linker.VisitLambda | dfnbutils/refs.py:167-168 | exactly the walk's result: the body is visited in a pushed scope of the parameters, which is popped again |
| Linker.Linker.ProcessEltComp | dfnbutils/refs.py:199-204 | exactly the walk's result: generators, then the element, in a pushed scope that is popped again |
| Linker.Linker.VisitDictComp | dfnbutils/refs.py:215-221 | exactly the walk's result: generators, key, then value, in a pushed scope that is popped again |
| Linker.Linker.VisitExpr | dfnbutils/refs.py:99-225 | the new expression and the linker's state are exactly `WalkExpr`; `RecordWalkExpr` and `RenameWalkExpr` say what that is in each mode |
| Linker.Linker.VisitExprs | dfnbutils/refs.py:99-225 | exactly `WalkExprs`: each expression in order |
| Linker.Linker.VisitComprehension | dfnbutils/refs.py:199-221 | exactly `WalkComp`: target, iterable, then conditions |
| Linker.Linker.VisitComprehensions | dfnbutils/refs.py:201-202 | exactly `WalkComps`: every generator, in order |
| Linker.Linker.ProcessAlias | dfnbutils/dfconvert/make_ipy.py:70-76 | exactly `AliasVisit`: the alias, or else the name, is bound in the innermost scope; an alias is renamed as a binding, an unaliased name becomes `name as name_<uuid>` |
| Linker.Linker.ProcessAliases | dfnbutils/dfconvert/make_ipy.py:70-76 | exactly `WalkAliases`: every imported name in order |
| Linker.Linker.BindName | dfnbutils/dfconvert/make_ipy.py:49-51 | exactly `BindVisit`: the name is added to the innermost scope before it is renamed as a binding |
| Linker.Linker.ProcessImport | dfnbutils/dfconvert/make_ipy.py:69-77 | exactly the walk of the import; `RecordWalkAliases` says recording binds exactly `BindAliases` and changes nothing else |
| Linker.Linker.VisitFunctionDef | dfnbutils/dfconvert/make_ipy.py:79-89 | exactly the walk's result: the name is bound and renamed in the current scope; the body is visited in a pushed scope of the parameters, which is popped again |
| Linker.Linker.VisitClassDef | dfnbutils/dfconvert/make_ipy.py:91-97 | exactly the walk's result: the class name is bound and renamed; the body is visited in a fresh scope, which is popped again |
| Linker.Linker.VisitExceptHandler | dfnbutils/dfconvert/make_ipy.py:99-106 | exactly `WalkHandler`: a fresh scope holding the handler's name, which is therefore never renamed, popped again |
| Linker.Linker.EnterHandler | dfnbutils/dfconvert/make_ipy.py:100-102 | pushes exactly one scope, holding the handler's name if it has one |
| Linker.Linker.VisitHandlers | dfnbutils/dfconvert/make_ipy.py:99-106 | exactly `WalkHandlers`: every handler of a `try`, in order |
| Linker.Linker.VisitAssign | dfnbutils/refs.py:132-135 | exactly the walk's result: the value is visited before the targets |
| Linker.Linker.VisitAugAssign | dfnbutils/refs.py:140-142 | exactly the walk's result: the value before the target |
| Linker.Linker.VisitAnnAssign | dfnbutils/refs.py:144-148 | exactly the walk's result: value, annotation, then target |
| Linker.Linker.VisitStmt | dfnbutils/refs.py:99-225 | the new statement and the linker's state are exactly `WalkStmt`; `RecordWalkStmt` and `RenameWalkStmt` say what that is in each mode |
| Linker.Linker.VisitStmts | dfnbutils/refs.py:99-225 | exactly `WalkStmts`: a body of statements in order |
| Linker.RecordNameVisit | dfnbutils/refs.py:99-118 | recording a name leaves it unchanged; its free load, if any, is linked, and a store or delete changes the innermost scope |
| Linker.RecordWalkAliases | dfnbutils/refs.py:177-183 | recording an import leaves it unchanged and binds exactly `BindAliases` |
| Linker.RecordWalkExpr | dfnbutils/refs.py:99-225 | recording an expression leaves it unchanged; the refs gained are the links of its free uses, in visit order, the walk fails exactly when one of them is ambiguous, and the scope stack ends as the free-use computation says |
| Linker.RecordWalkStmt | dfnbutils/refs.py:99-225 | the same for a statement |
| Linker.RecordWalkStmts | dfnbutils/refs.py:99-225 | the same for a body of statements |
| Linker.RecordWalkHandler | dfnbutils/refs.py:191-197 | the same for an except handler |
| Linker.RecordFunctionDef | dfnbutils/refs.py:150-162 | the same for a function definition, whose parameters are bound as the rules say |
| Linker.RenameNameVisit | dfnbutils/dfconvert/make_ipy.py:48-57 | renaming a name relates it to its result as the renaming relation says, and only adds notebook cell ids to the dependencies |
| Linker.RenameBindVisit | dfnbutils/dfconvert/make_ipy.py:49-51 | a renamed binding is related to its result by the binding relation, and only adds notebook cell ids to the dependencies |
| Linker.RenameAliasVisit | dfnbutils/dfconvert/make_ipy.py:70-76 | a renamed alias is related to its result by the alias relation |
| Linker.RenameSubscript | dfnbutils/dfconvert/make_ipy.py:59-67 | a renamed subscript is related to its result; it records no ref and only adds notebook cell ids |
| Linker.RenameWalkExpr | dfnbutils/dfconvert/make_ipy.py:22-112 | renaming an expression relates it to its result as the renaming relation says, records no ref, never fails, and only adds notebook cell ids to the dependencies |
| Linker.RenameWalkStmt | dfnbutils/dfconvert/make_ipy.py:22-112 | the same for a statement |
| Linker.RenameWalkStmts | dfnbutils/dfconvert/make_ipy.py:22-112 | the same for a body of statements |
| Linker.RenameWalkHandler | dfnbutils/dfconvert/make_ipy.py:99-106 | the same for an except handler |
| Linker.RenameFunctionDef | dfnbutils/dfconvert/make_ipy.py:79-89 | the same for a function definition |
| Linker.CompElementKept | dfnbutils/dfconvert/make_ipy.py:48-57 | in `[x for x in xs]` at top level the target and element stay `x`, bound in the comprehension's scope, while `xs` is kept or suffixed with `_<uuid>` as a top-level use |
| Linker.RecordRefs | dfnbutils/refs.py:227-229 | the linker's refs are exactly the links of the tree's free uses, and it fails exactly when one of them has an ambiguous `cell_refs` entry |
| Linker.GroundRefs | dfnbutils/refs.py:90-231 | as written: the refs are exactly the links of the free uses (with `*args` and `**kwargs` free inside their function); the call fails exactly when some used `cell_refs` entry is not a single cell; otherwise the result is `run_replacer` on the refs, with each ref replaced in place when they do not overlap |
| Linker.GroundRefsCorrected | dfnbutils/refs.py:90-231 | the same with every parameter bound in its function |
| Linker.VarargFreeAsWritten | dfnbutils/refs.py:153-155 | as written, a use of a `*args` parameter inside its function is a free use, so it is linked like an outer name |
| Linker.VarargBoundCorrected | dfnbutils/refs.py:153-155 | corrected, that use is bound and records nothing |
| Linker.Renaming | dfnbutils/dfconvert/make_ipy.py:108-112 | the renamed tree is related to the input at top level as the renaming relation says, and every dependency is a notebook cell id |
| Linker.ConvertOutputTags | dfnbutils/dfconvert/make_ipy.py:22-112 | as written: the result is exactly the renaming with the written `Out[...]` test and function scope |
| Linker.ConvertOutputTagsCorrected | dfnbutils/dfconvert/make_ipy.py:22-112 | the same with the corrected test and scope |
| Capture.MatchOut | dfnbutils/dfconvert/make_ipy.py:121 | a match of the `Out[...]` pattern begins `Out[` and yields `Out_` followed by 8 hex digits |
| Capture.OutRefRewritten | dfnbutils/dfconvert/make_ipy.py:121 | `Out[<id>]`, `Out["<id>"]` and `Out['<id>']` become `Out_<id>` for every 8-hex-digit id |
| Capture.PipeIsAQuoteOnlyNotebookWide | dfnbutils/dfconvert/convert.py:13-16 | the notebook-wide pattern also takes `\|` as a quote, so `Out[\|<id>\|]` becomes `Out_<id>`; the per-cell pattern does not match it |
| Capture.RewrittenLength | dfnbutils/dfconvert/make_ipy.py:119-124 | after `i` rewrites the text's length is the original length plus the sum of the length changes so far, which is the running offset |
| Capture.ResumeBefore | dfnbutils/dfconvert/make_ipy.py:119-124 | for ordered spans, the text copied before a span never runs past its start |
| Capture.TransformOutRefs | dfnbutils/dfconvert/make_ipy.py:114-125 | the loop with its running offset equals rewriting every original span at once; the length grows by the sum of the changes; the dependencies are exactly the rewritten texts minus their first four characters |
| Capture.DepsOfMeans | dfnbutils/dfconvert/make_ipy.py:123 | a string is recorded exactly when it is some rewritten text minus its first four characters |
| Capture.MatchExport | dfnbutils/dfconvert/convert.py:18-20 | a match of the export pattern begins with `[` |
| Capture.ExportIdReplaced | dfnbutils/dfconvert/convert.py:18-20 | `[<name>][<n>]` becomes `Out_<name>[<n>]` |
| Capture.ExportIdWithoutBracket | dfnbutils/dfconvert/convert.py:18-20 | a tag without `[` is unchanged |
| Capture.LabelOfCount | dfnbutils/dfconvert/make_ipy.py:128-129 | a non-negative execution count is labelled by lower-case hex digits that denote it, six of them below 16^6; a negative count's label starts with `x` |
| Capture.TransformLastNode | dfnbutils/dfconvert/make_ipy.py:127-150 | rewrites exactly a final tuple expression with a name element; the tuple is assigned to a tuple of targets, element by element; `Out_<label> = [...]` comes first exactly when some element is not a name |
| Capture.TupleTargetsDistinct | dfnbutils/dfconvert/make_ipy.py:136-142 | the target of a non-name element differs from every other element's target |
| Capture.OutAssign | dfnbutils/dfconvert/make_ipy.py:152-184 | a final bare call is left alone whatever the tags; the call raises exactly for a tagged empty body; a popped target comes only from a tagged final assignment; a rewritten final statement is an assignment whose last target is `Out_<label>` |
| Capture.OutAssignKeepsValue | dfnbutils/dfconvert/make_ipy.py:159-184 | a rewritten final statement assigns the same value: an expression to `Out_<label>`; an untagged assignment gains `Out_<label>` as one more target; a tagged one has its last target swapped for `Out_<label>`, and that target is returned |
| Cells.CellKey | dfnbutils/dfconvert/convert.py:44 | the key is the id up to its first `-` and holds no `-` |
| Cells.Stripped | dfnbutils/dfconvert/convert.py:65-66 | the execution count is removed exactly from outputs of the five transient types; all else is kept |
| Cells.TagsOf | dfnbutils/dfconvert/convert.py:61-63 | the collected tags are non-empty and each is the tag of some output |
| Cells.ValidTags | dfnbutils/dfconvert/convert.py:93 | the valid tags, empty ones included, are the collected tags once the empty ones are filtered out |
| Cells.FilterConcat | dfnbutils/dfconvert/convert.py:93 | filtering empty tags distributes over concatenation |
| Cells.StrippedCell | dfnbutils/dfconvert/convert.py:61-66 | only the outputs change, each one stripped |
| ODicts.Put | dfnbutils/dfconvert/convert.py:54-55 | assigning a present key keeps its place; a new key goes last |
| ODicts.Remove | dfnbutils/dfconvert/convert.py:49 | deleting a key removes it from the order and the map |
| ODicts.Values | dfnbutils/dfconvert/convert.py:157 | the values in key order |
| ODicts.ValuesPutNew | dfnbutils/dfconvert/convert.py:54 | adding a new key appends its value |
| Partition.Step | dfnbutils/dfconvert/convert.py:43-69 | one cell keeps the dictionaries consistent; the only possible exception is the `KeyError` of a repeated key |
| Partition.Partition | dfnbutils/dfconvert/convert.py:42-69 | a successful first pass leaves the dictionaries consistent: blocks, prose and runs share their keys, and every code key is a code cell's |
| Partition.NewBlock | dfnbutils/dfconvert/convert.py:53-55 | opening a block for a prose cell keeps the dictionaries consistent |
| Partition.StepCode | dfnbutils/dfconvert/convert.py:57-69 | recording a code cell keeps the dictionaries consistent |
| Partition.Absorb | dfnbutils/dfconvert/convert.py:48-51 | absorbing the latest block keeps the dictionaries consistent or raises `KeyError` |
| Partition.PartitionPrefixFails | dfnbutils/dfconvert/convert.py:42-69 | once a prefix of the cells raises, so does the whole loop |
| Partition.ScanOutputs | dfnbutils/dfconvert/convert.py:61-66 | the loop over outputs collects the tags in order and strips every output |
| Partition.PartitionCells | dfnbutils/dfconvert/convert.py:42-69 | the loop computes the specification of the first pass |
| Partition.PartitionStep | dfnbutils/dfconvert/convert.py:42-69 | one more cell is one more step |
| Partition.AddProse | dfnbutils/dfconvert/convert.py:46-55 | the loop body for a prose cell is the step |
| Partition.AddCode | dfnbutils/dfconvert/convert.py:57-69 | the loop body for a code cell is the step, and it never raises |
| Partition.PartitionShape | dfnbutils/dfconvert/convert.py:42-69 | for distinct non-empty keys the pass never raises; the blocks' groups hold every prose cell once and in order; every block but the last has code; only non-empty code cells are attached, each to at most one block |
| Partition.StepInv | dfnbutils/dfconvert/convert.py:43-69 | one step with a new key keeps that invariant |
| Partition.AbsorbProse | dfnbutils/dfconvert/convert.py:48-55 | absorbing a block moves its run and cell into the new block's run, keeping the prose in order |
| Partition.PrefixSucceeds | dfnbutils/dfconvert/convert.py:42-69 | with distinct keys, the pass over every prefix of the cells succeeds |
| Partition.LatestProse | dfnbutils/dfconvert/convert.py:53 | after a prose cell and only code cells, that prose cell is the latest block |
| Partition.CodeJoinsLatestProse | dfnbutils/dfconvert/convert.py:58-59 | a non-empty code cell is attached to the block of the last prose cell before it |
| Partition.AttachedFirst | dfnbutils/dfconvert/convert.py:58-59 | the same, right after that code cell is read |
| Partition.AttachedStays | dfnbutils/dfconvert/convert.py:42-69 | once attached, a code cell stays attached to its block through the rest of the pass |
| Partition.AttachedLater | dfnbutils/dfconvert/convert.py:42-69 | one more cell keeps an attachment |
| Partition.StepKeepsAttached | dfnbutils/dfconvert/convert.py:43-69 | a step for another cell keeps an attachment |
| Assemble.ExportItems | dfnbutils/dfconvert/convert.py:125-137 | there is an entry exactly when some tag is an external reference |
| Assemble.ExportedVariables | dfnbutils/dfconvert/convert.py:123-140 | the display is longer than 3 characters exactly when some tag is an external reference |
| Assemble.WithDisplay | dfnbutils/dfconvert/convert.py:143-146 | the code is kept as a prefix; it is unchanged exactly when there is no external tag and `Out_<uuid>` does not occur; with external tags the `display_variables` call lists their entries |
| Assemble.ExportOfIndexedTag | dfnbutils/dfconvert/convert.py:133-135 | a tag `[<name>][<n>]` that mentions the cell exports `Out_<name>[<n>]` under its own name |
| Assemble.CollectExportItems | dfnbutils/dfconvert/convert.py:126-137 | the loop collects exactly the entries |
| Assemble.ProcessCellMeans | dfnbutils/dfconvert/convert.py:73-148 | a code cell raises exactly when it has no persistent code or its rewrite raises; otherwise only its source changes, to the rewritten code followed by the display, and its refs are the rewrite's |
| Assemble.RecordedSucceeds | dfnbutils/dfconvert/convert.py:72-150 | processing succeeds exactly when every cell's processing does |
| Assemble.RecordedMeans | dfnbutils/dfconvert/convert.py:148-150 | every processed key gets its processed cell and its refs as downlinks |
| Assemble.RecordedKeeps | dfnbutils/dfconvert/convert.py:72-150 | the code cells keep their keys; only processed keys have downlinks; the other cells are unchanged |
| Assemble.RecordedFailsFrom | dfnbutils/dfconvert/convert.py:72-150 | once a cell fails, processing more does not change the failure |
| Assemble.ProcessOne | dfnbutils/dfconvert/convert.py:73-148 | the loop body computes the cell's outcome |
| Assemble.ProcessCells | dfnbutils/dfconvert/convert.py:72-150 | the loop computes the specification, in the order the code cells were met |
| Assemble.Reversed | dfnbutils/dfconvert/convert.py:159 | `reversed(order)` element by element |
| Assemble.CodeRunMeans | dfnbutils/dfconvert/convert.py:168 | the code cells come out exactly when every key has one, each in its key's place; otherwise `KeyError` |
| Assemble.FirstBlockIndex | dfnbutils/dfconvert/convert.py:161-167 | the first block in order that the code cell is attached to |
| Assemble.FindBlock | dfnbutils/dfconvert/convert.py:161-167 | the loop stops at that block |
| Assemble.Claimed | dfnbutils/dfconvert/convert.py:161-167 | the claimed block has the cell attached, and no block has when none is claimed |
| Assemble.TakeBlock | dfnbutils/dfconvert/convert.py:161-167 | the claimed block's run and cell are emitted and the block is deleted |
| Assemble.Reassemble | dfnbutils/dfconvert/convert.py:154-171 | the ordering loop computes the ordering as written, including line 171 |
| Assemble.InterleaveSucceeds | dfnbutils/dfconvert/convert.py:159-168 | interleaving succeeds exactly when every key of the order has a code cell |
| Assemble.InterleaveKeeps | dfnbutils/dfconvert/convert.py:159-171 | interleaving with the runs kept yields exactly the blocks' groups and the order's code cells, as multisets |
| Assemble.GroupsRemaining | dfnbutils/dfconvert/convert.py:161-167 | the groups are those of the blocks left plus the group emitted |
| Assemble.ProseOfPartition | dfnbutils/dfconvert/convert.py:42-69 | after the first pass both the prose dict's values and the blocks' groups are the prose cells in notebook order |
| Assemble.ReassembledMeans | dfnbutils/dfconvert/convert.py:152-171 | ordering raises exactly when a key has no code cell; otherwise the output is every prose cell plus the order's code cells in reverse; with `md_above`, prose first in notebook order, then the code cells |
| Assemble.LeftoverRunDropped | dfnbutils/dfconvert/convert.py:171 | two prose cells and no code: as written the interleaved output is only the second cell; corrected it is both, in order |
| Assemble.OneProseBlock | dfnbutils/dfconvert/convert.py:46-55 | two prose cells form a single block whose group is both cells |
| Assemble.ResetCell | dfnbutils/dfconvert/convert.py:184-191 | the cell gets the new id; a code cell loses metadata and execution count; a prose cell changes only its id |
| Assemble.ResetAll | dfnbutils/dfconvert/convert.py:183-193 | same length and order, the `i`-th cell reset with the `i`-th fresh id |
| Assemble.ResetIds | dfnbutils/dfconvert/convert.py:183-193 | the loop resets every cell |
| Assemble.StandardKernel | dfnbutils/dfconvert/convert.py:176-180 | with a `kernelspec`, the step raises `KeyError` exactly when `dfnotebook` or `enable_tags` is missing, and otherwise deletes exactly those two keys; without one the metadata is unchanged |
| Assemble.StandardizeKernel | dfnbutils/dfconvert/convert.py:176-180 | the two deletions compute that step |
| Assemble.ConvertedThen | dfnbutils/dfconvert/convert.py:152-197 | after the first pass and processing, both conversions are their ordering followed by the kernel step and the reset |
| Assemble.ConvertedAgrees | dfnbutils/dfconvert/convert.py:152-197 | with distinct keys the as-written and corrected conversions succeed together, and agree whenever prose is placed above |
| Assemble.ConvertNotebook | dfnbutils/dfconvert/convert.py:22-197 | computes the conversion as written: the first pass, processing, ordering, the kernel metadata step, prelude and reset; any exception fails the whole conversion |
| Assemble.Converted | dfnbutils/dfconvert/convert.py:22-197 | as written: a successful conversion passed the first pass and the kernel step, carries the standardised metadata, starts with the reset prelude cells, and gives cell `i` the id `newId(i)`; a failing kernel step fails it |
| Assemble.ConvertedCorrected | dfnbutils/dfconvert/convert.py:22-197 | the same for the conversion with the corrected ordering |
| Assemble.ConvertKeepsProse | dfnbutils/dfconvert/convert.py:22-197 | with the corrected ordering, every prose cell of a successful conversion comes out, changed only in its id |
| Assemble.ResetKeepsProse | dfnbutils/dfconvert/convert.py:190-191 | a prose cell among the reset cells comes out with a fresh id and nothing else changed |

## Left out

- Parsing and printing Python (`ast`, `ast_comments`, `asttokens`, `astor`)
  are not modelled. The visitors work on the abstract `PyAst` tree. The
  spans of `Out[...]` subscripts are a parameter of
  `Capture.TransformOutRefs`. `transform_last_node` and `out_assign`
  return statements, not printed source.
- Tokenizing (`tokenize.generate_tokens`) is not modelled: the token list
  is a parameter of `Dollar.ConvertDollar`.
- Per-cell code rewriting is a parameter (`CellRewrite`) of
  `Assemble.ConvertNotebook`. This is the IPython `TransformerManager`
  followed by `convert_dollar`, `convert_identifier`,
  `convert_output_tags`, `transform_out_refs`, `_transform_outrefs`,
  `transform_last_node` and `out_assign`. Those steps are modelled one by
  one above. Their chaining through printed source is not, because it
  needs the parser.
- `topological` is not part of this model. The dependency order is a
  function parameter.
- `display_variable_cell` is not part of this model. The prelude cells are
  a parameter.
- `uuid4` is a parameter: cell `i` gets id `newId(i)`. Whether the ids are
  unique is not modelled.
- `dataflow_state.has_external_link`/`get_external_link` are given as a map
  from names to cell ids (`RecordConfig.links`).
- `dir(builtins)` is a set parameter (`RenameConfig.builtins`).
- `out_mode`, which adds extra cells built from `astor` output, is not
  modelled. Only the default mode is.
- The kernel metadata is modelled by its key set only: the new
  `display_name` and `name` written into `kernelspec` are not modelled,
  while the two deletions and their `KeyError` are.
- A cell without an `id` makes `convert.py:44` raise `KeyError`. Cells
  here always carry an id, so that failure is not modelled.
- Linker.GroundRefs: `col_offset` and `end_col_offset` are UTF-8 byte
  offsets (`refs.py:121-123`) while `run_replacer` slices characters
  (`refs.py:74-76`). The model takes the columns as character offsets, so
  it agrees with the source only on ASCII lines.
- Capture.TransformOutRefs: the spans must be disjoint and in text order
  (`RangesInOrder`). The source takes them in the depth-first order of
  the `asttokens` walk, which is text order for the disjoint `Out[...]`
  subscripts it finds, but that is not modelled. Python's clamping of
  out-of-range slice bounds is not modelled either: spans lie inside the
  text.
- `PyAst`: parameters carry no annotations and functions no return
  annotation, and `try` has no `finally` body (`pyast.dfy`). The source's
  `generic_visit` walks these too, the annotations inside the pushed
  scope. Keyword-only defaults (`kw_defaults`) are folded into the
  defaults; all defaults are visited inside the pushed scope, after the
  parameters, as `generic_visit` does in the source.
- The JSON encoding in `strstr`/`fromstrstr`, `identifier_replacer` and
  `convert_identifier` is not modelled. It is serialisation around the
  same `run_replacer`, which is modelled.
- `make_ipy.py` imports a `DataflowLinker` and an `underscore_replacer`
  that `refs.py` does not define at module level. `convert.py` calls
  `convert_identifier` with three arguments where it takes two. Each
  function is modelled as written in its own file, not through this glue.
- The module-global `ref_uuids` is not modelled as a global. It is the
  `deps` field of the linker and an explicit result of
  `Capture.TransformOutRefs`.
- `ast.Index`/`ast.Str` in `visit_Subscript` are taken as "the slice is a
  string constant", whatever the Python version.
- Any exception `convert_notebook` catches is a `Failure`. The `''` it
  returns is not modelled as a string.
- `downlinks` entries are sets. The source makes lists of a set, in an
  order Python does not fix.
- Cells are values, so the aliasing of the source's dicts is not modelled.
  For example, `code_cells_ref` holds the same cell dict the notebook holds.
  The first pass's in-place `del` of an output's execution count is
  modelled as the stripped copy it produces.
- A `$` reference still open when the tokens run out is not emitted, as in
  the source. Callers must end the token list with a token that closes it.
- Dollar.ScanDollar: the ordering of spans is stated only for
  well-formed, ordered token streams. The tokenizer provides such streams,
  but that is not modelled.

## Findings

| source | as written | input that shows it | evidently intended | confidence | as-written member | corrected member |
|---|---|---|---|---|---|---|
| dfnbutils/dfconvert/make_ipy.py:64 | the test takes the first 8 characters of `'Out_' + s`, i.e. `Out_` and four characters of `s`, and compares them with the cell ids | `Out["0123abcd"]` in a notebook with a cell `0123abcd`: not rewritten and no dependency recorded | test `s[:8]`, the subscript's own cell id; the rewritten name is then `Out_<s>` as line 66 builds it (whether the author meant a different name there is not evident) | not executed | Linker.OutRefIdAsWritten, Linker.OutRefAsWrittenNeverFires, Linker.ConvertOutputTags | Linker.OutRefId, Linker.OutRewrite, Linker.ConvertOutputTagsCorrected |
| dfnbutils/dfconvert/make_ipy.py:83-85 | the function's scope holds `args`, `posonlyargs` and `kwonlyargs`, but not `vararg` or `kwarg` | `def f(*args): return args`: the use in the body becomes `args_<uuid>` while the parameter stays `args` | every parameter, `*args` and `**kwargs` included, is bound in the function's scope | not executed | Linker.FunctionScopeAsWritten, Linker.VarargRenamedAsWritten, Linker.ConvertOutputTags | Linker.FunctionScope, Linker.ParamsKept, Linker.ConvertOutputTagsCorrected |
| dfnbutils/refs.py:153-155 | the same scope in `ground_refs`: `*args` and `**kwargs` are not bound inside their function | `def f(*args): return args` where `args` has a dataflow link: the use in the body is recorded as a reference to that cell and rewritten | every parameter is bound in the function's scope, so its uses are local | not executed | Linker.GroundRefs, Linker.VarargFreeAsWritten | Linker.GroundRefsCorrected, Linker.VarargBoundCorrected |
| dfnbutils/dfconvert/convert.py:171 | blocks no code cell claims are appended as their own cell only, without the earlier prose of their run | two prose cells and no code cell, interleaved: the output is only the second cell, and the first is lost | append each remaining block's whole run, as lines 163-165 do for a claimed block | not executed | Assemble.ReassembledAsWritten, Assemble.LeftoverRunDropped, Assemble.Converted, Assemble.ConvertNotebook | Assemble.Reassembled, Assemble.ReassembledMeans, Assemble.ConvertedCorrected, Assemble.ConvertKeepsProse |
