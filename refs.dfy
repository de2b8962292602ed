/**
 * Cross-cell references (`DataflowRef`) and the position-preserving text
 * patcher that prints them into cell source.
 */
module Refs {
  import opened Wrappers
  import opened Text

  /** A (line, column) position: lines count from 1, columns from 0. */
  datatype Pos = Pos(line: nat, col: nat)

  /** Python's tuple order on positions. */
  predicate PosLe(a: Pos, b: Pos)
  {
    a.line < b.line || (a.line == b.line && a.col <= b.col)
  }

  predicate PosLt(a: Pos, b: Pos)
  {
    a.line < b.line || (a.line == b.line && a.col < b.col)
  }

  /**
   * A reference to `name` as bound by cell `cellId`, found in the span
   * `[startPos, endPos)`; `cellTag` is the export tag of that cell, if any.
   */
  datatype DataflowRef = DataflowRef(
    startPos: Pos,
    endPos: Pos,
    name: string,
    cellId: string,
    cellTag: Option<string>,
    ambiguous: bool)

  /** How a reference is printed (`DataflowRef.to_str`). */
  function ToStr(ref: DataflowRef, persistent: bool, useTags: bool): (r: string)
    ensures |r| >= |ref.name| && r[..|ref.name|] == ref.name
  {
    if persistent then ref.name + "$" + ref.cellId
    else if !ref.ambiguous then ref.name
    else if ref.cellTag.Some? && useTags then ref.name + "$" + ref.cellTag.value
    else ref.name + "$" + ref.cellId
  }

  /** Reads `name$suffix` back: the text before the first `$`, and what follows it, if any. */
  function SplitQualified(s: string): (string, Option<string>)
  {
    var i := FirstIndexOf(s, '$');
    if i == |s| then (s, None) else (s[..i], Some(s[i + 1..]))
  }

  /**
   * The printed form of a reference, read back, gives its name and exactly
   * one of: no qualifier (the reference is not ambiguous and the form is not
   * persistent), its tag (ambiguous, tagged, tags wanted) or its cell id.
   */
  lemma ToStrReadsBack(ref: DataflowRef, persistent: bool, useTags: bool)
    requires '$' !in ref.name
    ensures SplitQualified(ToStr(ref, persistent, useTags)).0 == ref.name
    ensures SplitQualified(ToStr(ref, persistent, useTags)).1 ==
      if persistent then Some(ref.cellId)
      else if !ref.ambiguous then None
      else if ref.cellTag.Some? && useTags then Some(ref.cellTag.value)
      else Some(ref.cellId)
  {
    var r := ToStr(ref, persistent, useTags);
    if r != ref.name {
      FirstIndexOfConcat(ref.name, '$', r[|ref.name| + 1..]);
      assert r == ref.name + ['$'] + r[|ref.name| + 1..];
    } else {
      assert FirstIndexOf(r, '$') == |r|;
    }
  }

  /** A persistent form always names the cell; the bare name appears exactly for unambiguous display forms. */
  lemma ToStrBareName(ref: DataflowRef, persistent: bool, useTags: bool)
    requires '$' !in ref.name
    ensures persistent ==> ToStr(ref, persistent, useTags) == ref.name + "$" + ref.cellId
    ensures ToStr(ref, persistent, useTags) == ref.name <==> !persistent && !ref.ambiguous
    ensures (exists t :: ref.cellTag == Some(t) && ToStr(ref, persistent, useTags) == ref.name + "$" + t)
            <== !persistent && ref.ambiguous && ref.cellTag.Some? && useTags
  {
  }

  /** The replacement functions `run_replacer` is called with (`identifier_replacer` is not part of this model). */
  datatype Replacer = RefReplacer | DollarReplacer | DollarDispReplacer | DollarDispNoTagReplacer

  function Replace(f: Replacer, ref: DataflowRef): string
  {
    match f
    case RefReplacer => "_oh['" + ref.cellId + "']['" + ref.name + "']"
    case DollarReplacer => ToStr(ref, true, false)
    case DollarDispReplacer => ToStr(ref, false, true)
    case DollarDispNoTagReplacer => ToStr(ref, false, false)
  }

  /** Only the display replacer with tags ever prints a tag; the dollar replacer always prints the cell id. */
  lemma ReplacerQualifiers(f: Replacer, ref: DataflowRef)
    requires '$' !in ref.name && f != RefReplacer
    ensures f == DollarReplacer ==> SplitQualified(Replace(f, ref)) == (ref.name, Some(ref.cellId))
    ensures f != DollarDispReplacer ==>
      SplitQualified(Replace(f, ref)).1 in {None, Some(ref.cellId)}
  {
    ToStrReadsBack(ref, f == DollarReplacer, f == DollarDispReplacer);
  }

  /** `is_ambiguous`: a name is unambiguous only when it is tagged by exactly that one cell. */
  function IsAmbiguous(name: string, cellId: string, outputTags: map<string, seq<string>>): (r: bool)
    ensures !r <==> name in outputTags && outputTags[name] == [cellId]
  {
    name !in outputTags || |outputTags[name]| > 1 || cellId !in outputTags[name]
  }

  // ---------------------------------------------------------------------
  // run_replacer

  /** Python's `code_arr[line - 1]` index for a list of `n` lines (0 wraps to the last line). */
  function LineIndex(line: nat, n: nat): (k: Option<nat>)
    ensures k.Some? ==> k.value < n
  {
    if line == 0 then (if n > 0 then Some(n - 1) else None)
    else if line - 1 < n then Some(line - 1) else None
  }

  /** `line[:a] + text + line[b:]` */
  function Splice(line: string, a: nat, text: string, b: nat): string
  {
    Take(line, a) + text + Drop(line, b)
  }

  /** Stable insertion of `x` into a list sorted by descending end position. */
  function InsertByEnd(x: DataflowRef, s: seq<DataflowRef>): (r: seq<DataflowRef>)
    ensures multiset(r) == multiset(s) + multiset{x}
  {
    if s == [] || !PosLt(x.endPos, s[0].endPos) then [x] + s
    else
      assert s == [s[0]] + s[1..];
      [s[0]] + InsertByEnd(x, s[1..])
  }

  predicate SortedByEndDesc(s: seq<DataflowRef>)
  {
    forall i, j :: 0 <= i < j < |s| ==> PosLe(s[j].endPos, s[i].endPos)
  }

  lemma {:induction false} InsertByEndSorted(x: DataflowRef, s: seq<DataflowRef>)
    requires SortedByEndDesc(s)
    ensures SortedByEndDesc(InsertByEnd(x, s))
  {
    if s != [] && PosLt(x.endPos, s[0].endPos) {
      var rest := InsertByEnd(x, s[1..]);
      InsertByEndSorted(x, s[1..]);
      forall k | 0 <= k < |s[1..]| ensures PosLe(s[1..][k].endPos, s[0].endPos) {
        assert s[1..][k] == s[k + 1];
      }
      InsertKeepsBound(x, s[1..], s[0].endPos);
      var r := [s[0]] + rest;
      forall i, j | 0 <= i < j < |r| ensures PosLe(r[j].endPos, r[i].endPos) {
        assert r[j] == rest[j - 1];
        if i > 0 {
          assert r[i] == rest[i - 1];
        }
      }
    }
  }

  /** Inserting an element that ends no later than `b` among such elements keeps them so. */
  lemma InsertKeepsBound(x: DataflowRef, s: seq<DataflowRef>, b: Pos)
    requires PosLe(x.endPos, b) && forall k :: 0 <= k < |s| ==> PosLe(s[k].endPos, b)
    ensures forall k :: 0 <= k < |InsertByEnd(x, s)| ==> PosLe(InsertByEnd(x, s)[k].endPos, b)
  {
    var r := InsertByEnd(x, s);
    forall k | 0 <= k < |r| ensures PosLe(r[k].endPos, b) {
      var y := r[k];
      assert y in multiset(r);
      if y != x {
        assert y in multiset(s);
        var m :| 0 <= m < |s| && s[m] == y;
      }
    }
  }

  /** The elements of `s` that end at `e`, in order. */
  function EndingAt(s: seq<DataflowRef>, e: Pos): seq<DataflowRef>
  {
    if s == [] then [] else (if s[0].endPos == e then [s[0]] else []) + EndingAt(s[1..], e)
  }

  /** Inserting `x` puts it in front of every element with its end position. */
  lemma {:induction false} InsertByEndStable(x: DataflowRef, s: seq<DataflowRef>, e: Pos)
    ensures EndingAt(InsertByEnd(x, s), e) == (if x.endPos == e then [x] else []) + EndingAt(s, e)
  {
    if s != [] && PosLt(x.endPos, s[0].endPos) {
      InsertByEndStable(x, s[1..], e);
      var r := InsertByEnd(x, s);
      assert r[0] == s[0] && r[1..] == InsertByEnd(x, s[1..]);
      if x.endPos == e {
        assert s[0].endPos != e;
      }
    } else {
      var r := [x] + s;
      assert r[0] == x && r[1..] == s;
    }
  }

  /**
   * `sorted(refs, key=attrgetter('end_pos'), reverse=True)`: a permutation
   * in descending order of end position, and stable: the references that
   * end at the same position keep their order.
   */
  function SortByEndDesc(refs: seq<DataflowRef>): (r: seq<DataflowRef>)
    ensures multiset(r) == multiset(refs)
    ensures SortedByEndDesc(r)
    ensures forall e :: EndingAt(r, e) == EndingAt(refs, e)
  {
    if refs == [] then []
    else
      assert refs == [refs[0]] + refs[1..];
      var rest := SortByEndDesc(refs[1..]);
      InsertByEndSorted(refs[0], rest);
      forall e ensures EndingAt(InsertByEnd(refs[0], rest), e) == EndingAt(refs, e) {
        InsertByEndStable(refs[0], rest, e);
      }
      InsertByEnd(refs[0], rest)
  }

  /** One loop step of `run_replacer`. */
  function ApplyRef(lines: seq<string>, ref: DataflowRef, f: Replacer): (r: Result<seq<string>>)
    ensures r.Success? ==> |r.value| == |lines|
  {
    if ref.startPos.line != ref.endPos.line then Failure(MultiLineRef)
    else match LineIndex(ref.startPos.line, |lines|)
      case None => Failure(IndexError)
      case Some(k) =>
        Success(lines[k := Splice(lines[k], ref.startPos.col, Replace(f, ref), ref.endPos.col)])
  }

  /** The loop of `run_replacer` over refs already in processing order. */
  function ApplyRefs(lines: seq<string>, refs: seq<DataflowRef>, f: Replacer): Result<seq<string>>
    decreases |refs|
  {
    if refs == [] then Success(lines)
    else match ApplyRef(lines, refs[0], f)
      case Failure(e) => Failure(e)
      case Success(next) => ApplyRefs(next, refs[1..], f)
  }

  /** What `run_replacer(s, refs, replace_f)` returns, or the error it raises. */
  function RunReplacerSpec(s: string, refs: seq<DataflowRef>, f: Replacer): Result<string>
  {
    match ApplyRefs(SplitLines(s), SortByEndDesc(refs), f)
    case Failure(e) => Failure(e)
    case Success(lines) => Success(JoinLines(lines))
  }

  method RunReplacer(s: string, refs: seq<DataflowRef>, f: Replacer) returns (r: Result<string>)
    ensures r == RunReplacerSpec(s, refs, f)
  {
    var codeArr := SplitLines(s);
    var ordered := SortByEndDesc(refs);
    var i := 0;
    while i < |ordered|
      invariant 0 <= i <= |ordered|
      invariant ApplyRefs(SplitLines(s), ordered, f) == ApplyRefs(codeArr, ordered[i..], f)
    {
      var ref := ordered[i];
      assert ordered[i..][1..] == ordered[i + 1..];
      if ref.startPos.line != ref.endPos.line {
        return Failure(MultiLineRef);
      }
      var k := LineIndex(ref.startPos.line, |codeArr|);
      if k.None? {
        return Failure(IndexError);
      }
      var line := codeArr[k.value];
      codeArr := codeArr[k.value := Take(line, ref.startPos.col) + Replace(f, ref) + Drop(line, ref.endPos.col)];
      i := i + 1;
    }
    return Success(JoinLines(codeArr));
  }

  /**
   * With no references the patcher only normalises line ends: the result
   * splits on '\n' into exactly the lines of the input, and for a text that
   * uses '\n' only it is the input minus one trailing newline.
   */
  lemma RunReplacerNoRefs(s: string, f: Replacer)
    ensures RunReplacerSpec(s, [], f) == Success(JoinLines(SplitLines(s)))
    ensures s != [] ==> SplitNewline(RunReplacerSpec(s, [], f).value) == SplitLines(s)
    ensures NewlinesOnly(s) ==> RunReplacerSpec(s, [], f) == Success(DropTrailingNewline(s))
  {
    if s != [] {
      SplitLinesNonEmpty(s);
      SplitLinesHaveNoBreaks(s);
      forall k | 0 <= k < |SplitLines(s)| ensures '\n' !in SplitLines(s)[k] {
        var line := SplitLines(s)[k];
        assert NoBreaks(line);
      }
      SplitJoinLines(SplitLines(s));
    }
    if NewlinesOnly(s) {
      JoinSplitLines(s);
    }
  }

  lemma {:induction false} ApplyRefsFailsOnMultiLine(lines: seq<string>, refs: seq<DataflowRef>, f: Replacer, bad: DataflowRef)
    requires bad in refs && bad.startPos.line != bad.endPos.line
    ensures ApplyRefs(lines, refs, f).Failure?
    decreases |refs|
  {
    if refs[0] != bad {
      match ApplyRef(lines, refs[0], f)
      case Failure(_) =>
      case Success(next) => ApplyRefsFailsOnMultiLine(next, refs[1..], f, bad);
    }
  }

  /** A reference spanning two lines makes `run_replacer` raise, whatever else is in the list. */
  lemma RunReplacerRejectsMultiLine(s: string, refs: seq<DataflowRef>, f: Replacer, bad: DataflowRef)
    requires bad in refs && bad.startPos.line != bad.endPos.line
    ensures RunReplacerSpec(s, refs, f).Failure?
  {
    assert bad in multiset(SortByEndDesc(refs));
    ApplyRefsFailsOnMultiLine(SplitLines(s), SortByEndDesc(refs), f, bad);
  }

  // ---------------------------------------------------------------------
  // Edits are local to their line and act as if applied at once.

  /** A reference `run_replacer` accepts for a text of `n` lines. */
  predicate Applicable(ref: DataflowRef, n: nat)
  {
    ref.startPos.line == ref.endPos.line && LineIndex(ref.startPos.line, n).Some?
  }

  /** The references of `refs`, in order, that patch line `k` of a text of `n` lines. */
  function OnLine(refs: seq<DataflowRef>, k: nat, n: nat): (r: seq<DataflowRef>)
    ensures multiset(r) <= multiset(refs)
    ensures forall x :: x in r ==> LineIndex(x.startPos.line, n) == Some(k)
  {
    if refs == [] then []
    else
      assert refs == [refs[0]] + refs[1..];
      (if LineIndex(refs[0].startPos.line, n) == Some(k) then [refs[0]] else []) + OnLine(refs[1..], k, n)
  }

  /** The edits of `refs` applied to one line, one after the other. */
  function LineEdits(line: string, refs: seq<DataflowRef>, f: Replacer): string
    decreases |refs|
  {
    if refs == [] then line
    else LineEdits(Splice(line, refs[0].startPos.col, Replace(f, refs[0]), refs[0].endPos.col), refs[1..], f)
  }

  /** Every line of the patched text is its own line with its own edits applied, and nothing else. */
  lemma {:induction false} ApplyRefsPerLine(lines: seq<string>, refs: seq<DataflowRef>, f: Replacer)
    requires forall x :: x in refs ==> Applicable(x, |lines|)
    ensures ApplyRefs(lines, refs, f).Success?
    ensures |ApplyRefs(lines, refs, f).value| == |lines|
    ensures forall k :: 0 <= k < |lines| ==>
      ApplyRefs(lines, refs, f).value[k] == LineEdits(lines[k], OnLine(refs, k, |lines|), f)
    decreases |refs|
  {
    var n := |lines|;
    if refs != [] {
      var r := refs[0];
      assert Applicable(r, n);
      var k0 := LineIndex(r.startPos.line, n).value;
      var next := lines[k0 := Splice(lines[k0], r.startPos.col, Replace(f, r), r.endPos.col)];
      assert ApplyRef(lines, r, f) == Success(next);
      assert ApplyRefs(lines, refs, f) == ApplyRefs(next, refs[1..], f);
      assert forall x :: x in refs[1..] ==> x in refs;
      ApplyRefsPerLine(next, refs[1..], f);
      forall k | 0 <= k < n
        ensures LineEdits(next[k], OnLine(refs[1..], k, n), f) == LineEdits(lines[k], OnLine(refs, k, n), f)
      {
        PerLineStep(lines, refs, f, k);
      }
    }
  }

  lemma PerLineStep(lines: seq<string>, refs: seq<DataflowRef>, f: Replacer, k: nat)
    requires refs != [] && Applicable(refs[0], |lines|) && k < |lines|
    ensures
      var r := refs[0];
      var k0 := LineIndex(r.startPos.line, |lines|).value;
      var next := lines[k0 := Splice(lines[k0], r.startPos.col, Replace(f, r), r.endPos.col)];
      LineEdits(next[k], OnLine(refs[1..], k, |lines|), f) == LineEdits(lines[k], OnLine(refs, k, |lines|), f)
  {
    var r := refs[0];
    var rest := OnLine(refs[1..], k, |lines|);
    OnLineCons(refs, k, |lines|);
    if LineIndex(r.startPos.line, |lines|) == Some(k) {
      assert OnLine(refs, k, |lines|) == [r] + rest;
      LineEditsCons(lines[k], r, rest, f);
    } else {
      assert OnLine(refs, k, |lines|) == rest;
    }
  }

  lemma OnLineCons(refs: seq<DataflowRef>, k: nat, n: nat)
    requires refs != []
    ensures OnLine(refs, k, n) ==
      (if LineIndex(refs[0].startPos.line, n) == Some(k) then [refs[0]] else []) + OnLine(refs[1..], k, n)
  {
  }

  lemma LineEditsCons(line: string, r: DataflowRef, rest: seq<DataflowRef>, f: Replacer)
    ensures LineEdits(line, [r] + rest, f) ==
      LineEdits(Splice(line, r.startPos.col, Replace(f, r), r.endPos.col), rest, f)
  {
    assert ([r] + rest)[1..] == rest;
  }

  /**
   * The simultaneous meaning of a list of edits of one line, rightmost
   * first: every edit replaces its own columns of the ORIGINAL line.
   */
  function Simultaneous(line: string, refs: seq<DataflowRef>, f: Replacer): string
    decreases |refs|
  {
    if refs == [] then line
    else if refs[0].startPos.col <= |line| then
      Simultaneous(line[..refs[0].startPos.col], refs[1..], f) + Replace(f, refs[0]) + Drop(line, refs[0].endPos.col)
    else line
  }

  /** Each edit lies within the line and ends where the previous (to its right) one starts, or before. */
  predicate RightToLeft(refs: seq<DataflowRef>, width: nat)
  {
    && Chained(refs)
    && (forall i :: 0 <= i < |refs| ==> refs[i].endPos.col <= width)
  }

  /** Every edit's span is well formed and ends at or before the start of the edit before it. */
  predicate Chained(refs: seq<DataflowRef>)
  {
    && (forall i :: 0 <= i < |refs| ==> refs[i].startPos.col <= refs[i].endPos.col)
    && (forall i :: 0 <= i < |refs| - 1 ==> refs[i + 1].endPos.col <= refs[i].startPos.col)
  }

  lemma SpliceWithin(p: string, q: string, a: nat, text: string, b: nat)
    requires a <= b <= |p|
    ensures Splice(p + q, a, text, b) == Splice(p, a, text, b) + q
  {
    assert Take(p + q, a) == p[..a];
    assert Drop(p + q, b) == p[b..] + q;
  }

  lemma {:induction false} RightToLeftChain(refs: seq<DataflowRef>, j: nat)
    requires Chained(refs)
    requires 0 < j < |refs|
    ensures refs[j].endPos.col <= refs[0].startPos.col
  {
    if j > 1 {
      RightToLeftChain(refs, j - 1);
    }
  }

  /** After the rightmost edit, the others all lie left of its start. */
  lemma RightToLeftRest(refs: seq<DataflowRef>)
    requires Chained(refs) && refs != []
    ensures RightToLeft(refs[1..], refs[0].startPos.col)
  {
    forall i | 0 <= i < |refs[1..]| ensures refs[1..][i].endPos.col <= refs[0].startPos.col {
      RightToLeftChain(refs, i + 1);
    }
  }

  lemma {:induction false} LineEditsWithin(p: string, q: string, refs: seq<DataflowRef>, f: Replacer)
    requires RightToLeft(refs, |p|)
    ensures LineEdits(p + q, refs, f) == LineEdits(p, refs, f) + q
    decreases |refs|
  {
    if refs != [] {
      var r := refs[0];
      SpliceWithin(p, q, r.startPos.col, Replace(f, r), r.endPos.col);
      var p' := Splice(p, r.startPos.col, Replace(f, r), r.endPos.col);
      assert |p'| >= r.startPos.col;
      RightToLeftRest(refs);
      LineEditsWithin(p', q, refs[1..], f);
    }
  }

  /** The rightmost edit of a line, in both readings: the text right of its start is final. */
  lemma EditStep(line: string, refs: seq<DataflowRef>, f: Replacer)
    requires refs != [] && refs[0].startPos.col <= refs[0].endPos.col <= |line|
    ensures var a, tail := refs[0].startPos.col, Replace(f, refs[0]) + line[refs[0].endPos.col..];
      && LineEdits(line, refs, f) == LineEdits(line[..a] + tail, refs[1..], f)
      && Simultaneous(line, refs, f) == Simultaneous(line[..a], refs[1..], f) + tail
  {
    var a, b, t := refs[0].startPos.col, refs[0].endPos.col, Replace(f, refs[0]);
    assert Splice(line, a, t, b) == line[..a] + (t + line[b..]) by {
      assert Take(line, a) == line[..a];
      assert Drop(line, b) == line[b..];
    }
    var sim := Simultaneous(line[..a], refs[1..], f);
    assert sim + t + Drop(line, b) == sim + (t + line[b..]);
  }

  /** Applying right-to-left edits one by one equals applying them all at once. */
  lemma {:induction false} LineEditsSimultaneous(line: string, refs: seq<DataflowRef>, f: Replacer)
    requires RightToLeft(refs, |line|)
    ensures LineEdits(line, refs, f) == Simultaneous(line, refs, f)
    decreases |refs|
  {
    if refs != [] {
      var a, b := refs[0].startPos.col, refs[0].endPos.col;
      assert a <= b <= |line|;
      EditStep(line, refs, f);
      var prefix, tail := line[..a], Replace(f, refs[0]) + line[b..];
      RightToLeftRest(refs);
      LineEditsWithin(prefix, tail, refs[1..], f);
      LineEditsSimultaneous(prefix, refs[1..], f);
    }
  }

  /**
   * Every reference sits on one existing line, numbered from 1 as the
   * tokenizer and the parser number them, and covers a non-empty part of it.
   */
  predicate PatchesFor(refs: seq<DataflowRef>, lines: seq<string>)
  {
    forall x :: x in refs ==>
      && Applicable(x, |lines|)
      && x.startPos.line >= 1
      && x.startPos.col < x.endPos.col <= |lines[LineIndex(x.startPos.line, |lines|).value]|
  }

  /** No two references on the same line overlap. */
  predicate Disjoint(refs: seq<DataflowRef>, n: nat)
  {
    forall i, j :: 0 <= i < j < |refs| && LineIndex(refs[i].startPos.line, n) == LineIndex(refs[j].startPos.line, n) ==>
      refs[j].endPos.col <= refs[i].startPos.col || refs[i].endPos.col <= refs[j].startPos.col
  }

  predicate Distinct<T(==)>(s: seq<T>)
  {
    forall i, j :: 0 <= i < j < |s| ==> s[i] != s[j]
  }

  lemma {:induction false} DistinctCount<T>(s: seq<T>, x: T)
    requires Distinct(s)
    ensures multiset(s)[x] <= 1
  {
    if s != [] {
      assert s == [s[0]] + s[1..];
      DistinctCount(s[1..], x);
      if s[0] == x {
        assert x !in s[1..];
      }
    }
  }

  lemma DistinctFromCount<T>(s: seq<T>)
    requires forall x :: x in s ==> multiset(s)[x] <= 1
    ensures Distinct(s)
  {
    forall i, j | 0 <= i < j < |s| ensures s[i] != s[j] {
      if s[i] == s[j] {
        TwoOccurrences(s, i, j);
      }
    }
  }

  lemma TwoOccurrences<T>(s: seq<T>, i: nat, j: nat)
    requires i < j < |s| && s[i] == s[j]
    ensures multiset(s)[s[j]] >= 2
  {
    assert s == s[..j] + s[j..];
    assert s[i] in s[..j];
    assert s[j] in s[j..];
    assert multiset(s)[s[j]] == multiset(s[..j])[s[j]] + multiset(s[j..])[s[j]];
  }

  lemma DistinctPermutation<T>(s: seq<T>, t: seq<T>)
    requires Distinct(s) && multiset(s) == multiset(t)
    ensures Distinct(t)
  {
    forall x | x in t ensures multiset(t)[x] <= 1 {
      DistinctCount(s, x);
    }
    DistinctFromCount(t);
  }

  lemma {:induction false} OnLineSortedDistinct(s: seq<DataflowRef>, k: nat, n: nat)
    requires SortedByEndDesc(s) && Distinct(s)
    ensures SortedByEndDesc(OnLine(s, k, n)) && Distinct(OnLine(s, k, n))
  {
    if s != [] {
      OnLineSortedDistinct(s[1..], k, n);
      if LineIndex(s[0].startPos.line, n) == Some(k) {
        OnLineAfterHead(s, k, n);
        ConsSortedDistinct(s[0], OnLine(s[1..], k, n));
      }
    }
  }

  /** The references a line keeps from the tail of a sorted, duplicate-free list end no later than its head and differ from it. */
  lemma OnLineAfterHead(s: seq<DataflowRef>, k: nat, n: nat)
    requires s != [] && SortedByEndDesc(s) && Distinct(s)
    ensures forall y :: y in OnLine(s[1..], k, n) ==> PosLe(y.endPos, s[0].endPos) && y != s[0]
  {
    var rest := OnLine(s[1..], k, n);
    forall y | y in rest ensures PosLe(y.endPos, s[0].endPos) && y != s[0] {
      assert y in multiset(rest);
      var j :| 0 <= j < |s[1..]| && s[1..][j] == y;
      assert s[j + 1] == y;
    }
  }

  lemma ConsSortedDistinct(x: DataflowRef, rest: seq<DataflowRef>)
    requires SortedByEndDesc(rest) && Distinct(rest)
    requires forall y :: y in rest ==> PosLe(y.endPos, x.endPos) && y != x
    ensures SortedByEndDesc([x] + rest) && Distinct([x] + rest)
  {
    var r := [x] + rest;
    forall i, j | 0 <= i < j < |r| ensures PosLe(r[j].endPos, r[i].endPos) && r[i] != r[j] {
      assert r[j] == rest[j - 1];
      if i > 0 {
        assert r[i] == rest[i - 1];
      }
    }
  }

  lemma DisjointPair(refs: seq<DataflowRef>, n: nat, x: DataflowRef, y: DataflowRef)
    requires Disjoint(refs, n) && x in refs && y in refs && x != y
    requires LineIndex(x.startPos.line, n) == LineIndex(y.startPos.line, n)
    ensures y.endPos.col <= x.startPos.col || x.endPos.col <= y.startPos.col
  {
    var a :| 0 <= a < |refs| && refs[a] == x;
    var b :| 0 <= b < |refs| && refs[b] == y;
    assert a != b;
  }

  lemma DistinctRefs(refs: seq<DataflowRef>, lines: seq<string>)
    requires PatchesFor(refs, lines) && Disjoint(refs, |lines|)
    ensures Distinct(refs)
  {
    forall i, j | 0 <= i < j < |refs| ensures refs[i] != refs[j] {
      assert refs[i] in refs;
    }
  }

  lemma OnLineMembers(refs: seq<DataflowRef>, sorted: seq<DataflowRef>, lines: seq<string>, k: nat, x: DataflowRef)
    requires PatchesFor(refs, lines) && k < |lines| && multiset(sorted) == multiset(refs)
    requires x in OnLine(sorted, k, |lines|)
    ensures x in refs && x.startPos.col < x.endPos.col <= |lines[k]|
    ensures x.startPos.line == x.endPos.line == k + 1
  {
    assert x in multiset(OnLine(sorted, k, |lines|));
    assert x in multiset(sorted);
  }

  /** Under the hypotheses, the references of one line, in processing order, run right to left. */
  lemma OnLineRightToLeft(refs: seq<DataflowRef>, sorted: seq<DataflowRef>, lines: seq<string>, k: nat)
    requires PatchesFor(refs, lines) && Disjoint(refs, |lines|) && k < |lines|
    requires multiset(sorted) == multiset(refs) && SortedByEndDesc(sorted)
    ensures RightToLeft(OnLine(sorted, k, |lines|), |lines[k]|)
  {
    DistinctRefs(refs, lines);
    DistinctPermutation(refs, sorted);
    OnLineSortedDistinct(sorted, k, |lines|);
    var o := OnLine(sorted, k, |lines|);
    OnLineWidths(refs, sorted, lines, k, o);
    OnLineChained(refs, sorted, lines, k, o);
  }

  lemma OnLineWidths(refs: seq<DataflowRef>, sorted: seq<DataflowRef>, lines: seq<string>, k: nat, o: seq<DataflowRef>)
    requires PatchesFor(refs, lines) && k < |lines| && multiset(sorted) == multiset(refs)
    requires o == OnLine(sorted, k, |lines|)
    ensures forall i :: 0 <= i < |o| ==> o[i].startPos.col <= o[i].endPos.col <= |lines[k]|
  {
    forall i | 0 <= i < |o| ensures o[i].startPos.col <= o[i].endPos.col <= |lines[k]| {
      OnLineMembers(refs, sorted, lines, k, o[i]);
    }
  }

  lemma OnLineChained(refs: seq<DataflowRef>, sorted: seq<DataflowRef>, lines: seq<string>, k: nat, o: seq<DataflowRef>)
    requires PatchesFor(refs, lines) && Disjoint(refs, |lines|) && k < |lines| && multiset(sorted) == multiset(refs)
    requires o == OnLine(sorted, k, |lines|) && SortedByEndDesc(o) && Distinct(o)
    ensures forall i :: 0 <= i < |o| - 1 ==> o[i + 1].endPos.col <= o[i].startPos.col
  {
    forall i | 0 <= i < |o| - 1 ensures o[i + 1].endPos.col <= o[i].startPos.col {
      var x, y := o[i], o[i + 1];
      OnLineMembers(refs, sorted, lines, k, x);
      OnLineMembers(refs, sorted, lines, k, y);
      assert PosLe(y.endPos, x.endPos) && x != y;
      DisjointPair(refs, |lines|, x, y);
    }
  }

  /** The lines `run_replacer` produces: each line with its own edits applied simultaneously. */
  function PatchedLines(lines: seq<string>, refs: seq<DataflowRef>, f: Replacer): (r: seq<string>)
    ensures |r| == |lines|
  {
    seq(|lines|, k requires 0 <= k < |lines| => Simultaneous(lines[k], OnLine(SortByEndDesc(refs), k, |lines|), f))
  }

  /**
   * For non-overlapping single-line references, `run_replacer` acts as if all
   * edits were made at once on the original text: every line is its original
   * text with each of its spans replaced, and a line without references is
   * left as it was.
   */
  lemma RunReplacerSimultaneous(s: string, refs: seq<DataflowRef>, f: Replacer)
    requires PatchesFor(refs, SplitLines(s)) && Disjoint(refs, |SplitLines(s)|)
    ensures RunReplacerSpec(s, refs, f) == Success(JoinLines(PatchedLines(SplitLines(s), refs, f)))
    ensures forall k :: 0 <= k < |SplitLines(s)| && OnLine(SortByEndDesc(refs), k, |SplitLines(s)|) == [] ==>
      PatchedLines(SplitLines(s), refs, f)[k] == SplitLines(s)[k]
  {
    var lines := SplitLines(s);
    var sorted := SortByEndDesc(refs);
    forall x | x in sorted ensures Applicable(x, |lines|) {
      assert x in multiset(sorted);
    }
    ApplyRefsPerLine(lines, sorted, f);
    var out := ApplyRefs(lines, sorted, f).value;
    forall k | 0 <= k < |lines| ensures out[k] == PatchedLines(lines, refs, f)[k] {
      OnLineRightToLeft(refs, sorted, lines, k);
      LineEditsSimultaneous(lines[k], OnLine(sorted, k, |lines|), f);
    }
    assert out == PatchedLines(lines, refs, f);
  }

  /** Every span is well formed and ends at or before the start of every later one. */
  predicate SpansInOrder(refs: seq<DataflowRef>)
  {
    && (forall i :: 0 <= i < |refs| ==> PosLe(refs[i].startPos, refs[i].endPos))
    && (forall i, j :: 0 <= i < j < |refs| ==> PosLe(refs[i].endPos, refs[j].startPos))
  }

  /** References found left to right in a text never overlap. */
  lemma SpansInOrderDisjoint(refs: seq<DataflowRef>, lines: seq<string>)
    requires SpansInOrder(refs) && PatchesFor(refs, lines)
    ensures Disjoint(refs, |lines|)
  {
    forall i, j | 0 <= i < j < |refs| && LineIndex(refs[i].startPos.line, |lines|) == LineIndex(refs[j].startPos.line, |lines|)
      ensures refs[i].endPos.col <= refs[j].startPos.col
    {
      assert refs[i] in refs && refs[j] in refs;
      assert PosLe(refs[i].startPos, refs[i].endPos) && PosLe(refs[i].endPos, refs[j].startPos);
    }
  }

  // ---------------------------------------------------------------------
  // refs_to_dict

  /**
   * `refs_to_dict`: groups the references by name; every name that occurs
   * is a key, and its value is exactly the set of cells it refers to.
   */
  method RefsToDict(refs: seq<DataflowRef>) returns (d: map<string, set<string>>)
    ensures d.Keys == set x | x in refs :: x.name
    ensures forall name :: name in d ==> d[name] == set x | x in refs && x.name == name :: x.cellId
  {
    d := map[];
    var i := 0;
    while i < |refs|
      invariant 0 <= i <= |refs|
      invariant d.Keys == set x | x in refs[..i] :: x.name
      invariant forall name :: name in d ==> d[name] == set x | x in refs[..i] && x.name == name :: x.cellId
    {
      var ref := refs[i];
      assert refs[..i + 1] == refs[..i] + [ref];
      var cells := if ref.name in d then d[ref.name] else {};
      d := d[ref.name := cells + {ref.cellId}];
      i := i + 1;
    }
    assert refs[..i] == refs;
  }
}
