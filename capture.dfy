/**
 * Capturing a cell's output in named variables: the `Out[<id>]` rewrite
 * (`transform_out_refs` and the notebook-wide `_transform_outrefs`), the
 * export-tag rewrite `_replace_export_id`, the execution-count label, and
 * the two rules that turn the cell's final statement into an assignment
 * to `Out_<label>` (`transform_last_node`, `out_assign`).
 */
module Capture {
  import opened Wrappers
  import opened Text
  import opened Refs
  import opened PyAst

  // ---------------------------------------------------------------------
  // re.sub

  /**
   * A regular expression anchored at the start of a text: the number of
   * characters it matches and the replacement it produces, or no match.
   */
  type Matcher = string -> Option<(nat, string)>

  /**
   * Python's `re.sub`: from left to right, each match is replaced and
   * scanning resumes after it; where nothing matches one character is kept.
   * A match of no characters is never produced by the patterns modelled here.
   */
  function ReSub(s: string, m: Matcher): string
    decreases |s|
  {
    if s == [] then ""
    else match m(s)
      case Some((n, rep)) =>
        if 1 <= n <= |s| then rep + ReSub(s[n..], m) else [s[0]] + ReSub(s[1..], m)
      case None => [s[0]] + ReSub(s[1..], m)
  }

  /** A match at `i`: the pattern matches the text from `i` on. */
  predicate MatchesAt(s: string, m: Matcher, i: nat)
    requires i <= |s|
  {
    m(s[i..]).Some? && 1 <= m(s[i..]).value.0 <= |s| - i
  }

  /** A text the pattern matches as a whole becomes the replacement. */
  lemma ReSubWhole(s: string, m: Matcher, rep: string)
    requires |s| >= 1 && m(s) == Some((|s|, rep))
    ensures ReSub(s, m) == rep
  {
    assert s[|s|..] == "";
  }

  /** A text in which the pattern matches nowhere comes back unchanged. */
  lemma {:induction false} ReSubNoMatch(s: string, m: Matcher)
    requires forall i :: 0 <= i < |s| ==> !MatchesAt(s, m, i)
    ensures ReSub(s, m) == s
    decreases |s|
  {
    if s != [] {
      assert !MatchesAt(s, m, 0);
      assert s[0..] == s;
      forall i | 0 <= i < |s[1..]| ensures !MatchesAt(s[1..], m, i) {
        assert !MatchesAt(s, m, i + 1);
        assert s[1..][i..] == s[i + 1..];
      }
      ReSubNoMatch(s[1..], m);
    }
  }

  // ---------------------------------------------------------------------
  // Out[<id>] -> Out_<id>

  /** The length of the cell ids the rewrite recognises (`DEFAULT_ID_LENGTH`). */
  const IdLength: nat := 8

  predicate AllHexDigits(s: string)
  {
    forall i :: 0 <= i < |s| ==> IsHexDigit(s[i])
  }

  /**
   * `Out\[Q?([0-9A-Fa-f]{8})Q?\]` with `Q` one of the characters in
   * `quotes`, replaced by `Out_\1`. The quote characters are neither hex
   * digits nor `]`, so the greedy match never needs to backtrack.
   */
  function MatchOut(s: string, quotes: set<char>): (r: Option<(nat, string)>)
    requires forall q :: q in quotes ==> !IsHexDigit(q) && q != ']'
    ensures r.Some? ==> 13 <= r.value.0 <= |s| && s[..4] == "Out["
    ensures r.Some? ==> |r.value.1| == 12 && r.value.1[..4] == "Out_" && AllHexDigits(r.value.1[4..])
  {
    if |s| >= 4 && s[..4] == "Out[" then
      var h := if |s| > 4 && s[4] in quotes then 5 else 4;
      if |s| >= h + IdLength && AllHexDigits(s[h..h + IdLength]) then
        var c := if |s| > h + IdLength && s[h + IdLength] in quotes then h + IdLength + 1 else h + IdLength;
        if |s| > c && s[c] == ']' then
          var rep := "Out_" + s[h..h + IdLength];
          assert rep[4..] == s[h..h + IdLength];
          Some((c + 1, rep))
        else None
      else None
    else None
  }

  /** The quotes `transform_out_refs` accepts: `["\']`. */
  const CellQuotes: set<char> := {'"', '\''}

  /** The quotes `_transform_outrefs` accepts: `["|\']`, a class that also holds `|`. */
  const NotebookQuotes: set<char> := {'"', '|', '\''}

  function OutMatcher(quotes: set<char>): Matcher
    requires forall q :: q in quotes ==> !IsHexDigit(q) && q != ']'
  {
    s => MatchOut(s, quotes)
  }

  /** `_transform_outrefs`: the rewrite applied to a whole cell. */
  function TransformOutrefsText(source: string): string
  {
    ReSub(source, OutMatcher(NotebookQuotes))
  }

  /**
   * `Out[<id>]`, `Out["<id>"]` and `Out['<id>']` (also with unmatched
   * quotes) become `Out_<id>` for any eight hex digits, under both quote sets.
   */
  lemma OutRefRewritten(id: string, q1: string, q2: string, quotes: set<char>)
    requires forall q :: q in quotes ==> !IsHexDigit(q) && q != ']'
    requires |id| == IdLength && AllHexDigits(id)
    requires q1 == "" || (|q1| == 1 && q1[0] in quotes)
    requires q2 == "" || (|q2| == 1 && q2[0] in quotes)
    ensures ReSub("Out[" + q1 + id + q2 + "]", OutMatcher(quotes)) == "Out_" + id
  {
    var s := "Out[" + q1 + id + q2 + "]";
    OutRefMatched(id, q1, q2, quotes);
    ReSubWhole(s, OutMatcher(quotes), "Out_" + id);
  }

  /** The `Out[...]` pattern matches such a subscript as a whole. */
  lemma OutRefMatched(id: string, q1: string, q2: string, quotes: set<char>)
    requires forall q :: q in quotes ==> !IsHexDigit(q) && q != ']'
    requires |id| == IdLength && AllHexDigits(id)
    requires q1 == "" || (|q1| == 1 && q1[0] in quotes)
    requires q2 == "" || (|q2| == 1 && q2[0] in quotes)
    ensures MatchOut("Out[" + q1 + id + q2 + "]", quotes) == Some((|q1| + |q2| + 13, "Out_" + id))
  {
    var s := "Out[" + q1 + id + q2 + "]";
    var h := 4 + |q1|;
    assert s[..4] == "Out[";
    assert s[h..h + IdLength] == id;
    assert |s| > 4 && (s[4] in quotes <==> q1 != "");
    assert s[h + IdLength] in quotes <==> q2 != "";
  }

  /**
   * Only the notebook-wide rewrite takes `|` for a quote: `Out[|<id>|]`
   * becomes `Out_<id>` there, and the per-cell pattern does not match it.
   */
  lemma PipeIsAQuoteOnlyNotebookWide(id: string)
    requires |id| == IdLength && AllHexDigits(id)
    ensures TransformOutrefsText("Out[|" + id + "|]") == "Out_" + id
    ensures MatchOut("Out[|" + id + "|]", CellQuotes) == None
  {
    var q := "|";
    OutRefRewritten(id, q, q, NotebookQuotes);
    assert "Out[|" + id + "|]" == "Out[" + q + id + q + "]";
    var s := "Out[|" + id + "|]";
    assert s[..4] == "Out[" && s[4] == '|' && s[4..12][0] == '|';
  }

  // ---------------------------------------------------------------------
  // transform_out_refs: patching spans left to right with a running offset

  /** A span of character offsets `[start, end)` in a cell's text. */
  datatype Range = Range(start: nat, end: nat)

  /** Spans inside a text of length `n`, in text order and not overlapping. */
  predicate RangesInOrder(rs: seq<Range>, n: nat)
  {
    && (forall i :: 0 <= i < |rs| ==> rs[i].start <= rs[i].end <= n)
    && (forall i, j :: 0 <= i < j < |rs| ==> rs[i].end <= rs[j].start)
  }

  /** Where the text after the first `i` spans begins. */
  function Resume(rs: seq<Range>, i: nat): nat
    requires i <= |rs|
  {
    if i == 0 then 0 else rs[i - 1].end
  }

  /** What the pattern makes of span `i`. */
  function NewText(cs: string, rs: seq<Range>, i: nat, m: Matcher): string
    requires RangesInOrder(rs, |cs|) && i < |rs|
  {
    ReSub(cs[rs[i].start..rs[i].end], m)
  }

  /**
   * The text up to the end of span `i - 1`, each span replaced by its
   * rewrite and the text between spans kept: the spans rewritten all at
   * once in the original text.
   */
  function RewrittenUpTo(cs: string, rs: seq<Range>, i: nat, m: Matcher): string
    requires RangesInOrder(rs, |cs|) && i <= |rs|
  {
    if i == 0 then ""
    else RewrittenUpTo(cs, rs, i - 1, m) + cs[Resume(rs, i - 1)..rs[i - 1].start] + NewText(cs, rs, i - 1, m)
  }

  /** The whole text with every span rewritten at once. */
  function OutRefsRewritten(cs: string, rs: seq<Range>, m: Matcher): string
    requires RangesInOrder(rs, |cs|)
  {
    RewrittenUpTo(cs, rs, |rs|, m) + cs[Resume(rs, |rs|)..]
  }

  /** The sum of the length changes of the first `i` spans. */
  function Shift(cs: string, rs: seq<Range>, i: nat, m: Matcher): int
    requires RangesInOrder(rs, |cs|) && i <= |rs|
  {
    if i == 0 then 0 else Shift(cs, rs, i - 1, m) + (|NewText(cs, rs, i - 1, m)| - (rs[i - 1].end - rs[i - 1].start))
  }

  /** The text between two spans is never of negative length. */
  lemma ResumeBefore(rs: seq<Range>, n: nat, i: nat)
    requires RangesInOrder(rs, n) && i < |rs|
    ensures Resume(rs, i) <= rs[i].start
  {
    if i > 0 {
      assert rs[i - 1].end <= rs[i].start;
    }
  }

  lemma {:induction false} RewrittenLength(cs: string, rs: seq<Range>, i: nat, m: Matcher)
    requires RangesInOrder(rs, |cs|) && i <= |rs|
    ensures |RewrittenUpTo(cs, rs, i, m)| == Resume(rs, i) + Shift(cs, rs, i, m)
  {
    if i > 0 {
      RewrittenLength(cs, rs, i - 1, m);
      ResumeBefore(rs, |cs|, i - 1);
    }
  }

  /**
   * `transform_out_refs`: rewrites the `Out[...]` subscripts at the given
   * spans of the original text, one after the other, shifting each span by
   * the offset the earlier rewrites caused. The result is the simultaneous
   * rewrite of the original spans, its length is the original length plus
   * the sum of the changes, and every rewritten text minus its first four
   * characters is recorded as a dependency.
   */
  method TransformOutRefs(csource: string, rs: seq<Range>) returns (r: string, deps: set<string>)
    requires RangesInOrder(rs, |csource|)
    ensures r == OutRefsRewritten(csource, rs, OutMatcher(CellQuotes))
    ensures |r| == |csource| + Shift(csource, rs, |rs|, OutMatcher(CellQuotes))
    ensures forall d :: d in deps <==> exists k :: 0 <= k < |rs| && d == Drop(NewText(csource, rs, k, OutMatcher(CellQuotes)), 4)
  {
    var m := OutMatcher(CellQuotes);
    var cs := csource;
    var offset: int := 0;
    ghost var head := "";
    ghost var texts := NewTexts(csource, rs, m);
    deps := {};
    for i := 0 to |rs|
      invariant head == RewrittenUpTo(csource, rs, i, m)
      invariant cs == head + csource[Resume(rs, i)..]
      invariant offset == Shift(csource, rs, i, m) == |head| - Resume(rs, i)
      invariant deps == DepsOf(texts, i)
    {
      ResumeBefore(rs, |csource|, i);
      var start, end := rs[i].start + offset, rs[i].end + offset;
      Splice(head, csource, Resume(rs, i), rs[i].start, rs[i].end, start, end);
      var newId := ReSub(cs[start..end], m);
      cs := cs[..start] + newId + cs[end..];
      head := head + csource[Resume(rs, i)..rs[i].start] + newId;
      deps := deps + {Drop(newId, 4)};
      offset := offset + (|newId| - (end - start));
    }
    forall d ensures d in deps <==> exists k :: 0 <= k < |rs| && d == Drop(NewText(csource, rs, k, m), 4) {
      DepsOfMeans(texts, |rs|, d);
    }
    r := cs;
  }

  /** What the first `i` texts of `ts` record: each minus its first four characters. */
  function DepsOf(ts: seq<string>, i: nat): set<string>
    requires i <= |ts|
  {
    if i == 0 then {} else DepsOf(ts, i - 1) + {Drop(ts[i - 1], 4)}
  }

  lemma {:induction false} DepsOfMeans(ts: seq<string>, i: nat, d: string)
    requires i <= |ts|
    ensures d in DepsOf(ts, i) <==> exists k :: 0 <= k < i && d == Drop(ts[k], 4)
  {
    if i > 0 {
      DepsOfMeans(ts, i - 1, d);
      var last := Drop(ts[i - 1], 4);
      if d in DepsOf(ts, i - 1) {
        var k :| 0 <= k < i - 1 && d == Drop(ts[k], 4);
        assert 0 <= k < i && d == Drop(ts[k], 4);
      } else if d == last {
        assert 0 <= i - 1 < i && d == Drop(ts[i - 1], 4);
      } else {
        forall k | 0 <= k < i ensures d != Drop(ts[k], 4) {
          if k < i - 1 {
            assert !(0 <= k < i - 1 && d == Drop(ts[k], 4));
          }
        }
      }
    }
  }

  /** Every span's rewrite, in span order. */
  function NewTexts(cs: string, rs: seq<Range>, m: Matcher): (ts: seq<string>)
    requires RangesInOrder(rs, |cs|)
    ensures |ts| == |rs| && forall k :: 0 <= k < |rs| ==> ts[k] == NewText(cs, rs, k, m)
  {
    seq(|rs|, k requires 0 <= k < |rs| => NewText(cs, rs, k, m))
  }

  /**
   * In `head + src[from..]`, the part of `src` from `s` to `e` sits `|head| - from`
   * further on, at `start` to `end`, and what comes before and after it there
   * is `head` followed by `src` up to `s`, and `src` from `e` on.
   */
  lemma Splice(head: string, src: string, from: nat, s: nat, e: nat, start: int, end: int)
    requires from <= s <= e <= |src|
    requires start == |head| + (s - from) && end == |head| + (e - from)
    ensures 0 <= start <= end <= |head + src[from..]|
    ensures (head + src[from..])[start..end] == src[s..e]
    ensures (head + src[from..])[..start] == head + src[from..s]
    ensures (head + src[from..])[end..] == src[e..]
  {
    var cs := head + src[from..];
    assert cs[start..end] == src[s..e];
    assert cs[..start] == head + src[from..s];
    assert cs[end..] == src[e..];
  }

  // ---------------------------------------------------------------------
  // _replace_export_id

  predicate IsAsciiAlnum(c: char) { '0' <= c <= '9' || 'a' <= c <= 'z' || 'A' <= c <= 'Z' }

  predicate IsAsciiDigit(c: char) { '0' <= c <= '9' }

  /** The length of the longest prefix of `s` whose characters satisfy `p`. */
  function Run(s: string, p: char -> bool): (n: nat)
    ensures n <= |s|
  {
    if s == [] || !p(s[0]) then 0
    else
      var k := Run(s[1..], p);
      k + 1
  }

  /** `\[([a-zA-Z0-9]+)\]\[(\d+)\]` replaced by `Out_\1[\2]`. */
  function MatchExport(s: string): (r: Option<(nat, string)>)
    ensures r.Some? ==> 1 <= r.value.0 <= |s| && s[0] == '['
  {
    if |s| >= 1 && s[0] == '[' then
      var a := Run(s[1..], IsAsciiAlnum);
      var b := 1 + a;
      if a >= 1 && |s| > b + 1 && s[b] == ']' && s[b + 1] == '[' then
        var d := Run(s[b + 2..], IsAsciiDigit);
        var c := b + 2 + d;
        if d >= 1 && |s| > c && s[c] == ']' then
          Some((c + 1, "Out_" + s[1..b] + "[" + s[b + 2..c] + "]"))
        else None
      else None
    else None
  }

  /** `_replace_export_id`. */
  function ReplaceExportId(s: string): string
  {
    ReSub(s, MatchExport)
  }

  /** `[<name>][<n>]` becomes `Out_<name>[<n>]`. */
  lemma ExportIdReplaced(name: string, n: string)
    requires |name| >= 1 && forall i :: 0 <= i < |name| ==> IsAsciiAlnum(name[i])
    requires |n| >= 1 && forall i :: 0 <= i < |n| ==> IsAsciiDigit(n[i])
    ensures ReplaceExportId("[" + name + "][" + n + "]") == "Out_" + name + "[" + n + "]"
  {
    var s := "[" + name + "][" + n + "]";
    ExportIdMatched(name, n);
    ReSubWhole(s, MatchExport, "Out_" + name + "[" + n + "]");
  }

  /** The export pattern matches `[<name>][<n>]` as a whole. */
  lemma ExportIdMatched(name: string, n: string)
    requires |name| >= 1 && forall i :: 0 <= i < |name| ==> IsAsciiAlnum(name[i])
    requires |n| >= 1 && forall i :: 0 <= i < |n| ==> IsAsciiDigit(n[i])
    ensures MatchExport("[" + name + "][" + n + "]") == Some((|name| + |n| + 4, "Out_" + name + "[" + n + "]"))
  {
    var s := "[" + name + "][" + n + "]";
    var b := 1 + |name|;
    var c := b + 2 + |n|;
    ExportRuns(name, n);
    assert |s| == c + 1;
    assert s[0] == '[' && s[b] == ']' && s[b + 1] == '[' && s[c] == ']';
    assert s[1..b] == name && s[b + 2..c] == n;
    assert "Out_" + s[1..b] + "[" + s[b + 2..c] + "]" == "Out_" + name + "[" + n + "]";
  }

  /** In `[<name>][<n>]` the alphanumeric run after `[` is `name` and the digit run after `][` is `n`. */
  lemma ExportRuns(name: string, n: string)
    requires forall i :: 0 <= i < |name| ==> IsAsciiAlnum(name[i])
    requires forall i :: 0 <= i < |n| ==> IsAsciiDigit(n[i])
    ensures Run(("[" + name + "][" + n + "]")[1..], IsAsciiAlnum) == |name|
    ensures Run(("[" + name + "][" + n + "]")[|name| + 3..], IsAsciiDigit) == |n|
  {
    var s := "[" + name + "][" + n + "]";
    assert s[1..] == name + "][" + n + "]";
    assert (name + "][" + n + "]")[|name|] == ']';
    RunExact(s[1..], IsAsciiAlnum, |name|);
    assert s[|name| + 3..] == n + "]";
    RunExact(s[|name| + 3..], IsAsciiDigit, |n|);
  }

  lemma {:induction false} RunExact(s: string, p: char -> bool, k: nat)
    requires k <= |s| && (forall i :: 0 <= i < k ==> p(s[i])) && (k < |s| ==> !p(s[k]))
    ensures Run(s, p) == k
  {
    if k > 0 {
      assert p(s[0]);
      RunExact(s[1..], p, k - 1);
    }
  }

  /** A tag without `[` is left as it is. */
  lemma ExportIdWithoutBracket(s: string)
    requires '[' !in s
    ensures ReplaceExportId(s) == s
  {
    forall i | 0 <= i < |s| ensures !MatchesAt(s, MatchExport, i) {
      assert s[i..][0] == s[i];
    }
    ReSubNoMatch(s, MatchExport);
  }

  // ---------------------------------------------------------------------
  // The execution-count label

  /** What `exec_count` is: an execution number or, as the conversion passes it, a cell id. */
  datatype ExecCount = Count(n: int) | CellId(id: string)

  /**
   * The label that names a cell's output: an execution number is formatted
   * with `"{0:#0{1}x}".format(n, 8)[2:]` (hexadecimal, zero-padded to eight
   * characters with its `0x` or `-0x` prefix, then the first two characters
   * dropped); a cell id is used as it is.
   */
  function Label(ec: ExecCount): string
  {
    match ec
    case Count(n) => if n >= 0 then PadLeft(Hex(n), 6, '0') else "x" + PadLeft(Hex(-n), 5, '0')
    case CellId(id) => id
  }

  /**
   * A non-negative count is labelled by lower-case hexadecimal digits that
   * denote it, six of them while it is below 16^6; a negative count's label
   * starts with `x`.
   */
  lemma LabelOfCount(n: int)
    ensures n >= 0 ==> AllLowerHexDigits(Label(Count(n))) && ParseHex(Label(Count(n))) == n
    ensures 0 <= n < 0x100_0000 ==> |Label(Count(n))| == 6
    ensures Label(Count(n))[0] == 'x' <==> n < 0
  {
    if n >= 0 {
      PadLeftHex(Hex(n), 6);
      ParseHexOfHex(n);
      if n < 0x100_0000 {
        HexShort(n, 6);
      }
    }
  }

  /** A number below 16^k has at most k hexadecimal digits. */
  lemma {:induction false} HexShort(n: nat, k: nat)
    requires k >= 1 && n < Pow16(k)
    ensures |Hex(n)| <= k
  {
    if n >= 16 {
      assert k != 1;
      HexShort(n / 16, k - 1);
    }
  }

  function Pow16(k: nat): nat
  {
    if k == 0 then 1 else 16 * Pow16(k - 1)
  }

  // ---------------------------------------------------------------------
  // The final statement

  /** Generated nodes carry no position. */
  const NoSpan: Span := Span(Pos(0, 0), Pos(0, 0))

  /** `Out_<label>`, the variable holding a cell's output. */
  function OutVar(lbl: string): string
  {
    "Out_" + lbl
  }

  /** The target a tuple element gets: a name stays itself, anything else becomes `Out_<label>[i]`. */
  function TupleTarget(elt: Expr, i: nat, lbl: string): Expr
  {
    if elt.Name? then Name(elt.id, Store, NoSpan)
    else Name(OutVar(lbl) + "[" + Decimal(i) + "]", Store, NoSpan)
  }

  /** The final statement is an expression whose value is a tuple with at least one plain name. */
  predicate EndsInNamedTuple(body: seq<Stmt>)
  {
    && body != []
    && body[|body| - 1].ExprStmt?
    && body[|body| - 1].value.Tuple?
    && HasName(body[|body| - 1].value.elts)
  }

  predicate HasName(elts: seq<Expr>)
  {
    exists i :: 0 <= i < |elts| && elts[i].Name?
  }

  /**
   * `transform_last_node`: a final tuple expression with at least one name
   * among its elements is replaced by an assignment of the tuple to a tuple
   * of targets, preceded by `Out_<label> = [<elements>]` when some element
   * is not a name. The result is the statements that replace the final
   * one, or None when the cell is left alone.
   */
  method TransformLastNode(body: seq<Stmt>, lbl: string) returns (r: Option<seq<Stmt>>)
    ensures r.Some? <==> EndsInNamedTuple(body)
    ensures r.Some? ==> 1 <= |r.value| <= 2
    ensures r.Some? ==>
      var t := body[|body| - 1].value;
      var last := r.value[|r.value| - 1];
      && last.Assign? && last.value == t && |last.targets| == 1 && last.targets[0].Tuple?
      && last.targets[0].ctx == Store && |last.targets[0].elts| == |t.elts|
      && (forall i :: 0 <= i < |t.elts| ==> last.targets[0].elts[i] == TupleTarget(t.elts[i], i, lbl))
      && (|r.value| == 2 <==> exists i :: 0 <= i < |t.elts| && !t.elts[i].Name?)
      && (|r.value| == 2 ==> r.value[0] == Assign([Name(OutVar(lbl), Store, NoSpan)], List(t.elts)))
  {
    if body == [] || !body[|body| - 1].ExprStmt? || !body[|body| - 1].value.Tuple? {
      return None;
    }
    var t := body[|body| - 1].value;
    var targets := [];
    var namedFlag, outExists := false, false;
    for i := 0 to |t.elts|
      invariant |targets| == i
      invariant forall k :: 0 <= k < i ==> targets[k] == TupleTarget(t.elts[k], k, lbl)
      invariant namedFlag <==> exists k :: 0 <= k < i && t.elts[k].Name?
      invariant outExists <==> exists k :: 0 <= k < i && !t.elts[k].Name?
    {
      if t.elts[i].Name? {
        namedFlag := true;
      } else {
        outExists := true;
      }
      targets := targets + [TupleTarget(t.elts[i], i, lbl)];
    }
    if !namedFlag {
      return None;
    }
    var assign := Assign([Tuple(targets, Store)], t);
    var prefix := if outExists then [Assign([Name(OutVar(lbl), Store, NoSpan)], List(t.elts))] else [];
    r := Some(prefix + [assign]);
  }

  /**
   * The targets `transform_last_node` makes for the non-name elements are
   * pairwise different and differ from every name element's target (an
   * identifier holds no `[`), so each element is captured in its own variable.
   */
  lemma TupleTargetsDistinct(elts: seq<Expr>, lbl: string, i: nat, j: nat)
    requires 0 <= i < j < |elts| && !elts[i].Name?
    requires elts[j].Name? ==> '[' !in elts[j].id
    ensures TupleTarget(elts[i], i, lbl) != TupleTarget(elts[j], j, lbl)
  {
    var a := OutVar(lbl) + "[" + Decimal(i) + "]";
    if !elts[j].Name? {
      var b := OutVar(lbl) + "[" + Decimal(j) + "]";
      if a == b {
        assert a[|OutVar(lbl)| + 1..|a| - 1] == Decimal(i);
        assert b[|OutVar(lbl)| + 1..|b| - 1] == Decimal(j);
        DecimalInjective(i, j);
      }
    } else {
      assert a[|OutVar(lbl)|] == '[';
    }
  }

  // ---------------------------------------------------------------------
  // out_assign

  /** The outcome of `out_assign`: the replacement for the final statement (None: unchanged) and the popped target, if any. */
  datatype Captured = Captured(last: Option<Stmt>, outTarget: Option<Expr>)

  /** Some tag of the cell's outputs starts with the label (`tag_flag`). */
  predicate TagFlag(lbl: string, tags: seq<string>)
  {
    exists i :: 0 <= i < |tags| && Take(tags[i], IdLength) == lbl
  }

  /**
   * `out_assign`, rule by rule in the source's order: a final bare call is
   * left alone whatever the tags; with a tag and a final assignment the
   * last target is popped, returned, and replaced by `Out_<label>`; an
   * empty body is left alone (a tagged one raises, as `body[-1]` is read
   * first); a final expression becomes `Out_<label> = <expression>`; a
   * final assignment gains `Out_<label>` as one more target.
   */
  function OutAssign(body: seq<Stmt>, lbl: string, tags: seq<string>): (r: Result<Captured>)
    ensures body != [] && body[|body| - 1].ExprStmt? && body[|body| - 1].value.Call? ==>
      r == Success(Captured(None, None))
    ensures r.Failure? <==> TagFlag(lbl, tags) && (body == [] || (body[|body| - 1].Assign? && body[|body| - 1].targets == []))
    ensures r.Failure? ==> r.error == IndexError
    ensures r.Success? && r.value.outTarget.Some? ==>
      TagFlag(lbl, tags) && body[|body| - 1].Assign? && r.value.outTarget.value in body[|body| - 1].targets
    ensures r.Success? && r.value.last.Some? ==>
      && body != [] && r.value.last.value.Assign?
      && |r.value.last.value.targets| >= 1
      && r.value.last.value.targets[|r.value.last.value.targets| - 1] == Name(OutVar(lbl), Store, NoSpan)
    ensures r.Success? && r.value.last.None? ==>
      body == [] || !(body[|body| - 1].ExprStmt? || body[|body| - 1].Assign?) || body[|body| - 1].value.Call?
  {
    var out := Name(OutVar(lbl), Store, NoSpan);
    if body != [] && body[|body| - 1].ExprStmt? && body[|body| - 1].value.Call? then
      Success(Captured(None, None))
    else if TagFlag(lbl, tags) && body == [] then
      Failure(IndexError)
    else if TagFlag(lbl, tags) && body[|body| - 1].Assign? then
      var ts := body[|body| - 1].targets;
      if ts == [] then Failure(IndexError)
      else Success(Captured(Some(Assign(ts[..|ts| - 1] + [out], body[|body| - 1].value)), Some(ts[|ts| - 1])))
    else if body == [] then
      Success(Captured(None, None))
    else if body[|body| - 1].ExprStmt? then
      Success(Captured(Some(Assign([out], body[|body| - 1].value)), None))
    else if body[|body| - 1].Assign? then
      Success(Captured(Some(Assign(body[|body| - 1].targets + [out], body[|body| - 1].value)), None))
    else
      Success(Captured(None, None))
  }

  /**
   * Whatever rule applies, a rewritten final statement still evaluates the
   * original value and stores it in `Out_<label>`; only a tagged cell loses
   * a target, the one `out_assign` returns.
   */
  lemma OutAssignKeepsValue(body: seq<Stmt>, lbl: string, tags: seq<string>)
    requires OutAssign(body, lbl, tags).Success? && OutAssign(body, lbl, tags).value.last.Some?
    ensures var last := body[|body| - 1];
      var rewritten := OutAssign(body, lbl, tags).value.last.value;
      && rewritten.value == last.value
      && (last.Assign? && !TagFlag(lbl, tags) ==> rewritten.targets == last.targets + [Name(OutVar(lbl), Store, NoSpan)])
      && (last.Assign? && TagFlag(lbl, tags) ==>
            rewritten.targets + [OutAssign(body, lbl, tags).value.outTarget.value]
            == last.targets[..|last.targets| - 1] + [Name(OutVar(lbl), Store, NoSpan), last.targets[|last.targets| - 1]])
      && (last.ExprStmt? ==> rewritten.targets == [Name(OutVar(lbl), Store, NoSpan)])
  {
  }
}
