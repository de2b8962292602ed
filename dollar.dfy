/**
 * `convert_dollar`: the scanner that finds `name$suffix` references in a
 * token stream and prints them back through `run_replacer`.
 */
module Dollar {
  import opened Wrappers
  import opened Text
  import opened Refs

  /** The token types the scanner tells apart: NAME (1), NUMBER (2) and any other. */
  datatype TokenKind = NameTok | NumberTok | OtherTok

  /** A token as the tokenizer reports it: its type, its text and its span. */
  datatype Token = Token(kind: TokenKind, text: string, start: Pos, end: Pos)

  /** Every token ends at or after its start. */
  predicate WellFormed(tokens: seq<Token>)
  {
    forall i :: 0 <= i < |tokens| ==> PosLe(tokens[i].start, tokens[i].end)
  }

  /** Every token starts at or after the end of the token before it. */
  predicate InOrder(tokens: seq<Token>)
  {
    forall i :: 0 < i < |tokens| ==> PosLe(tokens[i - 1].end, tokens[i].start)
  }

  /**
   * The inverse of the tag table: `inputTags` lists the (cell id, tag) pairs
   * of the dictionary in its order; every tag maps to the cell id of its last
   * pair, as a dict comprehension keeps the last value written for a key.
   */
  function TagCells(inputTags: seq<(string, string)>): (r: map<string, string>)
    ensures forall tag :: tag in r <==> exists i :: 0 <= i < |inputTags| && inputTags[i].1 == tag
    ensures forall i :: 0 <= i < |inputTags| && LastWithTag(inputTags, i) ==> r[inputTags[i].1] == inputTags[i].0
  {
    if inputTags == [] then map[]
    else
      var init := inputTags[..|inputTags| - 1];
      var last := inputTags[|inputTags| - 1];
      assert init + [last] == inputTags;
      TagCellsStep(init, last, TagCells(init));
      TagCells(init)[last.1 := last.0]
  }

  /** One more pair: its tag is added, or now maps to its cell. */
  lemma TagCellsStep(init: seq<(string, string)>, last: (string, string), r0: map<string, string>)
    requires forall tag :: tag in r0 <==> exists i :: 0 <= i < |init| && init[i].1 == tag
    requires forall i :: 0 <= i < |init| && LastWithTag(init, i) ==> r0[init[i].1] == init[i].0
    ensures var s, r := init + [last], r0[last.1 := last.0];
      && (forall tag :: tag in r <==> exists i :: 0 <= i < |s| && s[i].1 == tag)
      && (forall i :: 0 <= i < |s| && LastWithTag(s, i) ==> r[s[i].1] == s[i].0)
  {
    var s, r := init + [last], r0[last.1 := last.0];
    forall tag ensures tag in r <==> exists i :: 0 <= i < |s| && s[i].1 == tag {
      if tag == last.1 {
        assert s[|init|].1 == tag;
      } else if tag in r0 {
        var i :| 0 <= i < |init| && init[i].1 == tag;
        assert s[i].1 == tag;
      } else {
        forall i | 0 <= i < |s| ensures s[i].1 != tag {
          if i < |init| {
            assert s[i] == init[i];
          }
        }
      }
    }
    forall i | 0 <= i < |s| && LastWithTag(s, i) ensures r[s[i].1] == s[i].0 {
      if i < |init| {
        assert s[|init|].1 != s[i].1;
        assert s[i] == init[i];
        assert LastWithTag(init, i) by {
          forall j | i < j < |init| ensures init[j].1 != init[i].1 {
            assert s[j] == init[j];
          }
        }
      }
    }
  }

  /** No pair after the `i`-th carries the same tag. */
  predicate LastWithTag(inputTags: seq<(string, string)>, i: nat)
    requires i < |inputTags|
  {
    forall j :: i < j < |inputTags| ==> inputTags[j].1 != inputTags[i].1
  }

  /** `re.match(r"[0-9a-f]+$", s)`: `$` also matches just before a final newline. */
  predicate HexMatch(s: string)
  {
    IsLowerHex(s) || (|s| > 1 && s[|s| - 1] == '\n' && IsLowerHex(s[..|s| - 1]))
  }

  /** Python's `s[:-1]` applied `k` times. */
  function Trimmed(s: string, k: nat): (r: string)
    ensures r <= s
  {
    if k <= |s| then s[..|s| - k] else ""
  }

  /** The condition of the trimming loop, for the current text and end of a NUMBER token. */
  predicate KeepTrimming(t: Token, text: string, end: Pos)
  {
    && !HexMatch(text)
    && (end.line > t.start.line || end.col > t.start.col)
    && end.col > 0
  }

  /**
   * Drops one trailing character at a time from a NUMBER token until what
   * is left is lower-case hex, the end reaches the token's start, or the end
   * reaches column 0. The end column goes down by exactly the number of
   * characters dropped, and the loop stops at the first place it may.
   */
  method TrimNumber(t: Token) returns (text: string, end: Pos)
    ensures end.line == t.end.line && end.col <= t.end.col
    ensures text == Trimmed(t.text, t.end.col - end.col)
    ensures !KeepTrimming(t, text, end)
    ensures forall k :: 0 <= k < t.end.col - end.col ==>
      KeepTrimming(t, Trimmed(t.text, k), Pos(t.end.line, t.end.col - k))
    ensures PosLe(t.start, t.end) ==> PosLe(t.start, end)
    ensures t.kind == NumberTok ==> (text, end) == Piece(t)
  {
    text, end := t.text, t.end;
    while KeepTrimming(t, text, end)
      invariant end.line == t.end.line && end.col <= t.end.col
      invariant text == Trimmed(t.text, t.end.col - end.col)
      invariant forall k :: 0 <= k < t.end.col - end.col ==>
        KeepTrimming(t, Trimmed(t.text, k), Pos(t.end.line, t.end.col - k))
      invariant PosLe(t.start, t.end) ==> PosLe(t.start, end)
      decreases end.col
    {
      text := if text == [] then [] else text[..|text| - 1];
      end := Pos(end.line, end.col - 1);
    }
    TrimFromStops(t, t.end.col - end.col, 0);
  }

  /** The number of characters the trimming loop drops from `t`, counting from `k` already dropped. */
  function TrimFrom(t: Token, k: nat): (n: nat)
    requires k <= t.end.col
    ensures k <= n <= t.end.col
    decreases t.end.col - k
  {
    if KeepTrimming(t, Trimmed(t.text, k), Pos(t.end.line, t.end.col - k)) then TrimFrom(t, k + 1) else k
  }

  /** The count `TrimFrom` returns is the first place from `j` on where the loop may stop. */
  lemma {:induction false} TrimFromStops(t: Token, k: nat, j: nat)
    requires j <= k <= t.end.col
    requires forall i :: j <= i < k ==> KeepTrimming(t, Trimmed(t.text, i), Pos(t.end.line, t.end.col - i))
    requires !KeepTrimming(t, Trimmed(t.text, k), Pos(t.end.line, t.end.col - k))
    ensures TrimFrom(t, j) == k
    decreases k - j
  {
    if j < k {
      TrimFromStops(t, k, j + 1);
    }
  }

  /**
   * What a token adds to the suffix of an open reference, and where the
   * suffix then ends: a NUMBER its text as the trimming loop leaves it,
   * anything else its whole text.
   */
  function Piece(t: Token): (string, Pos)
  {
    if t.kind == NumberTok then
      var k := TrimFrom(t, 0);
      (Trimmed(t.text, k), Pos(t.end.line, t.end.col - k))
    else (t.text, t.end)
  }

  /**
   * Tokens `i` (a NAME) and `j` (a `$` that begins exactly where the NAME
   * ends) open a reference to `name` that starts at `start`.
   */
  predicate OpensRef(tokens: seq<Token>, i: nat, j: nat, start: Pos, name: string)
  {
    && i < j < |tokens|
    && tokens[i].kind == NameTok
    && tokens[j].text == "$"
    && tokens[i].end == tokens[j].start
    && tokens[i].start == start
    && tokens[i].text == name
  }

  /**
   * What every reference the scanner emits satisfies: it starts at a NAME
   * token that a `$` follows without a gap and bears that NAME; a suffix that
   * is a known tag gives that tag and the tag's cell, any other suffix is the
   * cell id itself and no tag; its ambiguity flag is `is_ambiguous`.
   */
  ghost predicate Emitted(tokens: seq<Token>, tagCells: map<string, string>, outputTags: map<string, seq<string>>, u: DataflowRef)
  {
    && (exists i, j :: OpensRef(tokens, i, j, u.startPos, u.name))
    && (u.cellTag.Some? ==> u.cellTag.value in tagCells && u.cellId == tagCells[u.cellTag.value])
    && (u.cellTag.None? ==> u.cellId !in tagCells)
    && u.ambiguous == IsAmbiguous(u.name, u.cellId, outputTags)
  }

  lemma AppendEmitted(tokens: seq<Token>, tagCells: map<string, string>, outputTags: map<string, seq<string>>,
                      updates: seq<DataflowRef>, ref: DataflowRef)
    requires forall u :: u in updates ==> Emitted(tokens, tagCells, outputTags, u)
    requires Emitted(tokens, tagCells, outputTags, ref)
    ensures forall u :: u in updates + [ref] ==> Emitted(tokens, tagCells, outputTags, u)
  {
  }

  /**
   * The ordering facts the scanner keeps for a well-formed, ordered token
   * stream after `idx` tokens: the references emitted so far are in order
   * and end at or before `bound`, and what is still open starts at or after
   * it and ends within the tokens read.
   */
  ghost predicate Ordered(tokens: seq<Token>, idx: nat, dollarPos: Option<(Pos, Pos)>, lastToken: Option<Token>,
                          updates: seq<DataflowRef>, bound: Pos)
  {
    && idx <= |tokens|
    && SpansInOrder(updates)
    && (forall u :: u in updates ==> PosLe(u.endPos, bound))
    && (lastToken.Some? ==> PosLe(bound, lastToken.value.start))
    && (dollarPos.Some? ==> idx > 0 && PosLe(bound, dollarPos.value.0) && PosLe(dollarPos.value.0, dollarPos.value.1)
                              && PosLe(dollarPos.value.1, tokens[idx - 1].end))
    && (idx > 0 ==> PosLe(bound, tokens[idx - 1].end))
    && (idx == 0 ==> bound == Pos(0, 0))
  }

  /** Reading a token that emits nothing keeps the ordering facts, whatever it opens, extends or remembers. */
  lemma OrderedStep(tokens: seq<Token>, idx: nat, dollarPos: Option<(Pos, Pos)>, lastToken: Option<Token>,
                    updates: seq<DataflowRef>, bound: Pos, dollarPos': Option<(Pos, Pos)>, lastToken': Option<Token>)
    requires WellFormed(tokens) && InOrder(tokens) && idx < |tokens|
    requires Ordered(tokens, idx, dollarPos, lastToken, updates, bound)
    requires dollarPos'.Some? ==>
      PosLe(bound, dollarPos'.value.0) && PosLe(dollarPos'.value.0, dollarPos'.value.1) && PosLe(dollarPos'.value.1, tokens[idx].end)
    requires lastToken'.Some? ==> lastToken' == lastToken || lastToken' == Some(tokens[idx])
    ensures Ordered(tokens, idx + 1, dollarPos', lastToken', updates, bound)
  {
    assert PosLe(tokens[idx].start, tokens[idx].end);
    if idx > 0 {
      assert PosLe(tokens[idx - 1].end, tokens[idx].start);
    }
  }

  /** Emitting the open reference at a token that does not extend it keeps the ordering facts. */
  lemma OrderedEmit(tokens: seq<Token>, idx: nat, dollarPos: Option<(Pos, Pos)>, lastToken: Option<Token>,
                    updates: seq<DataflowRef>, bound: Pos, ref: DataflowRef, lastToken': Option<Token>)
    requires WellFormed(tokens) && InOrder(tokens) && idx < |tokens|
    requires Ordered(tokens, idx, dollarPos, lastToken, updates, bound)
    requires dollarPos.Some? && ref.startPos == dollarPos.value.0 && ref.endPos == dollarPos.value.1
    requires lastToken' == None || lastToken' == Some(tokens[idx])
    ensures Ordered(tokens, idx + 1, None, lastToken', updates + [ref], tokens[idx].start)
  {
    var next := tokens[idx].start;
    assert PosLe(tokens[idx - 1].end, next);
    assert PosLe(next, tokens[idx].end);
    var r := updates + [ref];
    forall i, j | 0 <= i < j < |r| ensures PosLe(r[i].endPos, r[j].startPos) {
      assert r[i] == updates[i] && updates[i] in updates;
    }
    forall u | u in r ensures PosLe(u.endPos, next) {
      if u in updates {
        assert PosLe(u.endPos, bound);
      }
    }
  }

  /** The variables of `convert_dollar`'s loop: `dollar_pos`, `var_name`, `cell_ref` and `last_token`. */
  datatype Scanner = Scanner(dollarPos: Option<(Pos, Pos)>, varName: string, cellRef: string, lastToken: Option<Token>)

  /**
   * The reference a closed `name$suffix` stands for: a suffix that is a
   * known tag names that tag and the tag's cell, any other suffix is the
   * cell id itself; the flag is `is_ambiguous` of the name and that cell.
   */
  function Resolve(start: Pos, end: Pos, name: string, suffix: string,
                   tagCells: map<string, string>, outputTags: map<string, seq<string>>): DataflowRef
  {
    var cellTag := if suffix in tagCells then Some(suffix) else None;
    var cellId := if suffix in tagCells then tagCells[suffix] else suffix;
    DataflowRef(start, end, name, cellId, cellTag, IsAmbiguous(name, cellId, outputTags))
  }

  /** The reference the scanner emits when it closes the one open in `sc`. */
  function Pending(sc: Scanner, tagCells: map<string, string>, outputTags: map<string, seq<string>>): seq<DataflowRef>
  {
    if sc.dollarPos.Some?
    then [Resolve(sc.dollarPos.value.0, sc.dollarPos.value.1, sc.varName, sc.cellRef, tagCells, outputTags)]
    else []
  }

  /** Token `t` extends the suffix of the reference open in `sc`: a NAME or NUMBER starting where the suffix ends. */
  predicate ExtendsOpen(sc: Scanner, t: Token)
  {
    && sc.dollarPos.Some?
    && (t.kind == NumberTok || t.kind == NameTok)
    && sc.dollarPos.value.1 == t.start
  }

  /**
   * One turn of `convert_dollar`'s loop as a function of the token and the
   * scanner: the next scanner, and the references emitted on the way.
   */
  function Step(t: Token, tagCells: map<string, string>, outputTags: map<string, seq<string>>, sc: Scanner)
    : (r: (Scanner, seq<DataflowRef>))
    ensures |r.1| <= 1
  {
    if t.text == "$" then
      if sc.lastToken.Some? && sc.lastToken.value.end == t.start
      then (sc.(dollarPos := Some((sc.lastToken.value.start, t.end)), varName := sc.lastToken.value.text), [])
      else (sc, [])
    else if ExtendsOpen(sc, t) then
      (sc.(cellRef := sc.cellRef + Piece(t).0, dollarPos := Some((sc.dollarPos.value.0, Piece(t).1))), [])
    else if sc.dollarPos.Some? then
      (Scanner(None, "", "", if t.kind == NameTok then Some(t) else None), Pending(sc, tagCells, outputTags))
    else if t.kind == NameTok then (sc.(lastToken := Some(t)), [])
    else (sc, [])
  }

  /** The scanner and the references emitted after reading all of `tokens`. */
  function Scan(tokens: seq<Token>, tagCells: map<string, string>, outputTags: map<string, seq<string>>)
    : (r: (Scanner, seq<DataflowRef>))
    ensures |r.1| <= |tokens|
  {
    if tokens == [] then (Scanner(None, "", "", None), [])
    else
      var p := Scan(tokens[..|tokens| - 1], tagCells, outputTags);
      var q := Step(tokens[|tokens| - 1], tagCells, outputTags, p.0);
      (q.0, p.1 + q.1)
  }

  /** Reading one more token is one more `Step`. */
  lemma ScanSnoc(tokens: seq<Token>, m: nat, tagCells: map<string, string>, outputTags: map<string, seq<string>>)
    requires m < |tokens|
    ensures var p := Scan(tokens[..m], tagCells, outputTags);
      var q := Step(tokens[m], tagCells, outputTags, p.0);
      Scan(tokens[..m + 1], tagCells, outputTags) == (q.0, p.1 + q.1)
  {
    assert tokens[..m + 1][..m] == tokens[..m];
  }

  /** `ScanSnoc` for a known scanner state and step. */
  lemma ScanSnocAt(tokens: seq<Token>, m: nat, tagCells: map<string, string>, outputTags: map<string, seq<string>>,
                   p: (Scanner, seq<DataflowRef>), q: (Scanner, seq<DataflowRef>))
    requires m < |tokens| && p == Scan(tokens[..m], tagCells, outputTags) && q == Step(tokens[m], tagCells, outputTags, p.0)
    ensures Scan(tokens[..m + 1], tagCells, outputTags) == (q.0, p.1 + q.1)
  {
    ScanSnoc(tokens, m, tagCells, outputTags);
  }

  /** Where the scanner's state came from: the tokens that opened the pending reference, the last NAME, and the emitted end. */
  datatype Trace = Trace(nameIdx: nat, dollarIdx: nat, lastIdx: nat, bound: Pos)

  /** What holds of the scanner after it has read `idx` tokens. */
  ghost predicate ScanInv(tokens: seq<Token>, idx: nat, tagCells: map<string, string>, outputTags: map<string, seq<string>>,
                          sc: Scanner, updates: seq<DataflowRef>, tr: Trace)
  {
    && idx <= |tokens|
    && (forall u :: u in updates ==> Emitted(tokens, tagCells, outputTags, u))
    && (sc.lastToken.Some? ==>
          tr.lastIdx < idx && tokens[tr.lastIdx] == sc.lastToken.value && sc.lastToken.value.kind == NameTok)
    && (sc.dollarPos.Some? ==> tr.dollarIdx < idx && OpensRef(tokens, tr.nameIdx, tr.dollarIdx, sc.dollarPos.value.0, sc.varName))
    && (WellFormed(tokens) && InOrder(tokens) ==> Ordered(tokens, idx, sc.dollarPos, sc.lastToken, updates, tr.bound))
  }

  /**
   * The turn of the loop at a token that does not extend the open reference:
   * the reference is resolved and emitted, and the scanner starts afresh,
   * remembering the token only if it is a NAME.
   */
  method EmitRef(tokens: seq<Token>, idx: nat, tagCells: map<string, string>, outputTags: map<string, seq<string>>,
                 sc: Scanner, updates: seq<DataflowRef>, ghost tr: Trace)
    returns (sc': Scanner, updates': seq<DataflowRef>, ghost tr': Trace)
    requires idx < |tokens| && ScanInv(tokens, idx, tagCells, outputTags, sc, updates, tr) && sc.dollarPos.Some?
    ensures ScanInv(tokens, idx + 1, tagCells, outputTags, sc', updates', tr')
    ensures sc' == Scanner(None, "", "", if tokens[idx].kind == NameTok then Some(tokens[idx]) else None)
    ensures updates' == updates + Pending(sc, tagCells, outputTags)
  {
    var t := tokens[idx];
    var (start, end) := sc.dollarPos.value;
    var cellRef := sc.cellRef;
    var cellTag, cellId := if cellRef in tagCells then Some(cellRef) else None, if cellRef in tagCells then tagCells[cellRef] else cellRef;
    var ref := DataflowRef(start, end, sc.varName, cellId, cellTag, IsAmbiguous(sc.varName, cellId, outputTags));
    assert OpensRef(tokens, tr.nameIdx, tr.dollarIdx, ref.startPos, ref.name);
    AppendEmitted(tokens, tagCells, outputTags, updates, ref);
    sc' := Scanner(None, "", "", if t.kind == NameTok then Some(t) else None);
    updates' := updates + [ref];
    tr' := tr.(bound := t.start, lastIdx := idx);
    if WellFormed(tokens) && InOrder(tokens) {
      OrderedEmit(tokens, idx, sc.dollarPos, sc.lastToken, updates, tr.bound, ref, sc'.lastToken);
    }
  }

  /** One turn of the token loop of `convert_dollar`, on token `idx`. */
  method ScanToken(tokens: seq<Token>, idx: nat, tagCells: map<string, string>, outputTags: map<string, seq<string>>,
                   sc: Scanner, updates: seq<DataflowRef>, ghost tr: Trace)
    returns (sc': Scanner, updates': seq<DataflowRef>, ghost tr': Trace)
    requires idx < |tokens| && ScanInv(tokens, idx, tagCells, outputTags, sc, updates, tr)
    ensures ScanInv(tokens, idx + 1, tagCells, outputTags, sc', updates', tr')
    ensures (sc', updates') == (Step(tokens[idx], tagCells, outputTags, sc).0, updates + Step(tokens[idx], tagCells, outputTags, sc).1)
  {
    var t := tokens[idx];
    ghost var good := WellFormed(tokens) && InOrder(tokens);
    sc', updates', tr' := sc, updates, tr;
    assert updates + [] == updates;
    if t.text == "$" {
      sc', tr' := ScanDollarSign(tokens, idx, tagCells, outputTags, sc, updates, tr);
    } else if sc.dollarPos.Some? {
      sc', updates', tr' := ScanAfterDollar(tokens, idx, tagCells, outputTags, sc, updates, tr);
    } else if t.kind == NameTok {
      sc' := sc.(lastToken := Some(t));
      tr' := tr.(lastIdx := idx);
      if good {
        OrderedStep(tokens, idx, sc.dollarPos, sc.lastToken, updates, tr.bound, sc.dollarPos, Some(t));
      }
    } else if good {
      OrderedStep(tokens, idx, sc.dollarPos, sc.lastToken, updates, tr.bound, sc.dollarPos, sc.lastToken);
    }
  }

  /** A `$` token: right after a name it opens a reference at that name. */
  method ScanDollarSign(tokens: seq<Token>, idx: nat, tagCells: map<string, string>, outputTags: map<string, seq<string>>,
                        sc: Scanner, updates: seq<DataflowRef>, ghost tr: Trace)
    returns (sc': Scanner, ghost tr': Trace)
    requires idx < |tokens| && ScanInv(tokens, idx, tagCells, outputTags, sc, updates, tr)
    requires tokens[idx].text == "$"
    ensures ScanInv(tokens, idx + 1, tagCells, outputTags, sc', updates, tr')
    ensures sc' == Step(tokens[idx], tagCells, outputTags, sc).0 && Step(tokens[idx], tagCells, outputTags, sc).1 == []
  {
    var t := tokens[idx];
    ghost var good := WellFormed(tokens) && InOrder(tokens);
    sc', tr' := sc, tr;
    if sc.lastToken.Some? && sc.lastToken.value.end == t.start {
      var name := sc.lastToken.value;
      sc' := sc.(dollarPos := Some((name.start, t.end)), varName := name.text);
      tr' := tr.(nameIdx := tr.lastIdx, dollarIdx := idx);
      if good {
        assert PosLe(name.start, name.end) by {
          assert tokens[tr.lastIdx] == name;
        }
        assert PosLe(t.start, t.end);
        OrderedStep(tokens, idx, sc.dollarPos, sc.lastToken, updates, tr.bound, sc'.dollarPos, sc.lastToken);
      }
    } else if good {
      OrderedStep(tokens, idx, sc.dollarPos, sc.lastToken, updates, tr.bound, sc.dollarPos, sc.lastToken);
    }
  }

  /**
   * A token while a reference is open: a number or a name right after it
   * extends the cell reference, anything else closes the reference.
   */
  method ScanAfterDollar(tokens: seq<Token>, idx: nat, tagCells: map<string, string>, outputTags: map<string, seq<string>>,
                         sc: Scanner, updates: seq<DataflowRef>, ghost tr: Trace)
    returns (sc': Scanner, updates': seq<DataflowRef>, ghost tr': Trace)
    requires idx < |tokens| && ScanInv(tokens, idx, tagCells, outputTags, sc, updates, tr)
    requires tokens[idx].text != "$" && sc.dollarPos.Some?
    ensures ScanInv(tokens, idx + 1, tagCells, outputTags, sc', updates', tr')
    ensures (sc', updates') == (Step(tokens[idx], tagCells, outputTags, sc).0, updates + Step(tokens[idx], tagCells, outputTags, sc).1)
  {
    var t := tokens[idx];
    ghost var good := WellFormed(tokens) && InOrder(tokens);
    sc', updates', tr' := sc, updates, tr;
    assert updates + [] == updates;
    var (start, end) := sc.dollarPos.value;
    if t.kind == NumberTok && end == t.start {
      var text, trimmedEnd := TrimNumber(t);
      sc' := sc.(cellRef := sc.cellRef + text, dollarPos := Some((start, trimmedEnd)));
      if good {
        assert PosLe(t.start, t.end);
        OrderedStep(tokens, idx, sc.dollarPos, sc.lastToken, updates, tr.bound, sc'.dollarPos, sc.lastToken);
      }
    } else if t.kind == NameTok && end == t.start {
      sc' := sc.(cellRef := sc.cellRef + t.text, dollarPos := Some((start, t.end)));
      if good {
        assert PosLe(t.start, t.end);
        OrderedStep(tokens, idx, sc.dollarPos, sc.lastToken, updates, tr.bound, sc'.dollarPos, sc.lastToken);
      }
    } else {
      sc', updates', tr' := EmitRef(tokens, idx, tagCells, outputTags, sc, updates, tr);
    }
  }

  /**
   * The token loop of `convert_dollar`. Every reference it emits satisfies
   * `Emitted`; for a well-formed, ordered token stream the spans are well
   * formed and come left to right without overlapping. A reference still
   * open when the stream ends is not emitted.
   */
  method ScanDollar(tokens: seq<Token>, tagCells: map<string, string>, outputTags: map<string, seq<string>>)
    returns (updates: seq<DataflowRef>)
    ensures forall u :: u in updates ==> Emitted(tokens, tagCells, outputTags, u)
    ensures WellFormed(tokens) && InOrder(tokens) ==> SpansInOrder(updates)
    ensures updates == Scan(tokens, tagCells, outputTags).1
  {
    var sc := Scanner(None, "", "", None);
    ghost var tr := Trace(0, 0, 0, Pos(0, 0));
    updates := [];
    for idx := 0 to |tokens|
      invariant ScanInv(tokens, idx, tagCells, outputTags, sc, updates, tr)
      invariant (sc, updates) == Scan(tokens[..idx], tagCells, outputTags)
    {
      ScanSnoc(tokens, idx, tagCells, outputTags);
      sc, updates, tr := ScanToken(tokens, idx, tagCells, outputTags, sc, updates, tr);
    }
    assert tokens[..|tokens|] == tokens;
  }

  /**
   * `convert_dollar`: scans the tokens of `s` and patches the references it
   * found. The result is what `run_replacer` makes of those references, and
   * when the tokens are well formed and ordered and every reference lies on
   * one line of `s`, each line is its original text with its references'
   * spans replaced at once.
   */
  method ConvertDollar(s: string, tokens: seq<Token>, f: Replacer, inputTags: seq<(string, string)>, outputTags: map<string, seq<string>>)
    returns (r: Result<string>, refs: seq<DataflowRef>)
    ensures refs == Scan(tokens, TagCells(inputTags), outputTags).1
    ensures r == RunReplacerSpec(s, refs, f)
    ensures WellFormed(tokens) && InOrder(tokens) && PatchesFor(refs, SplitLines(s)) ==>
      r == Success(JoinLines(PatchedLines(SplitLines(s), refs, f)))
  {
    refs := ScanDollar(tokens, TagCells(inputTags), outputTags);
    r := RunReplacer(s, refs, f);
    if WellFormed(tokens) && InOrder(tokens) && PatchesFor(refs, SplitLines(s)) {
      SpansInOrderDisjoint(refs, SplitLines(s));
      RunReplacerSimultaneous(s, refs, f);
    }
  }
  // ---------------------------------------------------------------------
  // What the scanner finds

  /** Where the suffix of a reference opened by tokens `i` (a NAME) and `i + 1` (a `$`) ends before token `m`. */
  function SuffixEnd(tokens: seq<Token>, i: nat, m: nat): Pos
    requires i + 2 <= m <= |tokens|
  {
    if m == i + 2 then tokens[i + 1].end else Piece(tokens[m - 1]).1
  }

  /** The suffix text that tokens `i + 2` to `m - 1` spell. */
  function SuffixText(tokens: seq<Token>, i: nat, m: nat): string
    requires i + 2 <= m <= |tokens|
    decreases m
  {
    if m == i + 2 then "" else SuffixText(tokens, i, m - 1) + Piece(tokens[m - 1]).0
  }

  /** Token `m` continues the suffix: a NAME or NUMBER, not a `$`, that starts where the suffix ends. */
  predicate Extends(tokens: seq<Token>, i: nat, m: nat)
    requires i + 2 <= m < |tokens|
  {
    && tokens[m].text != "$"
    && (tokens[m].kind == NameTok || tokens[m].kind == NumberTok)
    && tokens[m].start == SuffixEnd(tokens, i, m)
  }

  /**
   * Tokens `i` to `k` spell `name$suffix` and close it: a NAME, a `$` that
   * begins where the NAME ends, tokens that each continue the suffix, and
   * token `k`, which is no `$` and does not continue it.
   */
  predicate DollarRef(tokens: seq<Token>, i: nat, k: nat)
  {
    && i + 2 <= k < |tokens|
    && tokens[i].kind == NameTok && tokens[i].text != "$"
    && tokens[i + 1].text == "$" && tokens[i].end == tokens[i + 1].start
    && (forall m :: i + 2 <= m < k ==> Extends(tokens, i, m))
    && tokens[k].text != "$" && !Extends(tokens, i, k)
  }

  /** With no reference open the collected suffix is empty. */
  lemma {:induction false} ClosedScannerEmpty(tokens: seq<Token>, tagCells: map<string, string>, outputTags: map<string, seq<string>>)
    ensures Scan(tokens, tagCells, outputTags).0.dollarPos.None? ==> Scan(tokens, tagCells, outputTags).0.cellRef == ""
  {
    if tokens != [] {
      ClosedScannerEmpty(tokens[..|tokens| - 1], tagCells, outputTags);
    }
  }

  /** A NAME that continues no open reference closes it (if any) and becomes the last name seen. */
  lemma StepName(t: Token, tagCells: map<string, string>, outputTags: map<string, seq<string>>, sc: Scanner)
    requires t.kind == NameTok && t.text != "$" && !ExtendsOpen(sc, t)
    requires sc.dollarPos.None? ==> sc.cellRef == ""
    ensures var q := Step(t, tagCells, outputTags, sc);
      && q.0.dollarPos.None? && q.0.cellRef == "" && q.0.lastToken == Some(t)
      && q.1 == Pending(sc, tagCells, outputTags)
  {
  }

  /** The scanner right after the `$` of a `name$suffix`: the reference is open with an empty suffix. */
  lemma OpenedAt(tokens: seq<Token>, i: nat, k: nat, tagCells: map<string, string>, outputTags: map<string, seq<string>>)
    requires DollarRef(tokens, i, k)
    requires !ExtendsOpen(Scan(tokens[..i], tagCells, outputTags).0, tokens[i])
    ensures var before := Scan(tokens[..i], tagCells, outputTags);
      Scan(tokens[..i + 2], tagCells, outputTags) ==
        (Scanner(Some((tokens[i].start, tokens[i + 1].end)), tokens[i].text, "", Some(tokens[i])),
         before.1 + Pending(before.0, tagCells, outputTags))
  {
    var before := Scan(tokens[..i], tagCells, outputTags);
    var pending := before.1 + Pending(before.0, tagCells, outputTags);
    ScanSnoc(tokens, i, tagCells, outputTags);
    ClosedScannerEmpty(tokens[..i], tagCells, outputTags);
    StepName(tokens[i], tagCells, outputTags, before.0);
    var mid := Scan(tokens[..i + 1], tagCells, outputTags);
    assert mid.1 == pending;
    ScanSnoc(tokens, i + 1, tagCells, outputTags);
    var q := Step(tokens[i + 1], tagCells, outputTags, mid.0);
    assert q == (mid.0.(dollarPos := Some((tokens[i].start, tokens[i + 1].end)), varName := tokens[i].text), []);
    assert pending + [] == pending;
  }

  /** A token that continues the suffix appends its piece and moves the end. */
  lemma ExtendStep(tokens: seq<Token>, i: nat, k: nat, m: nat, sc: Scanner, tagCells: map<string, string>, outputTags: map<string, seq<string>>)
    requires DollarRef(tokens, i, k) && i + 2 <= m < k
    requires sc == Scanner(Some((tokens[i].start, SuffixEnd(tokens, i, m))), tokens[i].text, SuffixText(tokens, i, m), Some(tokens[i]))
    ensures Step(tokens[m], tagCells, outputTags, sc) ==
      (Scanner(Some((tokens[i].start, SuffixEnd(tokens, i, m + 1))), tokens[i].text, SuffixText(tokens, i, m + 1), Some(tokens[i])), [])
  {
    assert Extends(tokens, i, m);
    assert ExtendsOpen(sc, tokens[m]);
  }

  /**
   * While the suffix of a `name$suffix` is being read, the scanner holds
   * exactly the name, the suffix read so far and its end, and what was
   * emitted is what was emitted before the NAME plus the reference the NAME closed.
   */
  lemma {:induction false} SuffixScan(tokens: seq<Token>, i: nat, k: nat, m: nat, emitted: seq<DataflowRef>,
                                      tagCells: map<string, string>, outputTags: map<string, seq<string>>)
    requires DollarRef(tokens, i, k) && i + 2 <= m <= k
    requires !ExtendsOpen(Scan(tokens[..i], tagCells, outputTags).0, tokens[i])
    requires emitted == Scan(tokens[..i], tagCells, outputTags).1 + Pending(Scan(tokens[..i], tagCells, outputTags).0, tagCells, outputTags)
    ensures Scan(tokens[..m], tagCells, outputTags) ==
      (Scanner(Some((tokens[i].start, SuffixEnd(tokens, i, m))), tokens[i].text, SuffixText(tokens, i, m), Some(tokens[i])), emitted)
    decreases m
  {
    if m == i + 2 {
      OpenedAt(tokens, i, k, tagCells, outputTags);
    } else {
      var n := m - 1;
      SuffixScan(tokens, i, k, n, emitted, tagCells, outputTags);
      var sc := Scanner(Some((tokens[i].start, SuffixEnd(tokens, i, n))), tokens[i].text, SuffixText(tokens, i, n), Some(tokens[i]));
      var sc' := Scanner(Some((tokens[i].start, SuffixEnd(tokens, i, n + 1))), tokens[i].text, SuffixText(tokens, i, n + 1), Some(tokens[i]));
      ExtendStep(tokens, i, k, n, sc, tagCells, outputTags);
      ScanSnocAt(tokens, n, tagCells, outputTags, (sc, emitted), (sc', []));
      assert emitted + [] == emitted;
      assert n + 1 == m;
    }
  }

  /**
   * Completeness of the scanner: when tokens `i` to `k` spell `name$suffix`
   * and the NAME does not itself continue an open reference, reading up to
   * token `k` emits exactly one new reference after whatever was open
   * before: it spans from the NAME to the end of the suffix, bears the
   * NAME, and resolves the whole suffix (number tokens trimmed) to a tag
   * and its cell, or to a cell id.
   */
  lemma DollarRefEmitted(tokens: seq<Token>, i: nat, k: nat, tagCells: map<string, string>, outputTags: map<string, seq<string>>)
    requires DollarRef(tokens, i, k)
    requires !ExtendsOpen(Scan(tokens[..i], tagCells, outputTags).0, tokens[i])
    ensures var before := Scan(tokens[..i], tagCells, outputTags);
      Scan(tokens[..k + 1], tagCells, outputTags).1 == before.1 + Pending(before.0, tagCells, outputTags) +
        [Resolve(tokens[i].start, SuffixEnd(tokens, i, k), tokens[i].text, SuffixText(tokens, i, k), tagCells, outputTags)]
  {
    var before := Scan(tokens[..i], tagCells, outputTags);
    SuffixScan(tokens, i, k, k, before.1 + Pending(before.0, tagCells, outputTags), tagCells, outputTags);
    ScanSnoc(tokens, k, tagCells, outputTags);
  }

  /** A suffix is resolved through the tag table first, and otherwise taken as the cell id. */
  lemma ResolveMeans(start: Pos, end: Pos, name: string, suffix: string,
                     tagCells: map<string, string>, outputTags: map<string, seq<string>>)
    ensures var u := Resolve(start, end, name, suffix, tagCells, outputTags);
      && u.startPos == start && u.endPos == end && u.name == name
      && (suffix in tagCells ==> u.cellTag == Some(suffix) && u.cellId == tagCells[suffix])
      && (suffix !in tagCells ==> u.cellTag == None && u.cellId == suffix)
      && (!u.ambiguous <==> name in outputTags && outputTags[name] == [u.cellId])
  {
  }

  /** `x$abc` at the end of a line: the scanner emits one reference to cell `abc` spanning `x$abc`. */
  lemma SimpleDollarRef(x: string, abc: string, outputTags: map<string, seq<string>>)
    requires x != "$" && abc != "$"
    ensures var tokens := [Token(NameTok, x, Pos(1, 0), Pos(1, 1)), Token(OtherTok, "$", Pos(1, 1), Pos(1, 2)),
                           Token(NameTok, abc, Pos(1, 2), Pos(1, 5)), Token(OtherTok, "\n", Pos(1, 5), Pos(1, 6))];
      Scan(tokens, map[], outputTags).1 == [Resolve(Pos(1, 0), Pos(1, 5), x, abc, map[], outputTags)]
  {
    var tokens := [Token(NameTok, x, Pos(1, 0), Pos(1, 1)), Token(OtherTok, "$", Pos(1, 1), Pos(1, 2)),
                   Token(NameTok, abc, Pos(1, 2), Pos(1, 5)), Token(OtherTok, "\n", Pos(1, 5), Pos(1, 6))];
    assert Extends(tokens, 0, 2);
    assert DollarRef(tokens, 0, 3);
    assert tokens[..0] == [];
    assert Scan(tokens[..0], map[], outputTags) == (Scanner(None, "", "", None), []);
    DollarRefEmitted(tokens, 0, 3, map[], outputTags);
    assert tokens[..4] == tokens;
    assert SuffixText(tokens, 0, 3) == abc by {
      assert SuffixText(tokens, 0, 3) == "" + abc;
    }
    assert SuffixEnd(tokens, 0, 3) == Pos(1, 5);
    assert Pending(Scanner(None, "", "", None), map[], outputTags) == [];
  }
}
