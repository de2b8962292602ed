/**
 * The second half of `convert_notebook` (the mode without `out_mode`):
 * every code cell's persistent code is rewritten and the variables it
 * exports are displayed, the cells are put in dependency order together
 * with their prose, a prelude is put in front, and every cell gets a fresh
 * id, the code cells losing their metadata and execution count. Any step
 * that raises makes the whole conversion fail.
 */
module Assemble {
  import opened Wrappers
  import opened Text
  import opened ODicts
  import opened Cells
  import opened Partition
  import Capture

  // ---------------------------------------------------------------------
  // Exported variables

  /** A tag that does not name a cell variable of this very cell. */
  predicate IsExternalRef(val: string, uuid: string, ids: seq<string>)
  {
    |val| < 8 || val[..8] !in ids || uuid != val[..8]
  }

  /**
   * The `display_variables` entry of one tag: a tag that mentions the cell
   * has its `[<name>][<n>]` export ids rewritten, any other tag names the
   * variable `<tag>_<uuid>`.
   */
  function ExportItem(val: string, uuid: string): string
  {
    if Contains(val, uuid) then
      var tag := Capture.ReplaceExportId(val);
      "\"" + tag + "\": " + tag
    else
      "\"" + val + "_" + uuid + "\": " + val + "_" + uuid
  }

  /** The entries of the external tags, in tag order. */
  function ExportItems(uuid: string, tags: seq<string>, ids: seq<string>): (items: seq<string>)
    ensures |items| <= |tags|
    ensures items == [] <==> forall t :: t in tags ==> !IsExternalRef(t, uuid, ids)
  {
    if tags == [] then []
    else
      var last := tags[|tags| - 1];
      var items := ExportItems(uuid, tags[..|tags| - 1], ids);
      assert forall t :: t in tags ==> t in tags[..|tags| - 1] || t == last;
      items + (if IsExternalRef(last, uuid, ids) then [ExportItem(last, uuid)] else [])
  }

  /** `sep.join(items)`. */
  function JoinWith(items: seq<string>, sep: string): string
  {
    if items == [] then ""
    else if |items| == 1 then items[0]
    else items[0] + sep + JoinWith(items[1..], sep)
  }

  /** The dictionary display of the exported variables, or "" when there is none. */
  function ExportedVariables(uuid: string, tags: seq<string>, ids: seq<string>): (r: string)
    ensures |r| > 3 <==> exists t :: t in tags && IsExternalRef(t, uuid, ids)
  {
    var items := ExportItems(uuid, tags, ids);
    if items == [] then "" else "{ " + JoinWith(items, ", ") + " }"
  }

  /**
   * The rewritten code with the call that displays its exports: the
   * external tags when there are any, otherwise the cell's own `Out_<uuid>`
   * when the code mentions it.
   */
  function WithDisplay(code: string, uuid: string, tags: seq<string>, ids: seq<string>): (r: string)
    ensures code <= r
    ensures r == code <==> (forall t :: t in tags ==> !IsExternalRef(t, uuid, ids)) && !Contains(code, "Out_" + uuid)
    ensures (exists t :: t in tags && IsExternalRef(t, uuid, ids)) ==>
      r == code + "\ndisplay_variables({ " + JoinWith(ExportItems(uuid, tags, ids), ", ") + " })"
  {
    var exported := ExportedVariables(uuid, tags, ids);
    if |exported| > 3 then code + "\ndisplay_variables(" + exported + ")"
    else if Contains(code, "Out_" + uuid) then code + "\ndisplay_variables({\"Out_" + uuid + "\": Out_" + uuid + "})"
    else code
  }

  /** A tag `[<name>][<n>]` that mentions the cell exports `Out_<name>[<n>]` under its own name. */
  lemma ExportOfIndexedTag(name: string, n: string, uuid: string)
    requires |name| >= 1 && forall i :: 0 <= i < |name| ==> Capture.IsAsciiAlnum(name[i])
    requires |n| >= 1 && forall i :: 0 <= i < |n| ==> Capture.IsAsciiDigit(n[i])
    requires Contains("[" + name + "][" + n + "]", uuid)
    ensures var tag := "Out_" + name + "[" + n + "]"; ExportItem("[" + name + "][" + n + "]", uuid) == "\"" + tag + "\": " + tag
  {
    Capture.ExportIdReplaced(name, n);
  }

  /** The loop that collects the entries. */
  method CollectExportItems(uuid: string, tags: seq<string>, ids: seq<string>) returns (items: seq<string>)
    ensures items == ExportItems(uuid, tags, ids)
  {
    items := [];
    for i := 0 to |tags|
      invariant items == ExportItems(uuid, tags[..i], ids)
    {
      assert tags[..i + 1][..i] == tags[..i];
      if IsExternalRef(tags[i], uuid, ids) {
        items := items + [ExportItem(tags[i], uuid)];
      }
    }
    assert tags[..|tags|] == tags;
  }

  // ---------------------------------------------------------------------
  // Rewriting the code cells

  /**
   * The text rewrite of a cell's persistent code, outside this model: given
   * the code, the cell's key, its output tags, the keys of all code cells and
   * its valid tags, it yields the rewritten code and the keys of the cells
   * the code refers to, or fails.
   */
  type CellRewrite = (string, string, seq<string>, seq<string>, seq<string>) -> Result<(string, set<string>)>

  /** `nb_output_tags.get(uuid, [])`. */
  function TagsFor(p: Parts, uuid: string): seq<string>
  {
    if uuid in p.outputTags then p.outputTags[uuid] else []
  }

  /** One code cell: its persistent code rewritten and its exports displayed, and the cells it refers to. */
  function ProcessCell(c: Cell, uuid: string, tags: seq<string>, ids: seq<string>, rewrite: CellRewrite): Result<(Cell, set<string>)>
  {
    if PersistentCodePath !in c.metadata then Failure(KeyError)
    else
      var out :- rewrite(c.metadata[PersistentCodePath], uuid, tags, ids, ValidTags(c.outputs));
      Success((c.(source := WithDisplay(out.0, uuid, tags, ids)), out.1))
  }

  /**
   * A code cell raises exactly when it has no persistent code or its
   * rewrite raises; otherwise only its source changes, to the rewritten code
   * followed by the display of its exports, and its references are those
   * of the rewritten code.
   */
  lemma ProcessCellMeans(c: Cell, uuid: string, tags: seq<string>, ids: seq<string>, rewrite: CellRewrite)
    ensures ProcessCell(c, uuid, tags, ids, rewrite).Failure? <==>
      PersistentCodePath !in c.metadata || rewrite(c.metadata[PersistentCodePath], uuid, tags, ids, ValidTags(c.outputs)).Failure?
    ensures PersistentCodePath !in c.metadata ==> ProcessCell(c, uuid, tags, ids, rewrite) == Failure(KeyError)
    ensures ProcessCell(c, uuid, tags, ids, rewrite).Success? ==>
      var out := rewrite(c.metadata[PersistentCodePath], uuid, tags, ids, ValidTags(c.outputs)).value;
      var r := ProcessCell(c, uuid, tags, ids, rewrite).value;
      && r.0 == c.(source := r.0.source)
      && out.0 <= r.0.source
      && (r.0.source == out.0 <==> (forall t :: t in tags ==> !IsExternalRef(t, uuid, ids)) && !Contains(out.0, "Out_" + uuid))
      && r.1 == out.1
  {
  }

  /** The processing of the `i`-th code cell. */
  function Processing(p: Parts, rewrite: CellRewrite, i: nat): Result<(Cell, set<string>)>
    requires PartsValid(p) && i < |p.code.keys|
  {
    var uuid := p.code.keys[i];
    ProcessCell(p.code.vals[uuid], uuid, TagsFor(p, uuid), p.code.keys, rewrite)
  }

  /** The outcome of every code cell's processing, in the order the cells were first met. */
  function Outcomes(p: Parts, rewrite: CellRewrite, n: nat): (r: seq<Result<(Cell, set<string>)>>)
    requires PartsValid(p) && n <= |p.code.keys|
    ensures |r| == n
  {
    if n == 0 then [] else Outcomes(p, rewrite, n - 1) + [Processing(p, rewrite, n - 1)]
  }

  lemma {:induction false} OutcomeAt(p: Parts, rewrite: CellRewrite, n: nat, i: nat)
    requires PartsValid(p) && i < n <= |p.code.keys|
    ensures Outcomes(p, rewrite, n)[i] == Processing(p, rewrite, i)
  {
    if i < n - 1 {
      OutcomeAt(p, rewrite, n - 1, i);
    }
  }

  /**
   * The code cells and the downlinks once the first `n` outcomes are
   * recorded: each cell replaced by its processed cell and its references
   * stored as its downlinks; the first failing outcome fails the whole.
   */
  function Recorded<C>(keys: seq<string>, cells: map<string, C>, outcomes: seq<Result<(C, set<string>)>>, n: nat)
    : Result<(map<string, C>, map<string, set<string>>)>
    requires n <= |keys| == |outcomes|
  {
    if n == 0 then Success((cells, map[]))
    else
      var prev :- Recorded(keys, cells, outcomes, n - 1);
      var next :- outcomes[n - 1];
      Success((prev.0[keys[n - 1] := next.0], prev.1[keys[n - 1] := next.1]))
  }

  /** All code cells processed. */
  function Processed(p: Parts, rewrite: CellRewrite): Result<(map<string, Cell>, map<string, set<string>>)>
    requires PartsValid(p)
  {
    Recorded(p.code.keys, p.code.vals, Outcomes(p, rewrite, |p.code.keys|), |p.code.keys|)
  }

  /** Recording succeeds exactly when each of the first `n` outcomes does. */
  lemma {:induction false} RecordedSucceeds<C>(keys: seq<string>, cells: map<string, C>, outcomes: seq<Result<(C, set<string>)>>, n: nat)
    requires n <= |keys| == |outcomes|
    ensures Recorded(keys, cells, outcomes, n).Success? <==> forall i :: 0 <= i < n ==> outcomes[i].Success?
  {
    if n > 0 {
      RecordedSucceeds(keys, cells, outcomes, n - 1);
    }
  }

  /** Once recorded, each of the first `n` keys has its processed cell and its references as downlinks. */
  lemma {:induction false} RecordedMeans<C>(keys: seq<string>, cells: map<string, C>, outcomes: seq<Result<(C, set<string>)>>, n: nat)
    requires n <= |keys| == |outcomes|
    requires Distinct(keys)
    requires Recorded(keys, cells, outcomes, n).Success?
    ensures forall i :: 0 <= i < n ==>
      && outcomes[i].Success?
      && keys[i] in Recorded(keys, cells, outcomes, n).value.0
      && keys[i] in Recorded(keys, cells, outcomes, n).value.1
      && Recorded(keys, cells, outcomes, n).value.0[keys[i]] == outcomes[i].value.0
      && Recorded(keys, cells, outcomes, n).value.1[keys[i]] == outcomes[i].value.1
  {
    if n > 0 {
      var prev := Recorded(keys, cells, outcomes, n - 1).value;
      var next := outcomes[n - 1].value;
      var k := keys[n - 1];
      var code, links := prev.0[k := next.0], prev.1[k := next.1];
      assert Recorded(keys, cells, outcomes, n).value == (code, links);
      RecordedMeans(keys, cells, outcomes, n - 1);
      forall i | 0 <= i < n - 1
        ensures keys[i] in code && keys[i] in links && code[keys[i]] == outcomes[i].value.0 && links[keys[i]] == outcomes[i].value.1
      {
        assert keys[i] != k;
      }
    }
  }

  /**
   * Once recorded, the cells have the same keys, only the first `n` keys
   * have downlinks, and the cells of the other keys are as they were.
   */
  lemma {:induction false} RecordedKeeps<C>(keys: seq<string>, cells: map<string, C>, outcomes: seq<Result<(C, set<string>)>>, n: nat)
    requires n <= |keys| == |outcomes|
    requires Distinct(keys) && forall k :: k in keys ==> k in cells
    requires Recorded(keys, cells, outcomes, n).Success?
    ensures Recorded(keys, cells, outcomes, n).value.0.Keys == cells.Keys
    ensures forall k :: k in Recorded(keys, cells, outcomes, n).value.1 ==> k in keys[..n]
    ensures forall i :: n <= i < |keys| ==> Recorded(keys, cells, outcomes, n).value.0[keys[i]] == cells[keys[i]]
  {
    if n > 0 {
      var prev := Recorded(keys, cells, outcomes, n - 1).value;
      var next := outcomes[n - 1].value;
      var k := keys[n - 1];
      var code, links := prev.0[k := next.0], prev.1[k := next.1];
      assert Recorded(keys, cells, outcomes, n).value == (code, links);
      RecordedKeeps(keys, cells, outcomes, n - 1);
      assert keys[..n] == keys[..n - 1] + [k];
      forall i | n <= i < |keys| ensures code[keys[i]] == cells[keys[i]] {
        assert keys[i] != k;
      }
    }
  }

  /** Once an outcome fails, recording more does not change the failure. */
  lemma {:induction false} RecordedFailsFrom<C>(keys: seq<string>, cells: map<string, C>, outcomes: seq<Result<(C, set<string>)>>, n: nat, m: nat)
    requires n <= m <= |keys| == |outcomes|
    requires Recorded(keys, cells, outcomes, n).Failure?
    ensures Recorded(keys, cells, outcomes, m) == Recorded(keys, cells, outcomes, n)
    decreases m
  {
    if m > n {
      RecordedFailsFrom(keys, cells, outcomes, n, m - 1);
    }
  }

  /** The body of the loop over the code cells: one cell processed. */
  method ProcessOne(p: Parts, rewrite: CellRewrite, i: nat) returns (out: Result<(Cell, set<string>)>)
    requires PartsValid(p) && i < |p.code.keys|
    ensures out == Outcomes(p, rewrite, |p.code.keys|)[i]
  {
    OutcomeAt(p, rewrite, |p.code.keys|, i);
    var uuid := p.code.keys[i];
    var cell := p.code.vals[uuid];
    var tags := TagsFor(p, uuid);
    if PersistentCodePath !in cell.metadata {
      return Failure(KeyError);
    }
    var rewritten := rewrite(cell.metadata[PersistentCodePath], uuid, tags, p.code.keys, ValidTags(cell.outputs));
    if rewritten.Failure? {
      return Failure(rewritten.error);
    }
    var src := rewritten.value.0;
    var exported := "";
    if tags != [] {
      var items := CollectExportItems(uuid, tags, p.code.keys);
      if items != [] {
        exported := "{ " + JoinWith(items, ", ") + " }";
      }
    }
    assert exported == ExportedVariables(uuid, tags, p.code.keys);
    if |exported| > 3 {
      src := src + "\ndisplay_variables(" + exported + ")";
    } else if Contains(src, "Out_" + uuid) {
      src := src + "\ndisplay_variables({\"Out_" + uuid + "\": Out_" + uuid + "})";
    }
    out := Success((cell.(source := src), rewritten.value.1));
  }

  /** The loop over the code cells, in the order they were first met. */
  method ProcessCells(p: Parts, rewrite: CellRewrite) returns (r: Result<(map<string, Cell>, map<string, set<string>>)>)
    requires PartsValid(p)
    ensures r == Processed(p, rewrite)
  {
    ghost var outcomes := Outcomes(p, rewrite, |p.code.keys|);
    var code := p.code.vals;
    var downlinks: map<string, set<string>> := map[];
    for i := 0 to |p.code.keys|
      invariant Recorded(p.code.keys, p.code.vals, outcomes, i) == Success((code, downlinks))
    {
      var out := ProcessOne(p, rewrite, i);
      if out.Failure? {
        RecordedFailsFrom(p.code.keys, p.code.vals, outcomes, i + 1, |p.code.keys|);
        return Failure(out.error);
      }
      code := code[p.code.keys[i] := out.value.0];
      downlinks := downlinks[p.code.keys[i] := out.value.1];
    }
    r := Success((code, downlinks));
  }

  // ---------------------------------------------------------------------
  // Putting the cells in order

  /** `reversed(order)`. */
  function Reversed(s: seq<string>): (r: seq<string>)
    ensures |r| == |s| && forall i :: 0 <= i < |s| ==> r[i] == s[|s| - 1 - i]
  {
    seq(|s|, i requires 0 <= i < |s| => s[|s| - 1 - i])
  }

  /** The code cells of `ids`, in order; a key with no code cell raises. */
  function CodeRun(code: map<string, Cell>, ids: seq<string>): Result<seq<Cell>>
    decreases |ids|
  {
    if ids == [] then Success([])
    else if ids[0] !in code then Failure(KeyError)
    else
      var rest :- CodeRun(code, ids[1..]);
      Success([code[ids[0]]] + rest)
  }

  /** The code cells come out exactly when every key has one, each in its key's place. */
  lemma {:induction false} CodeRunMeans(code: map<string, Cell>, ids: seq<string>)
    ensures CodeRun(code, ids).Success? <==> forall i :: 0 <= i < |ids| ==> ids[i] in code
    ensures CodeRun(code, ids).Failure? ==> CodeRun(code, ids).error == KeyError
    ensures CodeRun(code, ids).Success? ==>
      |CodeRun(code, ids).value| == |ids| && forall i :: 0 <= i < |ids| ==> CodeRun(code, ids).value[i] == code[ids[i]]
    decreases |ids|
  {
    if ids != [] {
      CodeRunMeans(code, ids[1..]);
      if ids[0] in code && CodeRun(code, ids[1..]).Success? {
        var r := CodeRun(code, ids).value;
        forall i | 1 <= i < |ids| ensures r[i] == code[ids[i]] {
          assert ids[1..][i - 1] == ids[i];
        }
      }
    }
  }

  /**
   * The place, in block order, of the first block `id` is attached to;
   * `|ks|` when it is attached to none.
   */
  function FirstBlockIndex(ks: seq<string>, blocks: map<string, set<string>>, id: string): (i: nat)
    requires forall k :: k in ks ==> k in blocks
    ensures i <= |ks|
    ensures forall j :: 0 <= j < i ==> id !in blocks[ks[j]]
    ensures i < |ks| ==> id in blocks[ks[i]]
    decreases |ks|
  {
    if ks == [] || id in blocks[ks[0]] then 0 else 1 + FirstBlockIndex(ks[1..], blocks, id)
  }

  /** The loop over the blocks that stops at the first one `id` is attached to. */
  method FindBlock(blocks: ODict<set<string>>, id: string) returns (i: nat)
    requires Valid(blocks)
    ensures i == FirstBlockIndex(blocks.keys, blocks.vals, id)
  {
    i := 0;
    while i < |blocks.keys|
      invariant i <= |blocks.keys|
      invariant FirstBlockIndex(blocks.keys, blocks.vals, id) == i + FirstBlockIndex(blocks.keys[i..], blocks.vals, id)
    {
      if id in blocks.vals[blocks.keys[i]] {
        return;
      }
      assert blocks.keys[i..][1..] == blocks.keys[i + 1..];
      i := i + 1;
    }
  }

  /** The block `id` claims: the first one it is attached to, if any. */
  function Claimed(blocks: ODict<set<string>>, id: string): (b: Option<string>)
    requires Valid(blocks)
    ensures b.Some? ==> b.value in blocks.vals && id in blocks.vals[b.value]
    ensures b.None? ==> forall k :: k in blocks.vals ==> id !in blocks.vals[k]
  {
    var i := FirstBlockIndex(blocks.keys, blocks.vals, id);
    if i < |blocks.keys| then Some(blocks.keys[i]) else None
  }

  /** What is emitted before the code cell `id`: the group of the block it claims. */
  function Emitted(blocks: ODict<set<string>>, seqs: map<string, seq<Cell>>, prose: map<string, Cell>, id: string): seq<Cell>
    requires Valid(blocks) && forall k :: k in blocks.vals ==> k in prose
  {
    match Claimed(blocks, id)
    case Some(b) => Group(b, seqs, prose)
    case None => []
  }

  /** The blocks left once `id` has claimed its block. */
  function Remaining(blocks: ODict<set<string>>, id: string): (r: ODict<set<string>>)
    requires Valid(blocks)
    ensures Valid(r) && r.vals.Keys <= blocks.vals.Keys
  {
    match Claimed(blocks, id)
    case Some(b) => Remove(blocks, b)
    case None => blocks
  }

  /** The prose cells of the blocks left at the end, without their runs' earlier cells. */
  function Heads(ks: seq<string>, prose: map<string, Cell>): seq<Cell>
    requires forall k :: k in ks ==> k in prose
  {
    seq(|ks|, i requires 0 <= i < |ks| => prose[ks[i]])
  }

  /**
   * The blocks left at the end: with `keepRuns`, each block's whole group;
   * without it, only each block's own prose cell.
   */
  function Leftover(ks: seq<string>, seqs: map<string, seq<Cell>>, prose: map<string, Cell>, keepRuns: bool): seq<Cell>
    requires forall k :: k in ks ==> k in prose
  {
    if keepRuns then Groups(ks, seqs, prose) else Heads(ks, prose)
  }

  /**
   * The interleaved order: each code cell of `ids` after the group of the
   * block it claims, then what is left of the blocks.
   */
  function Interleave(blocks: ODict<set<string>>, seqs: map<string, seq<Cell>>, prose: map<string, Cell>,
                      code: map<string, Cell>, ids: seq<string>, keepRuns: bool): Result<seq<Cell>>
    requires Valid(blocks) && forall k :: k in blocks.vals ==> k in prose
    decreases |ids|
  {
    if ids == [] then Success(Leftover(blocks.keys, seqs, prose, keepRuns))
    else if ids[0] !in code then Failure(KeyError)
    else
      var rest :- Interleave(Remaining(blocks, ids[0]), seqs, prose, code, ids[1..], keepRuns);
      Success(Emitted(blocks, seqs, prose, ids[0]) + [code[ids[0]]] + rest)
  }

  /** `xs` in front of a successful result. */
  function Prepend(xs: seq<Cell>, r: Result<seq<Cell>>): Result<seq<Cell>>
  {
    if r.Success? then Success(xs + r.value) else r
  }

  /**
   * The cells in dependency order: with `mdAbove` all prose cells first and
   * then the code cells; otherwise interleaved, every block's group kept.
   */
  function Reassembled(p: Parts, code: map<string, Cell>, order: seq<string>, mdAbove: bool): Result<seq<Cell>>
    requires PartsValid(p)
  {
    if mdAbove then Prepend(Values(p.prose), CodeRun(code, Reversed(order)))
    else Interleave(p.blocks, p.seqs, p.prose.vals, code, Reversed(order), true)
  }

  /** The same, with the blocks left at the end emitted as `convert.py` writes it: their own cells only. */
  function ReassembledAsWritten(p: Parts, code: map<string, Cell>, order: seq<string>, mdAbove: bool): Result<seq<Cell>>
    requires PartsValid(p)
  {
    if mdAbove then Prepend(Values(p.prose), CodeRun(code, Reversed(order)))
    else Interleave(p.blocks, p.seqs, p.prose.vals, code, Reversed(order), false)
  }

  /** What the ordering loop still has to emit for `ids`. */
  function Rest(p: Parts, blocks: ODict<set<string>>, code: map<string, Cell>, ids: seq<string>, mdAbove: bool): Result<seq<Cell>>
    requires Valid(blocks) && forall k :: k in blocks.vals ==> k in p.prose.vals
  {
    if mdAbove then CodeRun(code, ids) else Interleave(blocks, p.seqs, p.prose.vals, code, ids, false)
  }

  /** One step of the ordering loop, on the specification side. */
  lemma RestStep(p: Parts, blocks: ODict<set<string>>, code: map<string, Cell>, ids: seq<string>, mdAbove: bool)
    requires Valid(blocks) && forall k :: k in blocks.vals ==> k in p.prose.vals
    requires ids != [] && ids[0] in code
    ensures var blocks' := if mdAbove then blocks else Remaining(blocks, ids[0]);
      && Valid(blocks') && (forall k :: k in blocks'.vals ==> k in p.prose.vals)
      && Rest(p, blocks, code, ids, mdAbove)
         == Prepend((if mdAbove then [] else Emitted(blocks, p.seqs, p.prose.vals, ids[0])) + [code[ids[0]]], Rest(p, blocks', code, ids[1..], mdAbove))
  {
    if mdAbove {
      assert [] + [code[ids[0]]] == [code[ids[0]]];
    }
  }

  lemma PrependPrepend(xs: seq<Cell>, ys: seq<Cell>, r: Result<seq<Cell>>)
    ensures Prepend(xs, Prepend(ys, r)) == Prepend(xs + ys, r)
  {
    if r.Success? {
      assert xs + (ys + r.value) == xs + ys + r.value;
    }
  }

  /** The body of the loop over the blocks: the group `id` claims, and the blocks left. */
  method TakeBlock(p: Parts, blocks: ODict<set<string>>, id: string) returns (emitted: seq<Cell>, rest: ODict<set<string>>)
    requires Valid(blocks) && forall k :: k in blocks.vals ==> k in p.prose.vals
    ensures emitted == Emitted(blocks, p.seqs, p.prose.vals, id)
    ensures rest == Remaining(blocks, id)
  {
    emitted, rest := [], blocks;
    var j := FindBlock(blocks, id);
    if j < |blocks.keys| {
      var b := blocks.keys[j];
      var run := SeqOf(p.seqs, b);
      if run != [] {
        emitted := emitted + run;
      }
      emitted := emitted + [p.prose.vals[b]];
      rest := Remove(blocks, b);
    }
  }

  /** The ordering loop, as `convert.py` writes it. */
  method Reassemble(p: Parts, code: map<string, Cell>, order: seq<string>, mdAbove: bool) returns (r: Result<seq<Cell>>)
    requires PartsValid(p)
    ensures r == ReassembledAsWritten(p, code, order, mdAbove)
  {
    var ids := Reversed(order);
    var ordered: seq<Cell> := if mdAbove then Values(p.prose) else [];
    var blocks := p.blocks;
    assert ids[0..] == ids;
    if !mdAbove {
      var rest := Rest(p, blocks, code, ids, mdAbove);
      assert rest.Success? ==> [] + rest.value == rest.value;
    }
    for i := 0 to |ids|
      invariant Valid(blocks) && forall k :: k in blocks.vals ==> k in p.prose.vals
      invariant ReassembledAsWritten(p, code, order, mdAbove) == Prepend(ordered, Rest(p, blocks, code, ids[i..], mdAbove))
    {
      var id := ids[i];
      assert ids[i..][0] == id && ids[i..][1..] == ids[i + 1..];
      if id !in code {
        assert Rest(p, blocks, code, ids[i..], mdAbove) == Failure(KeyError);
        return Failure(KeyError);
      }
      RestStep(p, blocks, code, ids[i..], mdAbove);
      var emitted: seq<Cell> := [];
      if !mdAbove {
        emitted, blocks := TakeBlock(p, blocks, id);
      }
      PrependPrepend(ordered, emitted + [code[id]], Rest(p, blocks, code, ids[i + 1..], mdAbove));
      ordered := ordered + (emitted + [code[id]]);
    }
    assert ids[|ids|..] == [];
    if !mdAbove {
      ordered := ordered + Heads(blocks.keys, p.prose.vals);
    } else {
      assert ordered + [] == ordered;
    }
    r := Success(ordered);
  }

  // ---------------------------------------------------------------------
  // What the ordering keeps

  /** The interleaved order comes out exactly when every key of `ids` has a code cell. */
  lemma {:induction false} InterleaveSucceeds(blocks: ODict<set<string>>, seqs: map<string, seq<Cell>>, prose: map<string, Cell>,
                                              code: map<string, Cell>, ids: seq<string>, keepRuns: bool)
    requires Valid(blocks) && forall k :: k in blocks.vals ==> k in prose
    ensures Interleave(blocks, seqs, prose, code, ids, keepRuns).Success? <==> forall i :: 0 <= i < |ids| ==> ids[i] in code
    decreases |ids|
  {
    if ids != [] {
      InterleaveSucceeds(Remaining(blocks, ids[0]), seqs, prose, code, ids[1..], keepRuns);
      assert forall i :: 1 <= i < |ids| ==> ids[i] == ids[1..][i - 1];
    }
  }

  lemma {:induction false} GroupsConcat(a: seq<string>, b: seq<string>, seqs: map<string, seq<Cell>>, prose: map<string, Cell>)
    requires forall k :: k in a + b ==> k in prose
    ensures Groups(a + b, seqs, prose) == Groups(a, seqs, prose) + Groups(b, seqs, prose)
    decreases |b|
  {
    if b == [] {
      assert a + b == a;
    } else {
      var b' := b[..|b| - 1];
      assert (a + b)[..|a + b| - 1] == a + b';
      GroupsConcat(a, b', seqs, prose);
    }
  }

  /** Taking one block out of the blocks takes its group out of their groups. */
  lemma GroupsWithout(ks: seq<string>, seqs: map<string, seq<Cell>>, prose: map<string, Cell>, i: nat)
    requires Distinct(ks) && i < |ks| && forall k :: k in ks ==> k in prose
    ensures Without(ks, ks[i]) == ks[..i] + ks[i + 1..]
    ensures multiset(Groups(ks, seqs, prose)) == multiset(Groups(ks[..i] + ks[i + 1..], seqs, prose)) + multiset(Group(ks[i], seqs, prose))
  {
    var k, a, b := ks[i], ks[..i], ks[i + 1..];
    WithoutAt(ks, i);
    assert ks == (a + [k]) + b;
    GroupsConcat(a + [k], b, seqs, prose);
    GroupsConcat(a, [k], seqs, prose);
    GroupsConcat(a, b, seqs, prose);
    assert [k][..0] == [];
  }

  /**
   * With every group kept, the interleaved order holds exactly the groups
   * of the blocks and the code cells of `ids`.
   */
  lemma {:induction false} InterleaveKeeps(blocks: ODict<set<string>>, seqs: map<string, seq<Cell>>, prose: map<string, Cell>,
                                           code: map<string, Cell>, ids: seq<string>)
    requires Valid(blocks) && forall k :: k in blocks.vals ==> k in prose
    requires Interleave(blocks, seqs, prose, code, ids, true).Success?
    ensures CodeRun(code, ids).Success?
    ensures multiset(Interleave(blocks, seqs, prose, code, ids, true).value)
         == multiset(Groups(blocks.keys, seqs, prose)) + multiset(CodeRun(code, ids).value)
    decreases |ids|
  {
    if ids != [] {
      var id := ids[0];
      var rest := Remaining(blocks, id);
      var emitted := Emitted(blocks, seqs, prose, id);
      InterleaveKeeps(rest, seqs, prose, code, ids[1..]);
      var tail := Interleave(rest, seqs, prose, code, ids[1..], true).value;
      var codes := CodeRun(code, ids[1..]).value;
      assert Interleave(blocks, seqs, prose, code, ids, true).value == emitted + [code[id]] + tail;
      assert CodeRun(code, ids).value == [code[id]] + codes;
      GroupsRemaining(blocks, seqs, prose, id);
      MultisetStep(emitted, code[id], tail, Groups(blocks.keys, seqs, prose), Groups(rest.keys, seqs, prose), codes);
    }
  }

  /** The groups of the blocks are those of the blocks left and what `id` emitted. */
  lemma GroupsRemaining(blocks: ODict<set<string>>, seqs: map<string, seq<Cell>>, prose: map<string, Cell>, id: string)
    requires Valid(blocks) && forall k :: k in blocks.vals ==> k in prose
    ensures multiset(Groups(blocks.keys, seqs, prose))
         == multiset(Groups(Remaining(blocks, id).keys, seqs, prose)) + multiset(Emitted(blocks, seqs, prose, id))
  {
    var j := FirstBlockIndex(blocks.keys, blocks.vals, id);
    if j < |blocks.keys| {
      GroupsWithout(blocks.keys, seqs, prose, j);
    }
  }

  lemma MultisetStep<T>(emitted: seq<T>, c: T, tail: seq<T>, all: seq<T>, rest: seq<T>, codes: seq<T>)
    requires multiset(tail) == multiset(rest) + multiset(codes)
    requires multiset(all) == multiset(rest) + multiset(emitted)
    ensures multiset(emitted + [c] + tail) == multiset(all) + multiset([c] + codes)
  {
  }

  /** The notebook's prose cells, as the first pass leaves them. */
  lemma ProseOfPartition(cells: seq<Cell>)
    requires DistinctKeys(cells)
    ensures Partition.Partition(cells).Success?
    ensures var p := Partition.Partition(cells).value;
      && Values(p.prose) == ProseCells(cells)
      && Groups(p.blocks.keys, p.seqs, p.prose.vals) == ProseCells(cells)
  {
    PartitionShape(cells);
  }

  /**
   * For a notebook whose cells have distinct keys, ordering fails exactly
   * when a key of the order has no code cell, and otherwise yields every
   * prose cell and the code cells of the order, in reverse: with `mdAbove`
   * the prose cells in notebook order followed by the code cells, and
   * interleaved the same cells in another order.
   */
  lemma ReassembledMeans(cells: seq<Cell>, code: map<string, Cell>, order: seq<string>, mdAbove: bool)
    requires DistinctKeys(cells)
    ensures Partition.Partition(cells).Success?
    ensures var r := Reassembled(Partition.Partition(cells).value, code, order, mdAbove);
      && (r.Success? <==> forall i :: 0 <= i < |order| ==> order[i] in code)
      && (r.Success? ==> CodeRun(code, Reversed(order)).Success?)
      && (r.Success? ==> multiset(r.value) == multiset(ProseCells(cells)) + multiset(CodeRun(code, Reversed(order)).value))
      && (r.Success? && mdAbove ==> r.value == ProseCells(cells) + CodeRun(code, Reversed(order)).value)
    ensures var p := Partition.Partition(cells).value;
      && (ReassembledAsWritten(p, code, order, mdAbove).Success? <==> Reassembled(p, code, order, mdAbove).Success?)
      && (mdAbove ==> ReassembledAsWritten(p, code, order, mdAbove) == Reassembled(p, code, order, mdAbove))
  {
    ProseOfPartition(cells);
    var p := Partition.Partition(cells).value;
    var ids := Reversed(order);
    assert (forall i :: 0 <= i < |order| ==> order[i] in code) <==> (forall i :: 0 <= i < |ids| ==> ids[i] in code) by {
      if forall i :: 0 <= i < |ids| ==> ids[i] in code {
        forall i | 0 <= i < |order| ensures order[i] in code {
          assert ids[|order| - 1 - i] == order[i];
        }
      }
    }
    CodeRunMeans(code, ids);
    if mdAbove {
    } else {
      InterleaveSucceeds(p.blocks, p.seqs, p.prose.vals, code, ids, true);
      InterleaveSucceeds(p.blocks, p.seqs, p.prose.vals, code, ids, false);
      if Reassembled(p, code, order, mdAbove).Success? {
        InterleaveKeeps(p.blocks, p.seqs, p.prose.vals, code, ids);
      }
    }
  }

  /**
   * Two prose cells and no code: the second absorbs the first, and the
   * interleaved order as written emits only the second, losing the first;
   * keeping the group emits both, in notebook order.
   */
  lemma LeftoverRunDropped(a: Cell, b: Cell)
    requires !IsCode(a) && !IsCode(b)
    requires CellKey(a) != "" && CellKey(b) != "" && CellKey(a) != CellKey(b)
    ensures Partition.Partition([a, b]).Success?
    ensures ProseCells([a, b]) == [a, b]
    ensures ReassembledAsWritten(Partition.Partition([a, b]).value, map[], [], false) == Success([b])
    ensures Reassembled(Partition.Partition([a, b]).value, map[], [], false) == Success([a, b])
  {
    OneProseBlock(a, b);
    ProseOfTwo(a, b);
    var p := Partition.Partition([a, b]).value;
    var k := p.blocks.keys[0];
    assert p.blocks.keys == [k];
    var g := Group(k, p.seqs, p.prose.vals);
    assert g[|g| - 1] == p.prose.vals[k] == b;
    assert Groups([k], p.seqs, p.prose.vals) == g by {
      assert [k][..0] == [];
    }
    assert Heads([k], p.prose.vals) == [b];
    assert Reversed([]) == [];
  }

  /** With no code to attach, only the last block may exist. */
  lemma NothingAttached(blocks: ODict<set<string>>)
    requires Valid(blocks) && BlocksWellFormed(blocks, {})
    ensures |blocks.keys| <= 1
  {
    if |blocks.keys| > 1 {
      FirstBlockEmpty(blocks);
      assert false;
    }
  }

  lemma FirstBlockEmpty(blocks: ODict<set<string>>)
    requires Valid(blocks) && BlocksWellFormed(blocks, {}) && blocks.keys != []
    ensures blocks.vals[blocks.keys[0]] == {}
  {
    assert blocks.keys[0] in blocks.vals;
  }

  lemma ProseOfTwo(a: Cell, b: Cell)
    requires !IsCode(a) && !IsCode(b)
    ensures ProseCells([a, b]) == [a, b]
  {
    assert [a, b][..1] == [a] && [a][..0] == [];
    assert ProseCells([a]) == [] + [a];
    assert ProseCells([a, b]) == [a] + [b];
  }

  /** Two prose cells make a single block, whose group is both cells. */
  lemma OneProseBlock(a: Cell, b: Cell)
    requires !IsCode(a) && !IsCode(b)
    requires CellKey(a) != "" && CellKey(b) != "" && CellKey(a) != CellKey(b)
    ensures Partition.Partition([a, b]).Success?
    ensures var p := Partition.Partition([a, b]).value;
      && |p.blocks.keys| == 1 && p.blocks.keys[0] in p.prose.vals
      && Group(p.blocks.keys[0], p.seqs, p.prose.vals) == [a, b]
  {
    var cells := [a, b];
    assert DistinctKeys(cells);
    PartitionShape(cells);
    var p := Partition.Partition(cells).value;
    ProseOfTwo(a, b);
    assert AttachableKeys(cells) == {};
    var ks := p.blocks.keys;
    NothingAttached(p.blocks);
    assert ks != [];
    assert Groups(ks, p.seqs, p.prose.vals) == Group(ks[0], p.seqs, p.prose.vals);
  }

  // ---------------------------------------------------------------------
  // Fresh ids

  /**
   * A cell as the conversion leaves it: with the new id, and, for a code
   * cell, with its metadata emptied and no execution count.
   */
  function ResetCell(c: Cell, id: string): (r: Cell)
    ensures r.id == id && r.cellType == c.cellType && r.source == c.source && r.outputs == c.outputs
    ensures IsCode(c) ==> r.metadata == map[] && r.executionCount == None
    ensures !IsCode(c) ==> r == c.(id := id)
  {
    if IsCode(c) then c.(id := id, metadata := map[], executionCount := None) else c.(id := id)
  }

  /** Every cell reset, the `i`-th with the `i`-th fresh id. */
  function ResetAll(cells: seq<Cell>, newId: nat -> string): (r: seq<Cell>)
    ensures |r| == |cells|
    ensures forall i :: 0 <= i < |cells| ==> r[i] == ResetCell(cells[i], newId(i))
  {
    seq(|cells|, i requires 0 <= i < |cells| => ResetCell(cells[i], newId(i)))
  }

  /** The loop that gives every cell a fresh id. */
  method ResetIds(cells: seq<Cell>, newId: nat -> string) returns (r: seq<Cell>)
    ensures r == ResetAll(cells, newId)
  {
    r := [];
    for i := 0 to |cells|
      invariant |r| == i
      invariant forall j :: 0 <= j < i ==> r[j] == ResetCell(cells[j], newId(j))
    {
      var cell := cells[i].(id := newId(i));
      if cell.cellType == "code" {
        cell := cell.(metadata := map[], executionCount := None);
      }
      r := r + [cell];
    }
  }

  // ---------------------------------------------------------------------
  // The whole conversion

  /** A notebook as the conversion returns it: its cells, and the keys of its top-level `metadata` (`None` when it has none). */
  datatype Notebook = Notebook(cells: seq<Cell>, metadataKeys: Option<set<string>>)

  /**
   * The kernel metadata step: with a `kernelspec`, the `dfnotebook` and
   * `enable_tags` entries are deleted, and a missing one raises `KeyError`;
   * without one, nothing changes.
   */
  function StandardKernel(keys: Option<set<string>>): (r: Result<Option<set<string>>>)
    ensures r.Failure? <==> keys.Some? && "kernelspec" in keys.value && ("dfnotebook" !in keys.value || "enable_tags" !in keys.value)
    ensures r.Failure? ==> r.error == KeyError
    ensures r.Success? && keys.Some? && "kernelspec" in keys.value ==>
      r.value.Some? && forall k :: k in r.value.value <==> k in keys.value && k != "dfnotebook" && k != "enable_tags"
    ensures r.Success? && !(keys.Some? && "kernelspec" in keys.value) ==> r.value == keys
  {
    if keys.Some? && "kernelspec" in keys.value then
      if "dfnotebook" !in keys.value || "enable_tags" !in keys.value then Failure(KeyError)
      else Success(Some(keys.value - {"dfnotebook", "enable_tags"}))
    else Success(keys)
  }

  /**
   * `convert_notebook` without `out_mode`: the first pass, the code cells
   * processed, the cells ordered by the dependency order `topological`
   * gives for the downlinks, the prelude in front, the kernel metadata
   * standardised, and fresh ids; any step that raises fails the whole.
   */
  function Converted(nb: Notebook, mdAbove: bool, rewrite: CellRewrite, topological: map<string, set<string>> -> seq<string>,
                     prelude: seq<Cell>, newId: nat -> string): (r: Result<Notebook>)
    ensures r.Success? ==> Partition.Partition(nb.cells).Success?
    ensures StandardKernel(nb.metadataKeys).Failure? ==> r.Failure?
    ensures r.Success? ==> r.value.metadataKeys == StandardKernel(nb.metadataKeys).value
    ensures r.Success? ==> |prelude| <= |r.value.cells|
    ensures r.Success? ==> forall i :: 0 <= i < |prelude| ==> r.value.cells[i] == ResetCell(prelude[i], newId(i))
    ensures r.Success? ==> forall i :: 0 <= i < |r.value.cells| ==> r.value.cells[i].id == newId(i)
  {
    var p :- Partition.Partition(nb.cells);
    var processed :- Processed(p, rewrite);
    var ordered :- ReassembledAsWritten(p, processed.0, topological(processed.1), mdAbove);
    var keys :- StandardKernel(nb.metadataKeys);
    Success(Notebook(ResetAll(prelude + ordered, newId), keys))
  }

  /** The conversion with every block left at the end emitted with its whole group. */
  function ConvertedCorrected(nb: Notebook, mdAbove: bool, rewrite: CellRewrite, topological: map<string, set<string>> -> seq<string>,
                              prelude: seq<Cell>, newId: nat -> string): (r: Result<Notebook>)
    ensures r.Success? ==> Partition.Partition(nb.cells).Success?
    ensures StandardKernel(nb.metadataKeys).Failure? ==> r.Failure?
    ensures r.Success? ==> r.value.metadataKeys == StandardKernel(nb.metadataKeys).value
    ensures r.Success? ==> |prelude| <= |r.value.cells|
    ensures r.Success? ==> forall i :: 0 <= i < |prelude| ==> r.value.cells[i] == ResetCell(prelude[i], newId(i))
    ensures r.Success? ==> forall i :: 0 <= i < |r.value.cells| ==> r.value.cells[i].id == newId(i)
  {
    var p :- Partition.Partition(nb.cells);
    var processed :- Processed(p, rewrite);
    var ordered :- Reassembled(p, processed.0, topological(processed.1), mdAbove);
    var keys :- StandardKernel(nb.metadataKeys);
    Success(Notebook(ResetAll(prelude + ordered, newId), keys))
  }

  /** The conversion as `convert_notebook` runs it. */
  method ConvertNotebook(nb: Notebook, mdAbove: bool, rewrite: CellRewrite, topological: map<string, set<string>> -> seq<string>,
                         prelude: seq<Cell>, newId: nat -> string) returns (r: Result<Notebook>)
    ensures r == Converted(nb, mdAbove, rewrite, topological, prelude, newId)
  {
    var parts := PartitionCells(nb.cells);
    if parts.Failure? {
      return Failure(parts.error);
    }
    var p := parts.value;
    var processed := ProcessCells(p, rewrite);
    if processed.Failure? {
      return Failure(processed.error);
    }
    var order := topological(processed.value.1);
    var ordered := Reassemble(p, processed.value.0, order, mdAbove);
    if ordered.Failure? {
      return Failure(ordered.error);
    }
    var keys := StandardizeKernel(nb.metadataKeys);
    if keys.Failure? {
      return Failure(keys.error);
    }
    var out := ResetIds(prelude + ordered.value, newId);
    r := Success(Notebook(out, keys.value));
  }

  /** The kernel metadata step as `convert_notebook` runs it: one `del` after the other. */
  method StandardizeKernel(keys: Option<set<string>>) returns (r: Result<Option<set<string>>>)
    ensures r == StandardKernel(keys)
  {
    if keys.None? || "kernelspec" !in keys.value {
      return Success(keys);
    }
    var left := keys.value;
    if "dfnotebook" !in left {
      return Failure(KeyError);
    }
    left := left - {"dfnotebook"};
    if "enable_tags" !in left {
      return Failure(KeyError);
    }
    left := left - {"enable_tags"};
    assert left == keys.value - {"dfnotebook", "enable_tags"};
    r := Success(Some(left));
  }

  /**
   * The two conversions succeed and fail together, and agree when the
   * prose goes above the code.
   */
  lemma ConvertedAgrees(nb: Notebook, mdAbove: bool, rewrite: CellRewrite, topological: map<string, set<string>> -> seq<string>,
                        prelude: seq<Cell>, newId: nat -> string)
    requires DistinctKeys(nb.cells)
    ensures var asWritten, corrected := Converted(nb, mdAbove, rewrite, topological, prelude, newId),
      ConvertedCorrected(nb, mdAbove, rewrite, topological, prelude, newId);
      && (asWritten.Success? <==> corrected.Success?)
      && (mdAbove ==> asWritten == corrected)
  {
    ProseOfPartition(nb.cells);
    var p := Partition.Partition(nb.cells).value;
    if Processed(p, rewrite).Success? {
      var processed := Processed(p, rewrite).value;
      var order := topological(processed.1);
      ReassembledMeans(nb.cells, processed.0, order, mdAbove);
      ConvertedThen(nb, p, processed, mdAbove, rewrite, topological, prelude, newId);
    }
  }

  /** The two conversions after the first pass and processing: they differ only in the ordering step. */
  lemma ConvertedThen(nb: Notebook, p: Parts, processed: (map<string, Cell>, map<string, set<string>>), mdAbove: bool,
                      rewrite: CellRewrite, topological: map<string, set<string>> -> seq<string>,
                      prelude: seq<Cell>, newId: nat -> string)
    requires Partition.Partition(nb.cells) == Success(p) && Processed(p, rewrite) == Success(processed)
    ensures var order, keys := topological(processed.1), StandardKernel(nb.metadataKeys);
      && Converted(nb, mdAbove, rewrite, topological, prelude, newId) ==
           (match ReassembledAsWritten(p, processed.0, order, mdAbove)
            case Failure(e) => Failure(e)
            case Success(ordered) => if keys.Failure? then Failure(keys.error) else Success(Notebook(ResetAll(prelude + ordered, newId), keys.value)))
      && ConvertedCorrected(nb, mdAbove, rewrite, topological, prelude, newId) ==
           (match Reassembled(p, processed.0, order, mdAbove)
            case Failure(e) => Failure(e)
            case Success(ordered) => if keys.Failure? then Failure(keys.error) else Success(Notebook(ResetAll(prelude + ordered, newId), keys.value)))
  {
  }

  /**
   * Every prose cell of a notebook whose cells have distinct keys comes out
   * of a corrected conversion that succeeds, changed only in its id.
   */
  lemma ConvertKeepsProse(nb: Notebook, mdAbove: bool, rewrite: CellRewrite, topological: map<string, set<string>> -> seq<string>,
                          prelude: seq<Cell>, newId: nat -> string)
    requires DistinctKeys(nb.cells)
    requires ConvertedCorrected(nb, mdAbove, rewrite, topological, prelude, newId).Success?
    ensures var r := ConvertedCorrected(nb, mdAbove, rewrite, topological, prelude, newId).value.cells;
      forall c :: c in ProseCells(nb.cells) ==> exists i :: 0 <= i < |r| && r[i] == c.(id := newId(i))
  {
    var cells := nb.cells;
    var p := Partition.Partition(cells).value;
    var processed := Processed(p, rewrite).value;
    var order := topological(processed.1);
    ReassembledMeans(cells, processed.0, order, mdAbove);
    var ordered := Reassembled(p, processed.0, order, mdAbove).value;
    var all := prelude + ordered;
    assert ConvertedCorrected(nb, mdAbove, rewrite, topological, prelude, newId).value.cells == ResetAll(all, newId);
    ProseNotCode(cells);
    forall c | c in ProseCells(cells) ensures exists i :: 0 <= i < |all| && ResetAll(all, newId)[i] == c.(id := newId(i)) {
      assert c in multiset(ordered);
      assert c in all;
      ResetKeepsProse(all, newId, c);
    }
  }

  /** A prose cell among those reset comes out with its fresh id and nothing else changed. */
  lemma ResetKeepsProse(all: seq<Cell>, newId: nat -> string, c: Cell)
    requires c in all && !IsCode(c)
    ensures exists i :: 0 <= i < |all| && ResetAll(all, newId)[i] == c.(id := newId(i))
  {
    var i :| 0 <= i < |all| && all[i] == c;
    assert ResetAll(all, newId)[i] == ResetCell(c, newId(i));
  }

  lemma {:induction false} ProseNotCode(cells: seq<Cell>)
    ensures forall c :: c in ProseCells(cells) ==> !IsCode(c)
  {
    if cells != [] {
      ProseNotCode(cells[..|cells| - 1]);
    }
  }
}
