/**
 * Notebook cells as the conversion reads them: the cell's id, type,
 * source, outputs, metadata and execution count, and of each output its
 * type, execution count and `output_tag`.
 */
module Cells {
  import opened Wrappers
  import opened Text

  /**
   * An output of a code cell. `tag` is `metadata['output_tag']`, None when
   * the output has no metadata or no such entry.
   */
  datatype Output = Output(outputType: string, executionCount: Option<int>, tag: Option<string>)

  /**
   * A cell. `metadata` holds the cell's metadata entries by their path;
   * a code cell's persistent code is the entry at `PersistentCodePath`.
   */
  datatype Cell = Cell(
    id: string,
    cellType: string,
    source: string,
    outputs: seq<Output>,
    metadata: map<string, string>,
    executionCount: Option<int>)

  /** Where `cell['metadata']['dfmetadata']['persistentCode']` is kept. */
  const PersistentCodePath: string := "dfmetadata/persistentCode"

  predicate IsCode(c: Cell)
  {
    c.cellType == "code"
  }

  /** `cell['id'].split('-')[0]`: the id up to its first `-`. */
  function CellKey(c: Cell): (k: string)
    ensures k <= c.id && '-' !in k
    ensures |k| < |c.id| ==> c.id[|k|] == '-'
  {
    c.id[..FirstIndexOf(c.id, '-')]
  }

  /** The output types whose `execution_count` the conversion removes. */
  const TransientTypes: set<string> := {"stream", "display_data", "error", "update_display_data", "clear_output"}

  /**
   * An output with its execution count removed when its type is one of the
   * transient ones; other outputs, and everything else of every output, kept.
   */
  function Stripped(o: Output): (r: Output)
    ensures r.outputType == o.outputType && r.tag == o.tag
    ensures o.outputType in TransientTypes ==> r.executionCount == None
    ensures o.outputType !in TransientTypes ==> r == o
  {
    if o.executionCount.Some? && o.outputType in TransientTypes then o.(executionCount := None) else o
  }

  /** A tag Python takes for true: present and not empty. */
  predicate HasTag(o: Output)
  {
    o.tag.Some? && o.tag.value != ""
  }

  /**
   * The output tags the conversion collects for a code cell, in output
   * order: those of the outputs that have a non-empty one.
   */
  function TagsOf(outs: seq<Output>): (tags: seq<string>)
    ensures |tags| <= |outs|
    ensures forall t :: t in tags ==> t != "" && exists i :: 0 <= i < |outs| && outs[i].tag == Some(t)
  {
    if outs == [] then []
    else
      var init := outs[..|outs| - 1];
      var last := outs[|outs| - 1];
      var tags := TagsOf(init);
      assert forall t :: t in tags ==> exists i :: 0 <= i < |outs| && outs[i].tag == Some(t) by {
        forall t | t in tags ensures exists i :: 0 <= i < |outs| && outs[i].tag == Some(t) {
          var i :| 0 <= i < |init| && init[i].tag == Some(t);
          assert outs[i] == init[i];
        }
      }
      tags + (if HasTag(last) then [last.tag.value] else [])
  }

  /** The tags of outputs that have an `output_tag` entry at all, empty ones included. */
  function ValidTags(outs: seq<Output>): (tags: seq<string>)
    ensures |tags| <= |outs|
    ensures TagsOf(outs) == Filter(tags)
  {
    if outs == [] then []
    else
      var last := outs[|outs| - 1];
      var tags := ValidTags(outs[..|outs| - 1]);
      FilterConcat(tags, if last.tag.Some? then [last.tag.value] else []);
      tags + (if last.tag.Some? then [last.tag.value] else [])
  }

  /** The non-empty strings of `ts`, in order. */
  function Filter(ts: seq<string>): seq<string>
  {
    if ts == [] then [] else Filter(ts[..|ts| - 1]) + (if ts[|ts| - 1] != "" then [ts[|ts| - 1]] else [])
  }

  lemma {:induction false} FilterConcat(a: seq<string>, b: seq<string>)
    ensures Filter(a + b) == Filter(a) + Filter(b)
    decreases |b|
  {
    if b != [] {
      var b' := b[..|b| - 1];
      assert (a + b)[..|a + b| - 1] == a + b';
      FilterConcat(a, b');
      assert b'[..|b'|] == b';
      if b' == [] {
        assert Filter(b) == Filter([]) + (if b[0] != "" then [b[0]] else []);
      }
    } else {
      assert a + b == a;
    }
  }

  /** The code cell as the conversion keeps it: every output stripped of a transient execution count. */
  function StrippedCell(c: Cell): (r: Cell)
    ensures |r.outputs| == |c.outputs|
    ensures forall i :: 0 <= i < |c.outputs| ==> r.outputs[i] == Stripped(c.outputs[i])
    ensures r == c.(outputs := r.outputs)
  {
    c.(outputs := seq(|c.outputs|, i requires 0 <= i < |c.outputs| => Stripped(c.outputs[i])))
  }
}
