/**
 * The first pass of `convert_notebook`: code cells are set aside by their
 * key, prose (non-code) cells are grouped into blocks, and each non-empty
 * code cell is attached to the block of the latest prose cell before it.
 * A prose cell that follows a block with no code attached absorbs that
 * block, so a run of prose cells with no code between them ends up as one
 * block: its last cell and the sequence of the earlier ones.
 */
module Partition {
  import opened Wrappers
  import opened Text
  import opened ODicts
  import opened Cells

  /** The dictionaries and the cursor the pass builds. */
  datatype Parts = Parts(
    code: ODict<Cell>,                      // code_cells_ref (each entry's single cell)
    prose: ODict<Cell>,                     // non_code_cells_ref
    blocks: ODict<set<string>>,             // non_code_cells_block: block -> attached code keys
    seqs: map<string, seq<Cell>>,           // non_code_cells_seq: block -> earlier prose of its run
    outputTags: map<string, seq<string>>,   // nb_output_tags
    latest: Option<string>)                 // latest_non_code_cell

  predicate PartsValid(p: Parts)
  {
    && Valid(p.code) && Valid(p.prose) && Valid(p.blocks)
    && (forall k :: k in p.blocks.vals ==> k in p.prose.vals)
    && (p.latest.Some? ==> p.latest.value in p.blocks.vals && p.latest.value in p.prose.vals)
  }

  const Initial: Parts := Parts(Empty(), Empty(), Empty(), map[], map[], None)

  /** `latest_non_code_cell` taken as a condition: set and not the empty string. */
  predicate Active(p: Parts)
  {
    p.latest.Some? && p.latest.value != ""
  }

  /**
   * One cell of the pass. A prose cell starts a new block, absorbing the
   * latest block first when no code is attached to it (reading that block's
   * sequence, which is missing, and so raises, when the same key was absorbed
   * before). A code cell is attached to the latest block when its source is
   * not empty, and is recorded, its outputs stripped, with its output tags.
   */
  function Step(p: Parts, c: Cell): (r: Result<Parts>)
    requires PartsValid(p)
    ensures r.Success? ==> PartsValid(r.value)
    ensures r.Failure? ==> r.error == KeyError
  {
    if IsCode(c) then Success(StepCode(p, c))
    else if Active(p) && p.blocks.vals[p.latest.value] == {} then Absorb(p, c)
    else Success(NewBlock(p, c))
  }

  /** A code cell: attached to the latest block if its source is not empty, and recorded. */
  function StepCode(p: Parts, c: Cell): (r: Parts)
    requires PartsValid(p)
    ensures PartsValid(r)
  {
    var key := CellKey(c);
    var blocks :=
      if Active(p) && c.source != "" then Put(p.blocks, p.latest.value, p.blocks.vals[p.latest.value] + {key})
      else p.blocks;
    Parts(Put(p.code, key, StrippedCell(c)), p.prose, blocks, p.seqs, p.outputTags[key := TagsOf(c.outputs)], p.latest)
  }

  /** A prose cell after a block with code attached (or the first one): a block of its own. */
  function NewBlock(p: Parts, c: Cell): (r: Parts)
    requires PartsValid(p)
    ensures PartsValid(r)
  {
    var key := CellKey(c);
    Parts(p.code, Put(p.prose, key, c), Put(p.blocks, key, {}), p.seqs[key := []], p.outputTags, Some(key))
  }

  /** A prose cell after a block with no code attached: that block's run is taken into the new one. */
  function Absorb(p: Parts, c: Cell): (r: Result<Parts>)
    requires PartsValid(p) && p.latest.Some?
    ensures r.Success? ==> PartsValid(r.value)
    ensures r.Failure? ==> r.error == KeyError
  {
    var key := CellKey(c);
    var l := p.latest.value;
    var seqs := p.seqs[key := []];
    if l !in seqs then Failure(KeyError)
    else
      // `seqs[key]` was just set to the empty list, so `+=` leaves the moved run
      var seqs' := seqs[key := seqs[l] + [p.prose.vals[l]]] - {l};
      Success(Parts(p.code, Put(p.prose, key, c), Put(Remove(p.blocks, l), key, {}), seqs', p.outputTags, Some(key)))
  }

  /** The pass over the cells in notebook order. */
  function Partition(cells: seq<Cell>): (r: Result<Parts>)
    ensures r.Success? ==> PartsValid(r.value)
  {
    if cells == [] then Success(Initial)
    else
      var p :- Partition(cells[..|cells| - 1]);
      Step(p, cells[|cells| - 1])
  }

  /** Once a prefix of the cells raises, the whole pass does. */
  lemma {:induction false} PartitionPrefixFails(cells: seq<Cell>, n: nat)
    requires n <= |cells| && Partition(cells[..n]).Failure?
    ensures Partition(cells) == Partition(cells[..n])
    decreases |cells| - n
  {
    if n < |cells| {
      var m := n + 1;
      assert cells[..m][..|cells[..m]| - 1] == cells[..n];
      PartitionPrefixFails(cells, m);
    } else {
      assert cells[..n] == cells;
    }
  }

  /**
   * The loop over a code cell's outputs: the tags collected in order and
   * every output stripped of a transient execution count.
   */
  method ScanOutputs(outs: seq<Output>) returns (stripped: seq<Output>, tags: seq<string>)
    ensures |stripped| == |outs| && forall i :: 0 <= i < |outs| ==> stripped[i] == Stripped(outs[i])
    ensures tags == TagsOf(outs)
  {
    stripped, tags := [], [];
    for i := 0 to |outs|
      invariant |stripped| == i && forall k :: 0 <= k < i ==> stripped[k] == Stripped(outs[k])
      invariant tags == TagsOf(outs[..i])
    {
      var o := outs[i];
      assert outs[..i + 1][..i] == outs[..i];
      if o.tag.Some? && o.tag.value != "" {
        tags := tags + [o.tag.value];
      }
      if o.executionCount.Some? && o.outputType in TransientTypes {
        o := o.(executionCount := None);
      }
      stripped := stripped + [o];
    }
    assert outs[..|outs|] == outs;
  }

  /** `convert_notebook`'s first loop (the separation of code and non-code cells). */
  method PartitionCells(cells: seq<Cell>) returns (r: Result<Parts>)
    ensures r == Partition(cells)
  {
    var p := Initial;
    for i := 0 to |cells|
      invariant Partition(cells[..i]) == Success(p)
    {
      PartitionStep(cells, i);
      if IsCode(cells[i]) {
        p := AddCode(p, cells[i]);
      } else {
        var next := AddProse(p, cells[i]);
        if next.Failure? {
          PartitionPrefixFails(cells, i + 1);
          return next;
        }
        p := next.value;
      }
    }
    assert cells[..|cells|] == cells;
    r := Success(p);
  }

  /** The pass over one more cell is one more step. */
  lemma PartitionStep(cells: seq<Cell>, i: nat)
    requires i < |cells| && Partition(cells[..i]).Success?
    ensures Partition(cells[..i + 1]) == Step(Partition(cells[..i]).value, cells[i])
  {
    assert cells[..i + 1][..i] == cells[..i];
  }

  /** The loop body for a prose cell. */
  method AddProse(p: Parts, cell: Cell) returns (r: Result<Parts>)
    requires PartsValid(p) && !IsCode(cell)
    ensures r == Step(p, cell)
  {
    var key := CellKey(cell);
    var code, prose, blocks, seqs, outputTags, latest := p.code, p.prose, p.blocks, p.seqs, p.outputTags, p.latest;
    seqs := seqs[key := []];
    if latest.Some? && latest.value != "" && blocks.vals[latest.value] == {} {
      var l := latest.value;
      blocks := Remove(blocks, l);
      if l !in seqs {
        return Failure(KeyError);
      }
      var run := seqs[key] + seqs[l] + [prose.vals[l]];
      assert seqs[key] == [] && run == seqs[l] + [prose.vals[l]];
      seqs := seqs[key := run];
      seqs := seqs - {l};
    }
    latest := Some(key);
    prose := Put(prose, key, cell);
    blocks := Put(blocks, key, {});
    r := Success(Parts(code, prose, blocks, seqs, outputTags, latest));
  }

  /** The loop body for a code cell, with its loop over the outputs. */
  method AddCode(p: Parts, cell: Cell) returns (q: Parts)
    requires PartsValid(p) && IsCode(cell)
    ensures Step(p, cell) == Success(q)
  {
    var key := CellKey(cell);
    var blocks := p.blocks;
    if p.latest.Some? && p.latest.value != "" && cell.source != "" {
      blocks := Put(blocks, p.latest.value, blocks.vals[p.latest.value] + {key});
    }
    var outs, tags := ScanOutputs(cell.outputs);
    assert cell.(outputs := outs) == StrippedCell(cell);
    q := Parts(Put(p.code, key, cell.(outputs := outs)), p.prose, blocks, p.seqs, p.outputTags[key := tags], p.latest);
  }

  // ---------------------------------------------------------------------
  // What the pass builds, for cells whose keys are distinct and not empty

  /** The prose cells, in notebook order. */
  function ProseCells(cells: seq<Cell>): seq<Cell>
  {
    if cells == [] then []
    else
      var last := cells[|cells| - 1];
      ProseCells(cells[..|cells| - 1]) + (if IsCode(last) then [] else [last])
  }

  /** Every cell has its own key, and no key is empty. */
  predicate DistinctKeys(cells: seq<Cell>)
  {
    && (forall i :: 0 <= i < |cells| ==> CellKey(cells[i]) != "")
    && (forall i, j :: 0 <= i < j < |cells| ==> CellKey(cells[i]) != CellKey(cells[j]))
  }

  function AllKeys(cells: seq<Cell>): set<string>
  {
    set i | 0 <= i < |cells| :: CellKey(cells[i])
  }

  /** The keys of the code cells a block may claim: those with a non-empty source. */
  function AttachableKeys(cells: seq<Cell>): set<string>
  {
    set i | 0 <= i < |cells| && IsCode(cells[i]) && cells[i].source != "" :: CellKey(cells[i])
  }

  /** `seqs.get(k, [])`. */
  function SeqOf(seqs: map<string, seq<Cell>>, k: string): seq<Cell>
  {
    if k in seqs then seqs[k] else []
  }

  /** A block as it is emitted: its run's earlier prose, then its own cell. */
  function Group(k: string, seqs: map<string, seq<Cell>>, prose: map<string, Cell>): seq<Cell>
    requires k in prose
  {
    SeqOf(seqs, k) + [prose[k]]
  }

  /** The groups of the blocks `ks`, one after the other. */
  function Groups(ks: seq<string>, seqs: map<string, seq<Cell>>, prose: map<string, Cell>): seq<Cell>
    requires forall k :: k in ks ==> k in prose
  {
    if ks == [] then [] else Groups(ks[..|ks| - 1], seqs, prose) + Group(ks[|ks| - 1], seqs, prose)
  }

  /** Groups depend only on the blocks' own entries. */
  lemma {:induction false} GroupsAgree(ks: seq<string>, s1: map<string, seq<Cell>>, p1: map<string, Cell>, s2: map<string, seq<Cell>>, p2: map<string, Cell>)
    requires forall k :: k in ks ==> k in p1 && k in p2 && p1[k] == p2[k] && SeqOf(s1, k) == SeqOf(s2, k)
    ensures Groups(ks, s1, p1) == Groups(ks, s2, p2)
  {
    if ks != [] {
      GroupsAgree(ks[..|ks| - 1], s1, p1, s2, p2);
    }
  }

  function Last(ks: seq<string>): string
    requires ks != []
  {
    ks[|ks| - 1]
  }

  /** The latest block is the last one, and every block has a sequence entry. */
  predicate Shape(p: Parts)
  {
    && PartsValid(p)
    && (p.latest.None? <==> p.blocks.keys == [])
    && (p.blocks.keys != [] ==> p.latest == Some(Last(p.blocks.keys)))
    && (forall k :: k in p.blocks.keys ==> k in p.seqs)
  }

  /**
   * The prose cells of `done` are recorded in order, and the blocks' groups,
   * in block order, are exactly those cells.
   */
  predicate ProseKept(p: Parts, done: seq<Cell>)
    requires PartsValid(p)
  {
    && Groups(p.blocks.keys, p.seqs, p.prose.vals) == ProseCells(done)
    && Values(p.prose) == ProseCells(done)
  }

  /** Every recorded prose key is the key of a cell of `done`. */
  predicate KeysSeen(p: Parts, done: seq<Cell>)
  {
    forall k :: k in p.prose.vals ==> k in AllKeys(done)
  }

  /**
   * Every block but the last has code attached, only keys in `attachable`
   * are attached, and no key to two blocks.
   */
  predicate BlocksWellFormed(blocks: ODict<set<string>>, attachable: set<string>)
    requires Valid(blocks)
  {
    && (forall i :: 0 <= i < |blocks.keys| - 1 ==> blocks.vals[blocks.keys[i]] != {})
    && (forall k, x :: k in blocks.vals && x in blocks.vals[k] ==> x in attachable)
    && (forall k1, k2, x :: k1 in blocks.vals && k2 in blocks.vals && x in blocks.vals[k1] && x in blocks.vals[k2] ==> k1 == k2)
  }

  predicate Inv(p: Parts, done: seq<Cell>)
  {
    Shape(p) && ProseKept(p, done) && KeysSeen(p, done) && BlocksWellFormed(p.blocks, AttachableKeys(done))
  }

  /**
   * For cells with distinct, non-empty keys the pass never raises, the
   * blocks' groups hold every prose cell once and in order, every block
   * but the last has code attached, only non-empty code cells are
   * attached, and each to one block at most.
   */
  lemma {:induction false} PartitionShape(cells: seq<Cell>)
    requires DistinctKeys(cells)
    ensures Partition(cells).Success?
    ensures Inv(Partition(cells).value, cells)
  {
    if cells == [] {
      assert Values(Initial.prose) == [];
    } else {
      var init := cells[..|cells| - 1];
      var c := cells[|cells| - 1];
      assert cells == init + [c];
      PrefixKeys(cells);
      PartitionShape(init);
      StepInv(Partition(init).value, init, c);
    }
  }

  /** Dropping the last cell keeps the keys distinct, and the last key is new. */
  lemma PrefixKeys(cells: seq<Cell>)
    requires DistinctKeys(cells) && cells != []
    ensures DistinctKeys(cells[..|cells| - 1])
    ensures CellKey(cells[|cells| - 1]) !in AllKeys(cells[..|cells| - 1]) && CellKey(cells[|cells| - 1]) != ""
    ensures "" !in AllKeys(cells[..|cells| - 1])
  {
    var init := cells[..|cells| - 1];
    forall i | 0 <= i < |init| ensures CellKey(init[i]) != "" {
      assert init[i] == cells[i];
    }
    forall i, j | 0 <= i < j < |init| ensures CellKey(init[i]) != CellKey(init[j]) {
      assert init[i] == cells[i] && init[j] == cells[j];
    }
    forall i | 0 <= i < |init| ensures CellKey(init[i]) != CellKey(cells[|cells| - 1]) {
      assert init[i] == cells[i];
    }
  }

  /** How the keys and the prose cells grow by one cell. */
  lemma KeysGrow(done: seq<Cell>, c: Cell)
    ensures AllKeys(done + [c]) == AllKeys(done) + {CellKey(c)}
    ensures AttachableKeys(done) <= AttachableKeys(done + [c]) && AttachableKeys(done) <= AllKeys(done)
    ensures IsCode(c) && c.source != "" ==> CellKey(c) in AttachableKeys(done + [c])
    ensures ProseCells(done + [c]) == ProseCells(done) + (if IsCode(c) then [] else [c])
  {
    var all := done + [c];
    assert all[..|done|] == done && all[|done|] == c;
    forall x | x in AllKeys(all) ensures x in AllKeys(done) + {CellKey(c)} {
      var i :| 0 <= i < |all| && CellKey(all[i]) == x;
      if i < |done| {
        assert all[i] == done[i];
      }
    }
    forall x | x in AllKeys(done) ensures x in AllKeys(all) {
      var i :| 0 <= i < |done| && CellKey(done[i]) == x;
      assert all[i] == done[i];
    }
    forall x | x in AttachableKeys(done) ensures x in AttachableKeys(all) && x in AllKeys(done) {
      var i :| 0 <= i < |done| && IsCode(done[i]) && done[i].source != "" && CellKey(done[i]) == x;
      assert all[i] == done[i];
    }
  }

  lemma StepInv(p: Parts, done: seq<Cell>, c: Cell)
    requires Inv(p, done) && "" !in AllKeys(done)
    requires CellKey(c) !in AllKeys(done) && CellKey(c) != ""
    ensures Step(p, c).Success? && Inv(Step(p, c).value, done + [c])
  {
    KeysGrow(done, c);
    var key := CellKey(c);
    var A, A' := AttachableKeys(done), AttachableKeys(done + [c]);
    assert key !in p.prose.vals && key !in p.blocks.vals && key !in A;
    if IsCode(c) {
      CodeShape(p, c);
      CodeProse(p, done, c);
      if Active(p) && c.source != "" {
        BlocksAttach(p.blocks, p.latest.value, key, A, A');
      }
    } else if Active(p) && p.blocks.vals[p.latest.value] == {} {
      AbsorbShape(p, c);
      AbsorbProse(p, done, c);
      BlocksAbsorb(p.blocks, key, A, A');
    } else {
      NewShape(p, c);
      NewProse(p, done, c);
      assert p.latest.Some? ==> Active(p);
      BlocksNew(p.blocks, key, A, A');
    }
  }

  /** Attaching a new key to a block. */
  lemma BlocksAttach(b: ODict<set<string>>, k: string, key: string, A: set<string>, A': set<string>)
    requires Valid(b) && BlocksWellFormed(b, A) && k in b.vals
    requires key !in A && A + {key} <= A'
    ensures BlocksWellFormed(Put(b, k, b.vals[k] + {key}), A')
  {
    var q := Put(b, k, b.vals[k] + {key});
    forall k1, k2, x | k1 in q.vals && k2 in q.vals && x in q.vals[k1] && x in q.vals[k2]
      ensures k1 == k2
    {
      if x != key {
        assert x in b.vals[k1] && x in b.vals[k2];
      }
    }
  }

  /** A new empty block after a last block that has code attached. */
  lemma BlocksNew(b: ODict<set<string>>, key: string, A: set<string>, A': set<string>)
    requires Valid(b) && BlocksWellFormed(b, A) && key !in b.vals && A <= A'
    requires b.keys != [] ==> b.vals[Last(b.keys)] != {}
    ensures BlocksWellFormed(Put(b, key, {}), A')
  {
    var q := Put(b, key, {});
    forall i | 0 <= i < |q.keys| - 1 ensures q.vals[q.keys[i]] != {} {
      assert q.keys[i] == b.keys[i];
    }
  }

  /** The last block, with no code attached, replaced by a new empty one. */
  lemma BlocksAbsorb(b: ODict<set<string>>, key: string, A: set<string>, A': set<string>)
    requires Valid(b) && BlocksWellFormed(b, A) && b.keys != [] && key !in b.vals && A <= A'
    ensures BlocksWellFormed(Put(Remove(b, Last(b.keys)), key, {}), A')
  {
    WithoutLast(b.keys, Last(b.keys));
    var q := Put(Remove(b, Last(b.keys)), key, {});
    assert q.keys == b.keys[..|b.keys| - 1] + [key];
    forall i | 0 <= i < |q.keys| - 1 ensures q.vals[q.keys[i]] != {} {
      assert q.keys[i] == b.keys[i];
    }
  }

  lemma CodeShape(p: Parts, c: Cell)
    requires Shape(p) && IsCode(c)
    ensures Shape(StepCode(p, c))
  {
  }

  lemma CodeProse(p: Parts, done: seq<Cell>, c: Cell)
    requires PartsValid(p) && ProseKept(p, done) && IsCode(c)
    requires ProseCells(done + [c]) == ProseCells(done)
    ensures ProseKept(StepCode(p, c), done + [c])
  {
  }

  lemma NewShape(p: Parts, c: Cell)
    requires Shape(p) && !IsCode(c) && CellKey(c) !in p.blocks.vals
    ensures Shape(NewBlock(p, c))
  {
    var q := NewBlock(p, c);
    assert q.blocks.keys == p.blocks.keys + [CellKey(c)];
  }

  lemma NewProse(p: Parts, done: seq<Cell>, c: Cell)
    requires Shape(p) && ProseKept(p, done) && !IsCode(c)
    requires CellKey(c) !in p.prose.vals && CellKey(c) !in p.blocks.vals
    requires ProseCells(done + [c]) == ProseCells(done) + [c]
    ensures ProseKept(NewBlock(p, c), done + [c])
  {
    var key := CellKey(c);
    GroupsAppendNew(p.blocks.keys, p.seqs, p.prose.vals, key, c);
    ValuesPutNew(p.prose, key, c);
  }

  /** A new block with no earlier prose adds its own cell after the other groups. */
  lemma GroupsAppendNew(ks: seq<string>, seqs: map<string, seq<Cell>>, prose: map<string, Cell>, key: string, c: Cell)
    requires forall k :: k in ks ==> k in prose
    requires key !in ks
    ensures Groups(ks + [key], seqs[key := []], prose[key := c]) == Groups(ks, seqs, prose) + [c]
  {
    assert (ks + [key])[..|ks|] == ks;
    GroupsAgree(ks, seqs, prose, seqs[key := []], prose[key := c]);
  }

  lemma AbsorbShape(p: Parts, c: Cell)
    requires Shape(p) && !IsCode(c) && Active(p) && CellKey(c) !in p.blocks.vals
    ensures Absorb(p, c).Success? && Shape(Absorb(p, c).value)
  {
    var ks := p.blocks.keys;
    WithoutLast(ks, p.latest.value);
    assert Absorb(p, c).value.blocks.keys == ks[..|ks| - 1] + [CellKey(c)];
  }

  lemma AbsorbProse(p: Parts, done: seq<Cell>, c: Cell)
    requires Shape(p) && ProseKept(p, done) && !IsCode(c) && Active(p)
    requires CellKey(c) !in p.prose.vals && CellKey(c) !in p.blocks.vals
    requires ProseCells(done + [c]) == ProseCells(done) + [c]
    ensures Absorb(p, c).Success? && ProseKept(Absorb(p, c).value, done + [c])
  {
    var key := CellKey(c);
    var l := p.latest.value;
    var ks := p.blocks.keys;
    var front := ks[..|ks| - 1];
    WithoutLast(ks, l);
    assert ks == front + [l];
    assert l !in front by {
      forall i | 0 <= i < |front| ensures front[i] != l {
        assert front[i] == ks[i];
      }
    }
    var q := Absorb(p, c).value;
    assert q.blocks.keys == front + [key];
    GroupsAbsorb(front, p.seqs, p.prose.vals, l, key, c);
    ValuesPutNew(p.prose, key, c);
  }

  /**
   * Taking the last block `l` into a new block `key` puts `l`'s group, then
   * the new cell, where `l`'s group was.
   */
  lemma GroupsAbsorb(front: seq<string>, seqs: map<string, seq<Cell>>, prose: map<string, Cell>, l: string, key: string, c: Cell)
    requires forall k :: k in front ==> k in prose
    requires l in prose && l in seqs && l !in front && key !in front && key != l
    ensures var s0 := seqs[key := []]; var seqs' := s0[key := s0[l] + [prose[l]]] - {l};
      Groups(front + [key], seqs', prose[key := c]) == Groups(front + [l], seqs, prose) + [c]
  {
    var s0 := seqs[key := []];
    var seqs' := s0[key := s0[l] + [prose[l]]] - {l};
    assert (front + [key])[..|front|] == front;
    assert (front + [l])[..|front|] == front;
    GroupsAgree(front, seqs, prose, seqs', prose[key := c]);
  }

  // ---------------------------------------------------------------------
  // Where a code cell is attached

  /** Every prefix of cells with distinct keys passes. */
  lemma PrefixSucceeds(cells: seq<Cell>, n: nat)
    requires DistinctKeys(cells) && n <= |cells|
    ensures Partition(cells[..n]).Success?
  {
    var pre := cells[..n];
    forall a | 0 <= a < |pre| ensures CellKey(pre[a]) != "" {
      assert pre[a] == cells[a];
    }
    forall a, b | 0 <= a < b < |pre| ensures CellKey(pre[a]) != CellKey(pre[b]) {
      assert pre[a] == cells[a] && pre[b] == cells[b];
    }
    PartitionShape(pre);
  }

  /** After a prose cell and any code cells that follow it, that prose cell's block is the latest. */
  lemma {:induction false} LatestProse(cells: seq<Cell>, i: nat, n: nat)
    requires DistinctKeys(cells) && i < n <= |cells| && !IsCode(cells[i])
    requires forall k :: i < k < n ==> IsCode(cells[k])
    ensures Partition(cells[..n]).Success? && Partition(cells[..n]).value.latest == Some(CellKey(cells[i]))
    decreases n
  {
    PrefixSucceeds(cells, n);
    PrefixSucceeds(cells, n - 1);
    PartitionStep(cells, n - 1);
    if n > i + 1 {
      LatestProse(cells, i, n - 1);
    }
  }

  /** `key` is attached to the block `block` after a pass that succeeds. */
  predicate AttachedTo(r: Result<Parts>, block: string, key: string)
  {
    r.Success? && block in r.value.blocks.vals && key in r.value.blocks.vals[block]
  }

  /** Once attached to a block, a code key stays attached to it for the rest of the pass. */
  lemma {:induction false} AttachedStays(cells: seq<Cell>, i: nat, j: nat, n: nat)
    requires DistinctKeys(cells) && i < j < n <= |cells|
    requires AttachedTo(Partition(cells[..j + 1]), CellKey(cells[i]), CellKey(cells[j]))
    ensures AttachedTo(Partition(cells[..n]), CellKey(cells[i]), CellKey(cells[j]))
    decreases n
  {
    if n > j + 1 {
      AttachedStays(cells, i, j, n - 1);
      AttachedLater(cells, i, j, n);
    }
  }

  lemma AttachedLater(cells: seq<Cell>, i: nat, j: nat, n: nat)
    requires DistinctKeys(cells) && i < j < n - 1 && n <= |cells|
    requires AttachedTo(Partition(cells[..n - 1]), CellKey(cells[i]), CellKey(cells[j]))
    ensures AttachedTo(Partition(cells[..n]), CellKey(cells[i]), CellKey(cells[j]))
  {
    assert CellKey(cells[n - 1]) != CellKey(cells[i]);
    PrefixSucceeds(cells, n);
    AttachedStep(cells, n, CellKey(cells[i]), CellKey(cells[j]));
  }

  lemma AttachedStep(cells: seq<Cell>, n: nat, block: string, key: string)
    requires 0 < n <= |cells| && CellKey(cells[n - 1]) != block
    requires AttachedTo(Partition(cells[..n - 1]), block, key) && Partition(cells[..n]).Success?
    ensures AttachedTo(Partition(cells[..n]), block, key)
  {
    PartitionStep(cells, n - 1);
    StepKeepsAttached(Partition(cells[..n - 1]).value, cells[n - 1], block, key);
  }

  /** One step of the pass keeps every key attached to a block other than the new cell's. */
  lemma StepKeepsAttached(p: Parts, c: Cell, block: string, key: string)
    requires PartsValid(p) && CellKey(c) != block && AttachedTo(Success(p), block, key)
    ensures Step(p, c).Success? ==> AttachedTo(Step(p, c), block, key)
  {
    if !IsCode(c) && Active(p) && p.blocks.vals[p.latest.value] == {} {
      assert p.latest.value != block;
    }
  }

  /**
   * A code cell with a non-empty source is attached to the block of the
   * latest prose cell before it (when there is one), and is still attached
   * to that block when the pass ends.
   */
  lemma CodeJoinsLatestProse(cells: seq<Cell>, i: nat, j: nat)
    requires DistinctKeys(cells)
    requires i < j < |cells| && !IsCode(cells[i]) && IsCode(cells[j]) && cells[j].source != ""
    requires forall k :: i < k < j ==> IsCode(cells[k])
    ensures Partition(cells).Success?
    ensures var b := Partition(cells).value.blocks.vals;
      CellKey(cells[i]) in b && CellKey(cells[j]) in b[CellKey(cells[i])]
  {
    AttachedFirst(cells, i, j);
    AttachedStays(cells, i, j, |cells|);
    assert cells[..|cells|] == cells;
  }

  /** The step over the code cell itself attaches it to the latest block. */
  lemma AttachedFirst(cells: seq<Cell>, i: nat, j: nat)
    requires DistinctKeys(cells)
    requires i < j < |cells| && !IsCode(cells[i]) && IsCode(cells[j]) && cells[j].source != ""
    requires forall k :: i < k < j ==> IsCode(cells[k])
    ensures AttachedTo(Partition(cells[..j + 1]), CellKey(cells[i]), CellKey(cells[j]))
  {
    LatestProse(cells, i, j);
    PrefixSucceeds(cells, j + 1);
    PartitionStep(cells, j);
    assert CellKey(cells[i]) != "";
  }
}
