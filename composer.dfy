/** The palette composers of nclcmaps.py: `create`, `cmap`, `cmapRange`,
    `cmapDiscrete` (single table) and `create_from_multiple`, `cmapMulti`
    (several tables joined in order). Each returns the palette rows that the
    source hands to matplotlib's ListedColormap. */
module Composer {
  import opened ColorTypes
  import opened Rows
  import opened Normalizer

  /** The normalization of one table succeeded and produced rows. */
  predicate Produces(n: Result<Option<Palette>>)
  {
    n.Ok? && n.value.Some?
  }

  /** The step `create`, `cmap` and `cmapRange` end with: propagate the
      exception of `normalize`; a `None` from it makes `np.flip` or
      ListedColormap raise; otherwise flip the rows when asked. */
  function Deliver(name: string, n: Result<Option<Palette>>, reverse: bool): (r: Result<Palette>)
    ensures r.Ok? <==> Produces(n)
    ensures n == Ok(None) ==> r == Err(MissingTable(name))
    ensures n.Err? ==> r == Err(n.fault)
    ensures r.Ok? ==> r.value == Oriented(n.value.value, reverse)
  {
    match n
    case Err(f) => Err(f)
    case Ok(None) => Err(MissingTable(name))
    case Ok(Some(p)) => Ok(Oriented(p, reverse))
  }

  /** A normalized palette, possibly flipped, is the normalization of the
      selected rows taken in the same order. */
  lemma OrientedNormalized(p: Palette, rows: seq<RawTriplet>, reverse: bool)
    requires rows != [] && NormalizedFrom(p, rows)
    ensures Oriented(rows, reverse) != [] && NormalizedFrom(Oriented(p, reverse), Oriented(rows, reverse))
  {
    if reverse {
      FlipNormalized(p, rows);
    }
  }

  /** `create(name, indices, reverse)`: the normalized selection, flipped
      along the rows when `reverse` is set. Flipping and normalizing
      commute, so the palette is the normalization of the selected rows in
      output order. */
  function Create(cat: Catalogue, name: string, sel: Selection, reverse: bool): (r: Result<Palette>)
    ensures r.Ok? <==> Produces(Normalize(cat, name, sel))
    ensures name !in cat ==> r == Err(MissingTable(name))
    ensures Normalize(cat, name, sel).Err? ==> r == Err(Normalize(cat, name, sel).fault)
    ensures r.Ok? ==>
      (name in cat && Select(cat[name], sel).Ok? &&
       var rows := Oriented(Select(cat[name], sel).value, reverse);
       rows != [] && NormalizedFrom(r.value, rows))
  {
    var n := Normalize(cat, name, sel);
    if Produces(n) then
      OrientedNormalized(n.value.value, Select(cat[name], sel).value, reverse);
      Deliver(name, n, reverse)
    else
      Deliver(name, n, reverse)
  }

  /** `cmap(name, reverse)`: the whole table (reserved rows included)
      normalized by its maximum, flipped when `reverse` is set. */
  function Cmap(cat: Catalogue, name: string, reverse: bool): (r: Result<Palette>)
    ensures r.Ok? <==> name in cat && cat[name] != []
    ensures name !in cat ==> r == Err(MissingTable(name))
    ensures name in cat && cat[name] == [] ==> r == Err(EmptySelection)
    ensures r.Ok? ==>
      (name in cat && cat[name] != [] &&
       Oriented(cat[name], reverse) != [] && NormalizedFrom(r.value, Oriented(cat[name], reverse)))
  {
    var n := Normalize(cat, name, Whole);
    if Produces(n) then
      OrientedNormalized(n.value.value, cat[name], reverse);
      Deliver(name, n, reverse)
    else
      Deliver(name, n, reverse)
  }

  /** `np.arange(start, finish)`: the integers from `start` up to but not
      including `finish`, none when `finish <= start`. */
  function Range(start: int, finish: int): (r: seq<int>)
    ensures |r| == if start < finish then finish - start else 0
    ensures forall k :: 0 <= k < |r| ==> r[k] == start + k
    decreases finish - start
  {
    if finish <= start then [] else [start] + Range(start + 1, finish)
  }

  /** `cmapRange(name, start, finish, reverse)`: the rows of caller indices
      `start .. finish - 1`, normalized, flipped when `reverse` is set.
      Without `finish`, the source raises UnboundLocalError. */
  function CmapRange(cat: Catalogue, name: string, start: int, finish: Option<int>, reverse: bool): (r: Result<Palette>)
    ensures finish == None ==> r == Err(FinishUnbound)
    ensures finish.Some? && name !in cat ==> r == Err(MissingTable(name))
    ensures finish.Some? && name in cat ==>
      (r.Ok? <==>
         start < finish.value &&
         InBounds(|cat[name]|, start - ReservedRows) && InBounds(|cat[name]|, finish.value - 1 - ReservedRows))
    ensures r.Ok? ==> finish.Some? && |r.value| == finish.value - start
  {
    match finish
    case None => Err(FinishUnbound)
    case Some(f) =>
      RangeSelection(cat, name, start, f);
      Deliver(name, Normalize(cat, name, Picked(Range(start, f))), reverse)
  }

  /** The indices of a contiguous range produce rows exactly when the range
      is non-empty and both of its ends name stored rows; there is then one
      row per index. */
  lemma RangeSelection(cat: Catalogue, name: string, start: int, finish: int)
    ensures name in cat ==>
      (Produces(Normalize(cat, name, Picked(Range(start, finish)))) <==>
         start < finish &&
         InBounds(|cat[name]|, start - ReservedRows) && InBounds(|cat[name]|, finish - 1 - ReservedRows))
    ensures Produces(Normalize(cat, name, Picked(Range(start, finish)))) ==>
      |Normalized(cat, name, Picked(Range(start, finish)))| == finish - start
  {
    var ids := Range(start, finish);
    if name in cat {
      var n := |cat[name]|;
      RangeInBounds(n, start, finish);
      NormalizePickedSucceeds(cat, name, ids);
      assert Produces(Normalize(cat, name, Picked(ids))) <==> Normalize(cat, name, Picked(ids)).Ok?;
    }
  }

  /** Every index of a non-empty contiguous range is a valid position
      exactly when both of its ends are. */
  lemma RangeInBounds(n: nat, start: int, finish: int)
    ensures (start < finish && InBounds(n, start - ReservedRows) && InBounds(n, finish - 1 - ReservedRows)) <==>
      (Range(start, finish) != [] && AllInBounds(n, Range(start, finish)))
  {
    var ids := Range(start, finish);
    if ids != [] {
      assert ids[0] == start && ids[|ids| - 1] == finish - 1;
    }
  }

  /** `cmapDiscrete(name, indices, multi)`: with `multi` the raw result of
      `normalize`, `None` included; without it the rows for ListedColormap,
      which raises on `None`. `indices` goes to `normalize` unchanged, so
      passing `None` selects the whole table. */
  function CmapDiscrete(cat: Catalogue, name: string, sel: Selection, multi: bool): (r: Result<Option<Palette>>)
    ensures !multi ==> r != Ok(None)
    ensures !multi && name !in cat ==> r == Err(MissingTable(name))
    ensures name in cat ==> r == Normalize(cat, name, sel)
  {
    var data := Normalize(cat, name, sel);
    if multi || data != Ok(None) then data else Err(MissingTable(name))
  }

  // ---------------------------------------------------------------------
  // Several tables

  /** Block `j` of a multi-table call raises: its selection is missing or
      its `normalize` raises. */
  predicate BlockFails(cat: Catalogue, names: seq<string>, sels: seq<Selection>, j: nat)
    requires j < |names|
  {
    j >= |sels| || Normalize(cat, names[j], sels[j]).Err?
  }

  /** The exception block `j` raises. */
  function BlockFault(cat: Catalogue, names: seq<string>, sels: seq<Selection>, j: nat): Fault
    requires j < |names| && BlockFails(cat, names, sels, j)
  {
    if j >= |sels| then SelectionMissing(j) else Normalize(cat, names[j], sels[j]).fault
  }

  /** Block `j` is the first block from `i` on that raises. */
  predicate FirstFailing(cat: Catalogue, names: seq<string>, sels: seq<Selection>, i: nat, j: nat)
  {
    && i <= j < |names|
    && BlockFails(cat, names, sels, j)
    && forall l :: i <= l < j ==> !BlockFails(cat, names, sels, l)
  }

  /** `[normalize(names[j], indices[j]) for j in range(i, len(names))]`,
      evaluated left to right: the first exception aborts it. */
  function NormalizeFrom(cat: Catalogue, names: seq<string>, sels: seq<Selection>, i: nat): (r: Result<seq<Option<Palette>>>)
    requires i <= |names|
    ensures r.Ok? <==> forall j :: i <= j < |names| ==> !BlockFails(cat, names, sels, j)
    ensures r.Ok? ==>
      (|r.value| == |names| - i &&
       forall k :: 0 <= k < |r.value| ==> Yields(cat, names, sels, i + k, r.value[k]))
    ensures r.Err? ==> exists j :: FirstFailing(cat, names, sels, i, j) && r.fault == BlockFault(cat, names, sels, j)
    decreases |names| - i
  {
    if i == |names| then Ok([])
    else if i >= |sels| then
      assert FirstFailing(cat, names, sels, i, i);
      Err(SelectionMissing(i))
    else
      match Normalize(cat, names[i], sels[i])
      case Err(f) =>
        assert FirstFailing(cat, names, sels, i, i);
        Err(f)
      case Ok(o) =>
        match NormalizeFrom(cat, names, sels, i + 1)
        case Err(f) =>
          ghost var j :| FirstFailing(cat, names, sels, i + 1, j) && f == BlockFault(cat, names, sels, j);
          assert FirstFailing(cat, names, sels, i, j);
          Err(f)
        case Ok(rest) =>
          ConsOutputs(cat, names, sels, i, o, rest);
          Ok([o] + rest)
  }

  /** Block `j` runs and `normalize` returns `o` for it. */
  predicate Yields(cat: Catalogue, names: seq<string>, sels: seq<Selection>, j: nat, o: Option<Palette>)
    requires j < |names|
  {
    j < |sels| && Normalize(cat, names[j], sels[j]) == Ok(o)
  }

  lemma ConsOutputs(cat: Catalogue, names: seq<string>, sels: seq<Selection>, i: nat, o: Option<Palette>, rest: seq<Option<Palette>>)
    requires i + 1 + |rest| == |names| && Yields(cat, names, sels, i, o)
    requires forall k :: 0 <= k < |rest| ==> Yields(cat, names, sels, i + 1 + k, rest[k])
    ensures forall k :: 0 <= k < |[o] + rest| ==> Yields(cat, names, sels, i + k, ([o] + rest)[k])
  {
    forall k | 0 <= k < |[o] + rest| ensures Yields(cat, names, sels, i + k, ([o] + rest)[k]) {
      if k == 0 {
        assert ([o] + rest)[k] == o;
      } else {
        assert ([o] + rest)[k] == rest[k - 1];
        assert Yields(cat, names, sels, i + 1 + (k - 1), rest[k - 1]);
      }
    }
  }

  /** Entry `j` is the first `None` among the normalized blocks. */
  predicate FirstMissing(outs: seq<Option<Palette>>, j: nat)
  {
    j < |outs| && outs[j] == None && forall l :: 0 <= l < j ==> outs[l].Some?
  }

  /** `np.concatenate` raises on the first `None` entry; otherwise every
      entry is an array of rows. */
  function Unwrap(names: seq<string>, outs: seq<Option<Palette>>): (r: Result<seq<Palette>>)
    requires |outs| <= |names|
    ensures r.Ok? <==> forall j :: 0 <= j < |outs| ==> outs[j].Some?
    ensures r.Ok? ==> |r.value| == |outs| && forall j :: 0 <= j < |outs| ==> outs[j] == Some(r.value[j])
    ensures r.Err? ==> exists j: nat :: FirstMissing(outs, j) && r.fault == MissingTable(names[j])
  {
    if outs == [] then Ok([])
    else
      match outs[0]
      case None =>
        assert FirstMissing(outs, 0);
        Err(MissingTable(names[0]))
      case Some(b) =>
        match Unwrap(names[1..], outs[1..])
        case Err(f) =>
          ghost var j: nat :| FirstMissing(outs[1..], j) && f == MissingTable(names[1..][j]);
          assert FirstMissing(outs, j + 1);
          Err(f)
        case Ok(rest) =>
          assert forall j :: 0 < j < |outs| ==> outs[j] == outs[1..][j - 1];
          Ok([b] + rest)
  }

  /** Every block of a multi-table call produces rows. */
  predicate AllProduce(cat: Catalogue, names: seq<string>, sels: seq<Selection>)
  {
    |names| <= |sels| && forall j :: 0 <= j < |names| ==> Produces(Normalize(cat, names[j], sels[j]))
  }

  /** The normalized blocks, each by its own maximum, in caller order. */
  function Gathered(cat: Catalogue, names: seq<string>, sels: seq<Selection>): (g: seq<Palette>)
    requires AllProduce(cat, names, sels)
    ensures |g| == |names|
    ensures forall j :: 0 <= j < |names| ==> Normalize(cat, names[j], sels[j]) == Ok(Some(g[j]))
  {
    seq(|names|, j requires 0 <= j < |names| => Normalized(cat, names[j], sels[j]))
  }

  /** The comprehension and `np.concatenate` shared by
      `create_from_multiple` and `cmapMulti`. */
  function Combined(cat: Catalogue, names: seq<string>, sels: seq<Selection>): (r: Result<Palette>)
    ensures r.Ok? <==> |names| > 0 && AllProduce(cat, names, sels)
    ensures r.Ok? ==> r.value == Flatten(Gathered(cat, names, sels))
    ensures |names| == 0 ==> r == Err(NothingToConcatenate)
    ensures (exists j :: 0 <= j < |names| && BlockFails(cat, names, sels, j)) ==>
      r.Err? && exists j :: FirstFailing(cat, names, sels, 0, j) && r.fault == BlockFault(cat, names, sels, j)
    ensures |names| > 0 && (forall j :: 0 <= j < |names| ==> !BlockFails(cat, names, sels, j)) ==>
      |names| <= |sels| &&
      (r.Err? ==> exists j: nat :: FirstMissing(Outputs(cat, names, sels), j) && r.fault == MissingTable(names[j]))
  {
    match NormalizeFrom(cat, names, sels, 0)
    case Err(f) =>
      FailingBlock(cat, names, sels, f);
      Err(f)
    case Ok(outs) =>
      OutputsOf(cat, names, sels, outs);
      if outs == [] then Err(NothingToConcatenate)
      else
        match Unwrap(names, outs)
        case Err(f) =>
          MissingBlock(cat, names, sels, outs, f);
          Err(f)
        case Ok(blocks) =>
          GatheredOf(cat, names, sels, outs, blocks);
          Ok(Flatten(blocks))
  }

  /** A raising block keeps the call from producing rows. */
  lemma FailingBlock(cat: Catalogue, names: seq<string>, sels: seq<Selection>, f: Fault)
    requires NormalizeFrom(cat, names, sels, 0) == Err(f)
    ensures !AllProduce(cat, names, sels)
    ensures exists j: nat :: FirstFailing(cat, names, sels, 0, j) && f == BlockFault(cat, names, sels, j)
  {
    var j: nat :| FirstFailing(cat, names, sels, 0, j) && f == BlockFault(cat, names, sels, j);
    if j < |sels| {
      assert !Produces(Normalize(cat, names[j], sels[j]));
    }
  }

  /** When no block raises, the comprehension's entries are `Outputs`, and
      every block produces rows exactly when no entry is `None`. */
  lemma OutputsOf(cat: Catalogue, names: seq<string>, sels: seq<Selection>, outs: seq<Option<Palette>>)
    requires NormalizeFrom(cat, names, sels, 0) == Ok(outs)
    ensures |outs| == |names| <= |sels| && outs == Outputs(cat, names, sels)
  {
    if |names| > 0 {
      assert Yields(cat, names, sels, |names| - 1, outs[|names| - 1]);
    }
    assert |names| <= |sels|;
    var o := Outputs(cat, names, sels);
    forall j | 0 <= j < |names| ensures o[j] == outs[j] {
      assert Yields(cat, names, sels, j, outs[j]);
    }
  }

  /** A `None` entry keeps the call from producing rows. */
  lemma MissingBlock(cat: Catalogue, names: seq<string>, sels: seq<Selection>, outs: seq<Option<Palette>>, f: Fault)
    requires NormalizeFrom(cat, names, sels, 0) == Ok(outs)
    requires |outs| == |names| && Unwrap(names, outs) == Err(f)
    ensures !AllProduce(cat, names, sels)
  {
    var j: nat :| FirstMissing(outs, j) && f == MissingTable(names[j]);
    assert Yields(cat, names, sels, j, outs[j]);
    assert !Produces(Normalize(cat, names[j], sels[j]));
  }

  /** The unwrapped entries are the gathered blocks. */
  lemma GatheredOf(cat: Catalogue, names: seq<string>, sels: seq<Selection>, outs: seq<Option<Palette>>, blocks: seq<Palette>)
    requires NormalizeFrom(cat, names, sels, 0) == Ok(outs)
    requires |outs| == |names| && Unwrap(names, outs) == Ok(blocks)
    ensures AllProduce(cat, names, sels) && blocks == Gathered(cat, names, sels)
  {
    OutputsOf(cat, names, sels, outs);
    forall j | 0 <= j < |names| ensures Normalize(cat, names[j], sels[j]) == Ok(Some(blocks[j])) {
      assert Yields(cat, names, sels, j, outs[j]);
    }
    var g := Gathered(cat, names, sels);
    forall j | 0 <= j < |names| ensures g[j] == blocks[j] {
      assert Normalize(cat, names[j], sels[j]) == Ok(Some(blocks[j]));
    }
  }

  /** The value of `normalize` for each block, when none of them raises. */
  function Outputs(cat: Catalogue, names: seq<string>, sels: seq<Selection>): seq<Option<Palette>>
    requires |names| <= |sels|
    requires forall j :: 0 <= j < |names| ==> !BlockFails(cat, names, sels, j)
  {
    seq(|names|, j requires 0 <= j < |names| =>
      match Normalize(cat, names[j], sels[j]) case Ok(o) => o case Err(_) => None)
  }

  /** `create_from_multiple(names, indices, reverse)`: the blocks joined in
      order, and the joined rows flipped once as a whole when `reverse` is
      set. */
  function CreateFromMultiple(cat: Catalogue, names: seq<string>, sels: seq<Selection>, reverse: bool): (r: Result<Palette>)
    ensures r.Ok? <==> |names| > 0 && AllProduce(cat, names, sels)
    ensures r.Ok? ==> r.value == Oriented(Flatten(Gathered(cat, names, sels)), reverse)
    ensures r.Err? ==> r == Combined(cat, names, sels)
  {
    match Combined(cat, names, sels)
    case Err(f) => Err(f)
    case Ok(p) => Ok(Oriented(p, reverse))
  }

  /** `cmapMulti(names, indicesList)`: the blocks joined in order, never
      flipped. */
  function CmapMulti(cat: Catalogue, names: seq<string>, sels: seq<Selection>): (r: Result<Palette>)
    ensures r.Ok? <==> |names| > 0 && AllProduce(cat, names, sels)
    ensures r.Ok? ==> r.value == Flatten(Gathered(cat, names, sels))
  {
    Combined(cat, names, sels)
  }

  // ---------------------------------------------------------------------
  // Properties of the composers

  /** `cmap` is `create` over the whole table. */
  lemma CmapIsCreate(cat: Catalogue, name: string, reverse: bool)
    ensures Cmap(cat, name, reverse) == Create(cat, name, Whole, reverse)
  {
  }

  /** `cmapRange` with an explicit `finish` is `create` over the indices
      `start, start + 1, ..., finish - 1`. */
  lemma CmapRangeIsCreate(cat: Catalogue, name: string, start: int, finish: int, reverse: bool)
    ensures CmapRange(cat, name, start, Some(finish), reverse) == Create(cat, name, Picked(Range(start, finish)), reverse)
  {
  }

  /** `cmapDiscrete` with `multi` set returns exactly what `normalize`
      returns. */
  lemma CmapDiscreteMulti(cat: Catalogue, name: string, sel: Selection)
    ensures CmapDiscrete(cat, name, sel, true) == Normalize(cat, name, sel)
  {
  }

  /** `cmapMulti` is `create_from_multiple` without reversal. */
  lemma CmapMultiIsCreateFromMultiple(cat: Catalogue, names: seq<string>, sels: seq<Selection>)
    ensures CmapMulti(cat, names, sels) == CreateFromMultiple(cat, names, sels, false)
  {
  }

  /** `create` flips the normalized selection: output row `k` is row `k`,
      or row `n - 1 - k`, of the unflipped result. */
  lemma CreateFlips(cat: Catalogue, name: string, sel: Selection)
    ensures Create(cat, name, sel, true).Ok? <==> Create(cat, name, sel, false).Ok?
    ensures Create(cat, name, sel, true).Ok? ==>
      Create(cat, name, sel, true).value == Flip(Create(cat, name, sel, false).value)
  {
  }

  /** Order preservation: block `j` of a multi-table call appears verbatim,
      normalized by its own maximum, right after the rows of the blocks
      before it, and the output has exactly the rows of all blocks. */
  lemma {:induction false} CreateFromMultipleBlocks(cat: Catalogue, names: seq<string>, sels: seq<Selection>, j: nat)
    requires CreateFromMultiple(cat, names, sels, false).Ok? && j < |names|
    ensures var p := CreateFromMultiple(cat, names, sels, false).value;
      var g := Gathered(cat, names, sels);
      |p| == TotalRows(g) &&
      Offset(g, j) + |g[j]| <= |p| &&
      p[Offset(g, j)..Offset(g, j) + |g[j]|] == Normalized(cat, names[j], sels[j])
  {
    var g := Gathered(cat, names, sels);
    FlattenBlock(g, j);
  }

  /** Local bases: inside the output of a multi-table call, the rows of
      every block whose selection is not all black lie in [0, 1] and hit 1
      exactly, whatever the maxima of the other blocks. */
  lemma {:induction false} CreateFromMultipleLocalBasis(cat: Catalogue, names: seq<string>, sels: seq<Selection>, j: nat)
    requires CreateFromMultiple(cat, names, sels, false).Ok? && j < |names|
    ensures MaxComponent(Select(cat[names[j]], sels[j]).value) > 0 ==>
      var p := CreateFromMultiple(cat, names, sels, false).value;
      var g := Gathered(cat, names, sels);
      Offset(g, j) + |g[j]| <= |p| &&
      (forall k :: Offset(g, j) <= k < Offset(g, j) + |g[j]| ==> InUnitCube(p[k])) &&
      exists k :: Offset(g, j) <= k < Offset(g, j) + |g[j]| && HasOne(p[k])
  {
    var p := CreateFromMultiple(cat, names, sels, false).value;
    var g := Gathered(cat, names, sels);
    var b := g[j];
    assert b == Normalized(cat, names[j], sels[j]);
    var o := Offset(g, j);
    assert p == Flatten(g);
    FlattenBlock(g, j);
    assert p[o..o + |b|] == b;
    if MaxComponent(Select(cat[names[j]], sels[j]).value) > 0 {
      NormalizeRange(cat, names[j], sels[j]);
      UnitSliceAt(p, b, o);
    }
  }

  /** A slice in the unit cube that reaches 1 does so inside the whole. */
  lemma UnitSliceAt(p: Palette, b: Palette, o: nat)
    requires o + |b| <= |p| && p[o..o + |b|] == b
    requires (forall k :: 0 <= k < |b| ==> InUnitCube(b[k])) && exists k :: 0 <= k < |b| && HasOne(b[k])
    ensures forall k :: o <= k < o + |b| ==> InUnitCube(p[k])
    ensures exists k :: o <= k < o + |b| && HasOne(p[k])
  {
    SliceAt(p, b, o);
    var h :| 0 <= h < |b| && HasOne(b[h]);
    assert HasOne(p[o + h]);
  }

  lemma SliceAt<T>(p: seq<T>, b: seq<T>, o: nat)
    requires o + |b| <= |p| && p[o..o + |b|] == b
    ensures forall k :: o <= k < o + |b| ==> p[k] == b[k - o]
  {
    forall k | o <= k < o + |b| ensures p[k] == b[k - o] {
      assert p[o..o + |b|][k - o] == p[k];
    }
  }

  /** With `reverse`, the whole joined sequence is flipped once: output row
      `k` is row `n - 1 - k` of the unreversed output, so the last block
      comes first and every block's rows run backwards. */
  lemma CreateFromMultipleReversed(cat: Catalogue, names: seq<string>, sels: seq<Selection>)
    ensures CreateFromMultiple(cat, names, sels, true).Ok? <==> CreateFromMultiple(cat, names, sels, false).Ok?
    ensures CreateFromMultiple(cat, names, sels, true).Ok? ==>
      var p := CreateFromMultiple(cat, names, sels, false).value;
      var q := CreateFromMultiple(cat, names, sels, true).value;
      |q| == |p| && forall k :: 0 <= k < |p| ==> q[k] == p[|p| - 1 - k]
  {
    var r0, r1 := CreateFromMultiple(cat, names, sels, false), CreateFromMultiple(cat, names, sels, true);
    if r1.Ok? {
      var joined := Flatten(Gathered(cat, names, sels));
      assert r0.value == Oriented(joined, false) == joined;
      assert r1.value == Oriented(joined, true) == Flip(joined);
    }
  }

  /** Two tables: the first block's rows, then the second's, verbatim;
      reversed, the flipped second block comes before the flipped first. */
  lemma {:induction false} CreateFromTwo(cat: Catalogue, a: string, sa: Selection, b: string, sb: Selection)
    requires Produces(Normalize(cat, a, sa)) && Produces(Normalize(cat, b, sb))
    ensures CreateFromMultiple(cat, [a, b], [sa, sb], false) ==
      Ok(Normalized(cat, a, sa) + Normalized(cat, b, sb))
    ensures CreateFromMultiple(cat, [a, b], [sa, sb], true) ==
      Ok(Flip(Normalized(cat, b, sb)) + Flip(Normalized(cat, a, sa)))
  {
    var pa, pb := Normalized(cat, a, sa), Normalized(cat, b, sb);
    var names, sels := [a, b], [sa, sb];
    assert AllProduce(cat, names, sels) by {
      assert names[0] == a && names[1] == b && sels[0] == sa && sels[1] == sb;
    }
    var g := Gathered(cat, names, sels);
    assert g[0] == pa && g[1] == pb;
    assert g == [pa, pb];
    FlattenPair(pa, pb);
    FlipAppend(pa, pb);
  }

  /** No table, nothing to concatenate: the call fails. */
  lemma CreateFromNothing(cat: Catalogue, sels: seq<Selection>, reverse: bool)
    ensures CreateFromMultiple(cat, [], sels, reverse) == Err(NothingToConcatenate)
  {
  }
}
