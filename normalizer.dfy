/** `normalize` of nclcmaps.py: look a table up by name, select rows from it
    (the whole table, or caller indices shifted past the two reserved
    entries with Python's list-indexing rule), and divide every component by
    the largest component of the selected rows. */
module Normalizer {
  import opened ColorTypes
  import opened Rows

  /** Caller-facing indices are shifted by this much: indices 0 and 1 are
      reserved for white and black. */
  const ReservedRows: int := 2

  /** Python accepts `t[p]` for a list of length `n` exactly when this holds;
      otherwise it raises IndexError. */
  predicate InBounds(n: nat, p: int)
  {
    -(n as int) <= p < n
  }

  /** The stored position Python reads for `t[p]`: the one position in
      `[0, n)` congruent to `p` modulo `n`. */
  function PyIndex(n: nat, p: int): (i: nat)
    requires InBounds(n, p)
    ensures i < n
    ensures i % n == p % n
  {
    if p < 0 then p + n else p
  }

  /** Every caller index in `ids` names a stored row of a table of length `n`. */
  predicate AllInBounds(n: nat, ids: seq<int>)
  {
    forall k :: 0 <= k < |ids| ==> InBounds(n, ids[k] - ReservedRows)
  }

  /** Index `k` of `ids` is the first one whose shifted position Python rejects. */
  predicate FirstOutOfBounds(n: nat, ids: seq<int>, k: int)
  {
    && 0 <= k < |ids|
    && !InBounds(n, ids[k] - ReservedRows)
    && forall j :: 0 <= j < k ==> InBounds(n, ids[j] - ReservedRows)
  }

  /** `[t[e - 2] for e in ids]`: row `k` of the result is stored row
      `ids[k] - 2`; the first index out of range raises. */
  function Pick(t: Table, ids: seq<int>): (r: Result<seq<RawTriplet>>)
    ensures r.Ok? <==> AllInBounds(|t|, ids)
    ensures r.Ok? ==> |r.value| == |ids|
    ensures r.Ok? ==> forall k :: 0 <= k < |ids| ==>
      InBounds(|t|, ids[k] - ReservedRows) && r.value[k] == t[PyIndex(|t|, ids[k] - ReservedRows)]
    ensures r.Err? ==> exists k :: FirstOutOfBounds(|t|, ids, k) && r.fault == IndexOutOfRange(ids[k])
  {
    if ids == [] then Ok([])
    else if !InBounds(|t|, ids[0] - ReservedRows) then
      assert FirstOutOfBounds(|t|, ids, 0);
      Err(IndexOutOfRange(ids[0]))
    else
      match Pick(t, ids[1..])
      case Err(f) =>
        ghost var k :| FirstOutOfBounds(|t|, ids[1..], k) && f == IndexOutOfRange(ids[1..][k]);
        assert FirstOutOfBounds(|t|, ids, k + 1);
        Err(f)
      case Ok(rest) =>
        assert forall k :: 0 < k < |ids| ==> ids[k] == ids[1..][k - 1];
        Ok([t[PyIndex(|t|, ids[0] - ReservedRows)]] + rest)
  }

  /** The raw rows a selection names: `colors[name]` itself, or one row per
      caller index; only caller indices can fail, and then with one of them. */
  function Select(t: Table, sel: Selection): (r: Result<seq<RawTriplet>>)
    ensures sel.Whole? ==> r == Ok(t)
    ensures sel.Picked? && r.Ok? ==> |r.value| == |sel.indices|
    ensures r.Err? ==> sel.Picked? && r.fault.IndexOutOfRange? && r.fault.index in sel.indices
  {
    match sel
    case Whole => Ok(t)
    case Picked(ids) => Pick(t, ids)
  }

  /** `m` is no smaller than any component of `c`. */
  predicate Bounds(c: RawTriplet, m: int)
  {
    c.0 <= m && c.1 <= m && c.2 <= m
  }

  /** Some component of `c` equals `m`. */
  predicate Attains(c: RawTriplet, m: int)
  {
    c.0 == m || c.1 == m || c.2 == m
  }

  function Max(a: nat, b: nat): nat
  {
    if a < b then b else a
  }

  /** `np.max(rows)`: the largest component over all rows and all three
      channels. */
  function MaxComponent(rows: seq<RawTriplet>): (m: nat)
    requires rows != []
    ensures forall k :: 0 <= k < |rows| ==> Bounds(rows[k], m)
    ensures exists k :: 0 <= k < |rows| && Attains(rows[k], m)
  {
    var here := Max(rows[0].0, Max(rows[0].1, rows[0].2));
    assert Attains(rows[0], here);
    if |rows| == 1 then here
    else
      var rest := MaxComponent(rows[1..]);
      ghost var k :| 0 <= k < |rows[1..]| && Attains(rows[1..][k], rest);
      assert Attains(rows[k + 1], rest);
      assert forall j :: 0 < j < |rows| ==> rows[j] == rows[1..][j - 1];
      Max(here, rest)
  }

  /** One raw row divided by the basis `m`: exact division when `m > 0`,
      numpy's row of nan when `m == 0`. */
  function Scale(c: RawTriplet, m: nat): (r: Color)
    ensures r == NaN <==> m == 0
    ensures m > 0 ==> r.r * m as real == c.0 as real && r.g * m as real == c.1 as real && r.b * m as real == c.2 as real
  {
    if m == 0 then NaN
    else Rgb(c.0 as real / m as real, c.1 as real / m as real, c.2 as real / m as real)
  }

  /** `p` is `rows` with every component divided by the largest component
      of `rows`. */
  ghost predicate NormalizedFrom(p: Palette, rows: seq<RawTriplet>)
    requires rows != []
  {
    |p| == |rows| && forall k :: 0 <= k < |rows| ==> p[k] == Scale(rows[k], MaxComponent(rows))
  }

  /** `normalize(name, indices)`: `None` (here `Ok(None)`) for an unknown
      name; the selection's IndexError; ValueError for an empty selection;
      otherwise the selected rows normalized by their own maximum. */
  function Normalize(cat: Catalogue, name: string, sel: Selection): (r: Result<Option<Palette>>)
    ensures r == Ok(None) <==> name !in cat
    ensures name in cat && Select(cat[name], sel).Err? ==> r == Err(Select(cat[name], sel).fault)
    ensures name in cat && Select(cat[name], sel) == Ok([]) ==> r == Err(EmptySelection)
    ensures name in cat && Select(cat[name], sel).Ok? && Select(cat[name], sel).value != [] ==>
      r.Ok? && r.value.Some? && NormalizedFrom(r.value.value, Select(cat[name], sel).value)
  {
    if name !in cat then Ok(None)
    else
      match Select(cat[name], sel)
      case Err(f) => Err(f)
      case Ok(rows) =>
        if rows == [] then Err(EmptySelection)
        else
          var m := MaxComponent(rows);
          Ok(Some(seq(|rows|, k requires 0 <= k < |rows| => Scale(rows[k], m))))
  }

  /** The normalized rows themselves, for a call that returns a palette. */
  function Normalized(cat: Catalogue, name: string, sel: Selection): Palette
    requires Normalize(cat, name, sel).Ok? && Normalize(cat, name, sel).value.Some?
  {
    Normalize(cat, name, sel).value.value
  }

  // ---------------------------------------------------------------------
  // Properties of normalize

  /** An unknown name yields `None` and no palette; a known one never does. */
  lemma NormalizeMissing(cat: Catalogue, name: string, sel: Selection)
    ensures name !in cat ==> Normalize(cat, name, sel) == Ok(None)
    ensures name in cat ==> Normalize(cat, name, sel) != Ok(None)
  {
  }

  /** With indices given, the call succeeds exactly when there is at least
      one index and every shifted index is a valid Python position, and it
      then yields one row per index. */
  lemma NormalizePickedSucceeds(cat: Catalogue, name: string, ids: seq<int>)
    requires name in cat
    ensures Normalize(cat, name, Picked(ids)).Ok? <==>
      ids != [] && AllInBounds(|cat[name]|, ids)
    ensures Normalize(cat, name, Picked(ids)).Ok? ==>
      Normalize(cat, name, Picked(ids)).value.Some? && |Normalize(cat, name, Picked(ids)).value.value| == |ids|
  {
  }

  /** With indices given, output row `k` is stored row `indices[k] - 2`
      (Python indexing) divided by the maximum of the selected rows; a
      failed call reports the first offending index, or the empty
      selection. */
  lemma NormalizePicked(cat: Catalogue, name: string, ids: seq<int>)
    requires name in cat
    ensures Normalize(cat, name, Picked(ids)).Ok? <==>
      ids != [] && AllInBounds(|cat[name]|, ids)
    ensures var t := cat[name]; var r := Normalize(cat, name, Picked(ids));
      r.Ok? ==>
        (r.value.Some? && |r.value.value| == |ids| &&
         var rows := Pick(t, ids).value;
         forall k :: 0 <= k < |ids| ==>
           rows[k] == t[PyIndex(|t|, ids[k] - ReservedRows)] &&
           r.value.value[k] == Scale(rows[k], MaxComponent(rows)))
    ensures var t := cat[name]; var r := Normalize(cat, name, Picked(ids));
      r.Err? ==>
        (ids == [] && r.fault == EmptySelection) ||
        (exists k :: FirstOutOfBounds(|t|, ids, k) && r.fault == IndexOutOfRange(ids[k]))
  {
  }

  /** Without indices, the output has one row per stored row, in order, and
      row `k` is stored row `k` normalized by the table's maximum. */
  lemma NormalizeWhole(cat: Catalogue, name: string)
    requires name in cat
    ensures var t := cat[name]; var r := Normalize(cat, name, Whole);
      (t == [] ==> r == Err(EmptySelection)) &&
      (t != [] ==>
         (r.Ok? && r.value.Some? && |r.value.value| == |t| &&
          forall k :: 0 <= k < |t| ==> r.value.value[k] == Scale(t[k], MaxComponent(t))))
  {
  }

  /** The reserved offset: index 2 names the first stored row, and indices 0
      and 1 wrap around to the last two stored rows. */
  lemma {:induction false} ReservedOffset(t: Table, i: nat)
    requires i < |t|
    ensures Select(t, Picked([ReservedRows + i])) == Ok([t[i]])
    ensures |t| >= 2 ==> Select(t, Picked([2])) == Ok([t[0]])
    ensures |t| >= 2 ==> Select(t, Picked([0, 1])) == Ok([t[|t| - 2], t[|t| - 1]])
  {
    var r := Pick(t, [ReservedRows + i]);
    assert r.Ok? && |r.value| == 1 && r.value[0] == t[PyIndex(|t|, i)];
    assert r.value == [t[i]];
    if |t| >= 2 {
      var r2 := Pick(t, [2]);
      assert r2.Ok? && |r2.value| == 1 && r2.value[0] == t[PyIndex(|t|, 0)];
      assert r2.value == [t[0]];
      var r01 := Pick(t, [0, 1]);
      assert InBounds(|t|, [0, 1][0] - ReservedRows) && InBounds(|t|, [0, 1][1] - ReservedRows);
      assert r01.Ok? && |r01.value| == 2;
      assert r01.value[0] == t[PyIndex(|t|, -2)];
      assert r01.value[1] == t[PyIndex(|t|, -1)];
      assert r01.value == [t[|t| - 2], t[|t| - 1]];
    }
  }

  /** A raw row bounded by `m > 0` scales into the unit cube. */
  lemma ScaleInUnit(c: RawTriplet, m: nat)
    requires m > 0 && Bounds(c, m)
    ensures Scale(c, m).Rgb?
    ensures 0.0 <= Scale(c, m).r <= 1.0 && 0.0 <= Scale(c, m).g <= 1.0 && 0.0 <= Scale(c, m).b <= 1.0
  {
    UnitQuotient(c.0, m);
    UnitQuotient(c.1, m);
    UnitQuotient(c.2, m);
  }

  lemma UnitQuotient(x: nat, m: nat)
    requires 0 < m && x <= m
    ensures 0.0 <= x as real / m as real <= 1.0
  {
    assert x as real <= m as real;
    assert x as real / m as real * m as real == x as real;
  }

  lemma SelfQuotient(m: nat)
    requires 0 < m
    ensures m as real / m as real == 1.0
  {
  }

  /** A component reaching the basis `m > 0` scales to exactly 1. */
  lemma ScaleHitsOne(c: RawTriplet, m: nat)
    requires m > 0 && Attains(c, m)
    ensures HasOne(Scale(c, m))
  {
    SelfQuotient(m);
    var s := Scale(c, m);
    assert s.r == c.0 as real / m as real && s.g == c.1 as real / m as real && s.b == c.2 as real / m as real;
  }

  /** All components of the colour lie in [0, 1]. */
  predicate InUnitCube(c: Color)
  {
    c.Rgb? && 0.0 <= c.r <= 1.0 && 0.0 <= c.g <= 1.0 && 0.0 <= c.b <= 1.0
  }

  /** Some component of the colour is exactly 1. */
  predicate HasOne(c: Color)
  {
    c.Rgb? && (c.r == 1.0 || c.g == 1.0 || c.b == 1.0)
  }

  /** Normalization range: when the selected rows have a positive component,
      every output component lies in [0, 1] and at least one is exactly 1;
      when they are all black, every output row is nan. */
  lemma {:induction false} NormalizeRange(cat: Catalogue, name: string, sel: Selection)
    requires Normalize(cat, name, sel).Ok? && Normalize(cat, name, sel).value.Some?
    ensures var p := Normalized(cat, name, sel); var rows := Select(cat[name], sel).value;
      rows != [] &&
      (MaxComponent(rows) > 0 ==>
         (forall k :: 0 <= k < |p| ==> InUnitCube(p[k])) && exists k :: 0 <= k < |p| && HasOne(p[k])) &&
      (MaxComponent(rows) == 0 ==> forall k :: 0 <= k < |p| ==> p[k] == NaN)
  {
    var p := Normalized(cat, name, sel);
    var rows := Select(cat[name], sel).value;
    var m := MaxComponent(rows);
    if m > 0 {
      forall k | 0 <= k < |p| ensures InUnitCube(p[k]) {
        ScaleInUnit(rows[k], m);
      }
      var k :| 0 <= k < |rows| && Attains(rows[k], m);
      ScaleHitsOne(rows[k], m);
      assert HasOne(p[k]);
    }
  }

  /** The largest component is the only value that bounds every component
      and is itself a component. */
  lemma MaxComponentUnique(rows: seq<RawTriplet>, m: nat)
    requires rows != []
    requires forall k :: 0 <= k < |rows| ==> Bounds(rows[k], m)
    requires exists k :: 0 <= k < |rows| && Attains(rows[k], m)
    ensures m == MaxComponent(rows)
  {
    var top := MaxComponent(rows);
    var k1 :| 0 <= k1 < |rows| && Attains(rows[k1], m);
    assert Bounds(rows[k1], top);
    var k2 :| 0 <= k2 < |rows| && Attains(rows[k2], top);
    assert Bounds(rows[k2], m);
  }

  /** The basis of a selection does not depend on the order of its rows:
      any rearrangement of the same rows has the same maximum. */
  lemma MaxComponentPermutation(a: seq<RawTriplet>, b: seq<RawTriplet>)
    requires a != [] && multiset(a) == multiset(b)
    ensures b != [] && MaxComponent(b) == MaxComponent(a)
  {
    var m := MaxComponent(a);
    assert |b| == |multiset(b)| == |multiset(a)| == |a|;
    forall k | 0 <= k < |b| ensures Bounds(b[k], m) {
      assert b[k] in multiset(a);
      var j :| 0 <= j < |a| && a[j] == b[k];
    }
    var i :| 0 <= i < |a| && Attains(a[i], m);
    assert a[i] in multiset(b);
    var j :| 0 <= j < |b| && b[j] == a[i];
    MaxComponentUnique(b, m);
  }

  /** Reversing the selected rows leaves the basis unchanged. */
  lemma {:induction false} MaxComponentFlip(rows: seq<RawTriplet>)
    requires rows != []
    ensures MaxComponent(Flip(rows)) == MaxComponent(rows)
  {
    var n := |rows|;
    var m1, m2 := MaxComponent(rows), MaxComponent(Flip(rows));
    var k1 :| 0 <= k1 < n && Attains(rows[k1], m1);
    assert Flip(rows)[n - 1 - k1] == rows[k1];
    assert Bounds(Flip(rows)[n - 1 - k1], m2);
    var k2 :| 0 <= k2 < n && Attains(Flip(rows)[k2], m2);
    assert Flip(rows)[k2] == rows[n - 1 - k2];
    assert Bounds(rows[n - 1 - k2], m1);
  }

  /** Reversing a normalized palette gives the normalization of the reversed
      selection. */
  lemma {:induction false} FlipNormalized(p: Palette, rows: seq<RawTriplet>)
    requires rows != [] && NormalizedFrom(p, rows)
    ensures Flip(rows) != [] && NormalizedFrom(Flip(p), Flip(rows))
  {
    MaxComponentFlip(rows);
  }
}
