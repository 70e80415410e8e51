/** Concrete calls on small catalogues, worked out by the verifier. */
module Scenarios {
  import opened ColorTypes
  import opened Normalizer
  import opened Composer

  /** A table with black and white stored first, then two colours. */
  const DemoRows: Table := [(0, 0, 0), (255, 255, 255), (100, 50, 25), (10, 20, 255)]

  const Demo: Catalogue := map["demo" := DemoRows]

  /** Indices 2 and 3 name stored rows 0 and 1, and the basis is 255. */
  lemma DemoFirstRows()
    ensures Normalize(Demo, "demo", Picked([2, 3])) == Ok(Some([Rgb(0.0, 0.0, 0.0), Rgb(1.0, 1.0, 1.0)]))
  {
    NormalizePicked(Demo, "demo", [2, 3]);
    var rows := Pick(DemoRows, [2, 3]).value;
    assert rows == [DemoRows[0], DemoRows[1]];
    assert MaxComponent(rows) == 255;
    var p := Normalized(Demo, "demo", Picked([2, 3]));
    assert p[0] == Scale(DemoRows[0], 255) == Rgb(0.0, 0.0, 0.0);
    assert p[1] == Scale(DemoRows[1], 255) == Rgb(1.0, 1.0, 1.0);
    assert p == [Rgb(0.0, 0.0, 0.0), Rgb(1.0, 1.0, 1.0)];
  }

  /** Indices 4 and 5 name the two colours; the largest component is 255. */
  lemma DemoColours()
    ensures Normalize(Demo, "demo", Picked([4, 5])) ==
      Ok(Some([Rgb(100.0 / 255.0, 50.0 / 255.0, 25.0 / 255.0), Rgb(10.0 / 255.0, 20.0 / 255.0, 1.0)]))
  {
    var rows := Pick(DemoRows, [4, 5]).value;
    assert rows == [DemoRows[2], DemoRows[3]];
    assert MaxComponent(rows) == 255;
    NormalizePicked(Demo, "demo", [4, 5]);
    var p := Normalized(Demo, "demo", Picked([4, 5]));
    assert p[0] == Scale(DemoRows[2], 255);
    assert p[1] == Scale(DemoRows[3], 255);
    assert p == [Rgb(100.0 / 255.0, 50.0 / 255.0, 25.0 / 255.0), Rgb(10.0 / 255.0, 20.0 / 255.0, 1.0)];
  }

  /** Indices 0 and 1 wrap around to the last two stored rows. */
  lemma DemoWrapAround()
    ensures Select(DemoRows, Picked([0, 1])) == Ok([(100, 50, 25), (10, 20, 255)])
  {
    ReservedOffset(DemoRows, 0);
  }

  /** Selecting black alone gives a basis of 0 and a row of nan. */
  lemma DemoBlackOnly()
    ensures Normalize(Demo, "demo", Picked([2])) == Ok(Some([NaN]))
  {
    var rows := Pick(DemoRows, [2]).value;
    assert rows == [DemoRows[0]];
    assert MaxComponent(rows) == 0;
    NormalizePicked(Demo, "demo", [2]);
    var p := Normalized(Demo, "demo", Picked([2]));
    assert p[0] == NaN;
    assert p == [NaN];
  }

  /** The first index out of range is the one reported: 6 names stored row
      4 of a four-row table, and -3 names -5. */
  lemma DemoOutOfRange()
    ensures Normalize(Demo, "demo", Picked([2, 6, -3])) == Err(IndexOutOfRange(6))
    ensures Create(Demo, "demo", Picked([-3, 6]), true) == Err(IndexOutOfRange(-3))
  {
    assert !InBounds(4, 6 - ReservedRows) && !InBounds(4, -3 - ReservedRows);
  }

  /** An unknown name: `normalize` and the multi passthrough give `None`,
      every other composer fails. */
  lemma DemoUnknownName()
    ensures Normalize(Demo, "gray", Whole) == Ok(None)
    ensures CmapDiscrete(Demo, "gray", Picked([2]), true) == Ok(None)
    ensures CmapDiscrete(Demo, "gray", Picked([2]), false) == Err(MissingTable("gray"))
    ensures Cmap(Demo, "gray", false) == Err(MissingTable("gray"))
    ensures Create(Demo, "gray", Picked([2]), true) == Err(MissingTable("gray"))
    ensures CmapRange(Demo, "gray", 2, Some(4), false) == Err(MissingTable("gray"))
    ensures CreateFromMultiple(Demo, ["gray"], [Whole], false) == Err(MissingTable("gray"))
    ensures CmapMulti(Demo, ["gray"], [Whole]) == Err(MissingTable("gray"))
  {
    var names, sels := ["gray"], [Whole];
    assert !BlockFails(Demo, names, sels, 0);
    assert Outputs(Demo, names, sels) == [None];
  }

  /** An empty range has nothing to take the maximum of. */
  lemma DemoEmptyRange()
    ensures CmapRange(Demo, "demo", 5, Some(5), false) == Err(EmptySelection)
    ensures CmapRange(Demo, "demo", 2, None, false) == Err(FinishUnbound)
  {
  }

  const TwoTables: Catalogue := map["dim" := [(100, 100, 100)], "bright" := [(100, 100, 100), (200, 200, 200)]]

  /** Each block is normalized by its own maximum: the same raw grey maps to
      1 in the first block and to 0.5 in the second. */
  lemma LocalNotGlobal()
    ensures CreateFromMultiple(TwoTables, ["dim", "bright"], [Picked([2]), Whole], false) ==
      Ok([Rgb(1.0, 1.0, 1.0), Rgb(0.5, 0.5, 0.5), Rgb(1.0, 1.0, 1.0)])
  {
    var dim, bright := TwoTables["dim"], TwoTables["bright"];
    var rows := Pick(dim, [2]).value;
    assert rows == [dim[0]];
    assert MaxComponent(rows) == 100;
    assert MaxComponent(bright) == 200;
    NormalizePicked(TwoTables, "dim", [2]);
    NormalizeWhole(TwoTables, "bright");
    var a := Normalized(TwoTables, "dim", Picked([2]));
    var b := Normalized(TwoTables, "bright", Whole);
    assert a[0] == Scale(dim[0], 100);
    assert a == [Rgb(1.0, 1.0, 1.0)];
    assert b[0] == Scale(bright[0], 200) && b[1] == Scale(bright[1], 200);
    assert b == [Rgb(0.5, 0.5, 0.5), Rgb(1.0, 1.0, 1.0)];
    CreateFromTwo(TwoTables, "dim", Picked([2]), "bright", Whole);
    assert a + b == [Rgb(1.0, 1.0, 1.0), Rgb(0.5, 0.5, 0.5), Rgb(1.0, 1.0, 1.0)];
  }

  /** The whole comprehension runs before `np.concatenate`: the index error
      of the second block wins over the unknown first table. */
  lemma LaterErrorWins()
    ensures CreateFromMultiple(Demo, ["gray", "demo"], [Whole, Picked([9])], false) == Err(IndexOutOfRange(9))
  {
    var names, sels := ["gray", "demo"], [Whole, Picked([9])];
    assert !BlockFails(Demo, names, sels, 0);
    assert BlockFails(Demo, names, sels, 1) && BlockFault(Demo, names, sels, 1) == IndexOutOfRange(9);
    assert FirstFailing(Demo, names, sels, 0, 1);
  }
}
