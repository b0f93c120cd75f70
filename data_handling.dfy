/**
 * The zero-threshold binariser `not_zero`: the entries of a count matrix are marked zero or
 * not, the samples along one axis are grouped by the (compartment, level) labels of that
 * axis, a group is present for an entity when at most `thresh` of its samples are zero, and
 * entities present in no group are dropped.
 */
module DataHandling {
  import opened Wrappers
  import opened Errors
  import opened Ordering
  import opened Sequences
  import opened Frames

  /** The axis whose labels are grouped: `"index"` groups the rows, `"columns"` the columns. */
  datatype Axis = IndexAxis | ColumnsAxis

  /** The number of samples carrying the group key `g`. */
  function GroupSize(keys: seq<seq<string>>, g: seq<string>): nat
  {
    if |keys| == 0 then 0 else (if keys[0] == g then 1 else 0) + GroupSize(keys[1..], g)
  }

  /** The number of samples carrying the group key `g` whose count is zero. */
  function ZerosIn(v: seq<real>, keys: seq<seq<string>>, g: seq<string>): nat
    requires |v| == |keys|
  {
    if |v| == 0 then 0 else (if keys[0] == g && v[0] == 0.0 then 1 else 0) + ZerosIn(v[1..], keys[1..], g)
  }

  /** The group `g` is present in the entity `v`: it has at most `thresh * len(group)` zeros. */
  predicate Present(v: seq<real>, keys: seq<seq<string>>, g: seq<string>, thresh: real)
    requires |v| == |keys|
  {
    ZerosIn(v, keys, g) as real <= thresh * GroupSize(keys, g) as real
  }

  lemma {:induction false} ZerosInBounds(v: seq<real>, keys: seq<seq<string>>, g: seq<string>)
    requires |v| == |keys|
    ensures ZerosIn(v, keys, g) <= GroupSize(keys, g)
    ensures ZerosIn(v, keys, g) == 0 <==> forall i :: 0 <= i < |v| && keys[i] == g ==> v[i] != 0.0
  {
    if |v| > 0 {
      ZerosInBounds(v[1..], keys[1..], g);
      assert forall i :: 1 <= i < |v| ==> v[i] == v[1..][i - 1] && keys[i] == keys[1..][i - 1];
    }
  }

  /** Only whether a count is zero matters. */
  lemma {:induction false} ZerosInPattern(v: seq<real>, w: seq<real>, keys: seq<seq<string>>, g: seq<string>)
    requires |v| == |w| == |keys|
    requires forall i :: 0 <= i < |v| ==> (v[i] == 0.0 <==> w[i] == 0.0)
    ensures ZerosIn(v, keys, g) == ZerosIn(w, keys, g)
  {
    if |v| > 0 {
      assert forall i :: 1 <= i < |v| ==> v[i] == v[1..][i - 1] && w[i] == w[1..][i - 1];
      ZerosInPattern(v[1..], w[1..], keys[1..], g);
    }
  }

  /** With `thresh` 0 a group is present exactly when none of its samples is zero. */
  lemma PresentThreshZero(v: seq<real>, keys: seq<seq<string>>, g: seq<string>)
    requires |v| == |keys|
    ensures Present(v, keys, g, 0.0) <==> forall i :: 0 <= i < |v| && keys[i] == g ==> v[i] != 0.0
  {
    ZerosInBounds(v, keys, g);
  }

  /** With `thresh` 1 or more every group is present. */
  lemma PresentThreshOne(v: seq<real>, keys: seq<seq<string>>, g: seq<string>, thresh: real)
    requires |v| == |keys| && thresh >= 1.0
    ensures Present(v, keys, g, thresh)
  {
    ZerosInBounds(v, keys, g);
    assert GroupSize(keys, g) as real <= thresh * GroupSize(keys, g) as real;
  }

  /**
   * The group key of every sample along an axis: its compartment label, then its level label.
   * A flat index cannot be grouped by two levels; the compartment is looked up first.
   */
  function Keys(idx: Index, compartment: string, level: string): (r: Result<seq<seq<string>>, Exception>)
    requires idx.WellFormed()
    ensures idx.Flat? ==> r == Failure(ValueError(MultipleLevels))
    ensures idx.Multi? && LevelValues(idx, compartment).Failure? ==> r == Failure(LevelValues(idx, compartment).error)
    ensures idx.Multi? ==> (r.Success? <==> LevelValues(idx, compartment).Success? && LevelValues(idx, level).Success?)
    ensures r.Success? ==> |r.value| == idx.Length()
    ensures r.Success? ==> forall i :: 0 <= i < |r.value| ==>
      r.value[i] == [LevelValues(idx, compartment).value[i], LevelValues(idx, level).value[i]]
  {
    if idx.Flat? then Failure(ValueError(MultipleLevels))
    else
      match LevelValues(idx, compartment)
      case Failure(e) => Failure(e)
      case Success(cs) =>
        match LevelValues(idx, level)
        case Failure(e) => Failure(e)
        case Success(ls) => Success(seq(|cs|, i requires 0 <= i < |cs| => [cs[i], ls[i]]))
  }

  /** The groups in the order pandas reports them: the distinct keys, sorted. */
  function Groups(keys: seq<seq<string>>): seq<seq<string>>
  {
    SortedDistinct(keys, KeyLt)
  }

  lemma GroupsSpec(keys: seq<seq<string>>)
    ensures StrictlyIncreasing(Groups(keys), KeyLt)
    ensures Distinct(Groups(keys))
    ensures forall g :: g in Groups(keys) <==> g in keys
    ensures (forall i :: 0 <= i < |keys| ==> |keys[i]| == 2) ==> forall k :: 0 <= k < |Groups(keys)| ==> |Groups(keys)[k]| == 2
  {
    KeyLtIsStrictTotal();
    SortedDistinctSpec(keys, KeyLt);
    var gs := Groups(keys);
    forall i, j | 0 <= i < j < |gs| ensures gs[i] != gs[j] {
      assert KeyLt(gs[i], gs[j]);
    }
    forall k | 0 <= k < |gs| ensures gs[k] in keys {
      assert gs[k] in gs;
    }
  }

  /** `grid[i][g]`: group `groups[g]` is present in entity `rows[i]`. */
  function Grid(rows: seq<seq<real>>, keys: seq<seq<string>>, groups: seq<seq<string>>, thresh: real): (grid: seq<seq<bool>>)
    requires forall i :: 0 <= i < |rows| ==> |rows[i]| == |keys|
    ensures |grid| == |rows|
    ensures forall i :: 0 <= i < |rows| ==> |grid[i]| == |groups|
    ensures forall i, g :: 0 <= i < |rows| && 0 <= g < |groups| ==> grid[i][g] == Present(rows[i], keys, groups[g], thresh)
  {
    seq(|rows|, i requires 0 <= i < |rows| =>
      seq(|groups|, g requires 0 <= g < |groups| => Present(rows[i], keys, groups[g], thresh)))
  }

  /** The entities that are present in at least one group (`df.any(axis=...)`). */
  function Occupied(grid: seq<seq<bool>>): (keep: seq<bool>)
    ensures |keep| == |grid|
    ensures forall i :: 0 <= i < |grid| ==> (keep[i] <==> exists g :: 0 <= g < |grid[i]| && grid[i][g])
  {
    seq(|grid|, i requires 0 <= i < |grid| => true in grid[i])
  }

  /** The columns of `df` (the entities when the rows are grouped). */
  function Cols(df: Frame<real>): (cols: seq<seq<real>>)
    requires df.WellFormed()
    ensures |cols| == df.columns.Length()
    ensures forall j :: 0 <= j < |cols| ==> |cols[j]| == |df.values| && forall i :: 0 <= i < |df.values| ==> cols[j][i] == df.values[i][j]
  {
    seq(df.columns.Length(), j requires 0 <= j < df.columns.Length() => df.Column(j))
  }

  /** The entities present in at least one group. */
  function Kept(entities: seq<seq<real>>, keys: seq<seq<string>>, thresh: real): (keep: seq<bool>)
    requires forall i :: 0 <= i < |entities| ==> |entities[i]| == |keys|
    ensures |keep| == |entities|
    ensures forall i :: 0 <= i < |entities| ==>
      (keep[i] <==> exists g :: 0 <= g < |Groups(keys)| && Present(entities[i], keys, Groups(keys)[g], thresh))
  {
    var grid := Grid(entities, keys, Groups(keys), thresh);
    assert forall i, g :: 0 <= i < |entities| && 0 <= g < |Groups(keys)| ==> grid[i][g] == Present(entities[i], keys, Groups(keys)[g], thresh);
    Occupied(grid)
  }

  /** The result of `not_zero` along the columns, once every column has its group key. */
  function GroupColumns(df: Frame<real>, keys: seq<seq<string>>, compartment: string, level: string, thresh: real): (r: Frame<bool>)
    requires df.WellFormed() && |keys| == df.columns.Length() && forall i :: 0 <= i < |keys| ==> |keys[i]| == 2
    ensures r.WellFormed()
    ensures r.columns == Multi([compartment, level], Groups(keys))
    ensures r.index == df.index.Pick(Kept(df.values, keys, thresh))
  {
    var groups := Groups(keys);
    GroupsSpec(keys);
    var grid := Grid(df.values, keys, groups, thresh);
    var keep := Kept(df.values, keys, thresh);
    assert keep == Occupied(grid);
    PickSpec(df.index, keep);
    SelectLength(grid, keep);
    SelectRows(grid, keep, |groups|);
    Frame(df.index.Pick(keep), Multi([compartment, level], groups), Select(grid, keep))
  }

  /** The result of `not_zero` along the index, once every row has its group key. */
  function GroupRows(df: Frame<real>, keys: seq<seq<string>>, compartment: string, level: string, thresh: real): (r: Frame<bool>)
    requires df.WellFormed() && |keys| == df.index.Length() && forall i :: 0 <= i < |keys| ==> |keys[i]| == 2
    ensures r.WellFormed()
    ensures r.index == Multi([compartment, level], Groups(keys))
    ensures r.columns == df.columns.Pick(Kept(Cols(df), keys, thresh))
  {
    var groups := Groups(keys);
    GroupsSpec(keys);
    var grid := Grid(Cols(df), keys, groups, thresh);
    var keep := Kept(Cols(df), keys, thresh);
    assert keep == Occupied(grid);
    PickSpec(df.columns, keep);
    var out := seq(|groups|, g requires 0 <= g < |groups| => Select(Column(grid, g), keep));
    assert forall g :: 0 <= g < |groups| ==> |out[g]| == CountTrue(keep) by {
      forall g | 0 <= g < |groups| ensures |out[g]| == CountTrue(keep) {
        SelectLength(Column(grid, g), keep);
      }
    }
    Frame(Multi([compartment, level], groups), df.columns.Pick(keep), out)
  }

  /** Entry `g` of every row. */
  function Column<T>(rows: seq<seq<T>>, g: nat): (c: seq<T>)
    requires forall i :: 0 <= i < |rows| ==> g < |rows[i]|
    ensures |c| == |rows| && forall i :: 0 <= i < |rows| ==> c[i] == rows[i][g]
  {
    seq(|rows|, i requires 0 <= i < |rows| => rows[i][g])
  }

  /** `not_zero(df, axis, level, compartment, thresh)`. */
  function NotZero(df: Frame<real>, axis: Axis, level: string, compartment: string, thresh: real): (r: Result<Frame<bool>, Exception>)
    requires df.WellFormed()
    ensures axis == ColumnsAxis ==> (r.Failure? <==> Keys(df.columns, compartment, level).Failure?)
    ensures axis == ColumnsAxis && r.Failure? ==> r.error == Keys(df.columns, compartment, level).error
    ensures axis == IndexAxis ==> (r.Failure? <==> Keys(df.index, compartment, level).Failure?)
    ensures axis == IndexAxis && r.Failure? ==> r.error == Keys(df.index, compartment, level).error
    ensures r.Success? ==> r.value.WellFormed()
    ensures r.Success? && axis == ColumnsAxis ==>
      r.value == GroupColumns(df, Keys(df.columns, compartment, level).value, compartment, level, thresh)
    ensures r.Success? && axis == IndexAxis ==>
      r.value == GroupRows(df, Keys(df.index, compartment, level).value, compartment, level, thresh)
  {
    if axis == ColumnsAxis then
      match Keys(df.columns, compartment, level)
      case Failure(e) => Failure(e)
      case Success(keys) => Success(GroupColumns(df, keys, compartment, level, thresh))
    else
      match Keys(df.index, compartment, level)
      case Failure(e) => Failure(e)
      case Success(keys) => Success(GroupRows(df, keys, compartment, level, thresh))
  }

  /** Selecting rows keeps their length. */
  lemma SelectRows<T>(rows: seq<seq<T>>, keep: seq<bool>, n: nat)
    requires |keep| == |rows| && forall i :: 0 <= i < |rows| ==> |rows[i]| == n
    ensures forall m :: 0 <= m < |Select(rows, keep)| ==> |Select(rows, keep)[m]| == n
  {
    forall m | 0 <= m < |Select(rows, keep)| ensures |Select(rows, keep)[m]| == n {
      SelectFrom(rows, keep, m);
    }
  }

  /** Selecting rows and then taking a column is taking the column and then selecting. */
  lemma {:induction false} SelectColumn<T>(rows: seq<seq<T>>, keep: seq<bool>, g: nat)
    requires |keep| == |rows| && forall i :: 0 <= i < |rows| ==> g < |rows[i]|
    ensures forall m :: 0 <= m < |Select(rows, keep)| ==> g < |Select(rows, keep)[m]|
    ensures Select(Column(rows, g), keep) == Column(Select(rows, keep), g)
  {
    forall m | 0 <= m < |Select(rows, keep)| ensures g < |Select(rows, keep)[m]| {
      SelectFrom(rows, keep, m);
    }
    if |rows| > 0 {
      var tail := rows[1..];
      SelectColumn(tail, keep[1..], g);
      assert Column(rows, g)[1..] == Column(tail, g);
      var head: seq<seq<T>> := if keep[0] then [rows[0]] else [];
      assert Select(rows, keep) == head + Select(tail, keep[1..]);
      assert Column(Select(rows, keep), g) == Column(head, g) + Column(Select(tail, keep[1..]), g);
    }
  }

  /** Which entities survive, and what each surviving entity's row holds, along the columns. */
  lemma GroupColumnsCells(df: Frame<real>, keys: seq<seq<string>>, compartment: string, level: string, thresh: real)
    requires df.WellFormed() && |keys| == df.columns.Length() && forall i :: 0 <= i < |keys| ==> |keys[i]| == 2
    ensures |GroupColumns(df, keys, compartment, level, thresh).values| == CountTrue(Kept(df.values, keys, thresh))
    ensures forall i, g :: 0 <= i < |df.values| && Kept(df.values, keys, thresh)[i] && 0 <= g < |Groups(keys)| ==>
      && Rank(Kept(df.values, keys, thresh), i) < |GroupColumns(df, keys, compartment, level, thresh).values|
      && GroupColumns(df, keys, compartment, level, thresh).values[Rank(Kept(df.values, keys, thresh), i)][g]
         == Present(df.values[i], keys, Groups(keys)[g], thresh)
    ensures forall m :: 0 <= m < |GroupColumns(df, keys, compartment, level, thresh).values| ==>
      true in GroupColumns(df, keys, compartment, level, thresh).values[m]
  {
    var r := GroupColumns(df, keys, compartment, level, thresh);
    var grid := Grid(df.values, keys, Groups(keys), thresh);
    var keep := Kept(df.values, keys, thresh);
    assert r.values == Select(grid, keep);
    SelectLength(grid, keep);
    forall i | 0 <= i < |df.values| && keep[i] ensures Rank(keep, i) < |r.values| && r.values[Rank(keep, i)] == grid[i] {
      SelectAt(grid, keep, i);
    }
    forall m | 0 <= m < |r.values| ensures true in r.values[m] {
      SelectFrom(grid, keep, m);
    }
  }

  /** Which entities survive, and what each surviving entity's column holds, along the index. */
  lemma GroupRowsCells(df: Frame<real>, keys: seq<seq<string>>, compartment: string, level: string, thresh: real)
    requires df.WellFormed() && |keys| == df.index.Length() && forall i :: 0 <= i < |keys| ==> |keys[i]| == 2
    ensures |GroupRows(df, keys, compartment, level, thresh).values| == |Groups(keys)|
    ensures forall j, g :: 0 <= j < df.columns.Length() && Kept(Cols(df), keys, thresh)[j] && 0 <= g < |Groups(keys)| ==>
      && Rank(Kept(Cols(df), keys, thresh), j) < |GroupRows(df, keys, compartment, level, thresh).values[g]|
      && GroupRows(df, keys, compartment, level, thresh).values[g][Rank(Kept(Cols(df), keys, thresh), j)]
         == Present(Cols(df)[j], keys, Groups(keys)[g], thresh)
  {
    var r := GroupRows(df, keys, compartment, level, thresh);
    var grid := Grid(Cols(df), keys, Groups(keys), thresh);
    var keep := Kept(Cols(df), keys, thresh);
    forall j, g | 0 <= j < df.columns.Length() && keep[j] && 0 <= g < |Groups(keys)|
      ensures Rank(keep, j) < |r.values[g]| && r.values[g][Rank(keep, j)] == Present(Cols(df)[j], keys, Groups(keys)[g], thresh)
    {
      assert r.values[g] == Select(Column(grid, g), keep);
      SelectAt(Column(grid, g), keep, j);
    }
  }

  /** With `thresh` 1 or more and at least one group, no entity is dropped and every cell is true. */
  lemma GroupColumnsThreshOne(df: Frame<real>, keys: seq<seq<string>>, compartment: string, level: string, thresh: real)
    requires df.WellFormed() && |keys| == df.columns.Length() && forall i :: 0 <= i < |keys| ==> |keys[i]| == 2
    requires thresh >= 1.0 && |keys| > 0
    ensures GroupColumns(df, keys, compartment, level, thresh).index == df.index
    ensures |GroupColumns(df, keys, compartment, level, thresh).values| == |df.values|
    ensures forall m, g :: 0 <= m < |df.values| && 0 <= g < |Groups(keys)| ==> GroupColumns(df, keys, compartment, level, thresh).values[m][g]
  {
    var keep := Kept(df.values, keys, thresh);
    GroupsSpec(keys);
    assert keys[0] in Groups(keys);
    forall i, g | 0 <= i < |df.values| && 0 <= g < |Groups(keys)| ensures Present(df.values[i], keys, Groups(keys)[g], thresh) {
      PresentThreshOne(df.values[i], keys, Groups(keys)[g], thresh);
    }
    assert forall i :: 0 <= i < |keep| ==> keep[i];
    PickAll(df.index, keep);
    var grid := Grid(df.values, keys, Groups(keys), thresh);
    SelectAll(grid, keep);
  }

  lemma GridPattern(rows: seq<seq<real>>, rows': seq<seq<real>>, keys: seq<seq<string>>, groups: seq<seq<string>>, thresh: real)
    requires |rows| == |rows'| && forall i :: 0 <= i < |rows| ==> |rows[i]| == |rows'[i]| == |keys|
    requires forall i, j :: 0 <= i < |rows| && 0 <= j < |keys| ==> (rows[i][j] == 0.0 <==> rows'[i][j] == 0.0)
    ensures Grid(rows, keys, groups, thresh) == Grid(rows', keys, groups, thresh)
    ensures Kept(rows, keys, thresh) == Kept(rows', keys, thresh)
  {
    forall i, g | 0 <= i < |rows| && 0 <= g < |groups|
      ensures Present(rows[i], keys, groups[g], thresh) == Present(rows'[i], keys, groups[g], thresh)
    {
      ZerosInPattern(rows[i], rows'[i], keys, groups[g]);
    }
    forall i, g | 0 <= i < |rows| && 0 <= g < |Groups(keys)|
      ensures Present(rows[i], keys, Groups(keys)[g], thresh) == Present(rows'[i], keys, Groups(keys)[g], thresh)
    {
      ZerosInPattern(rows[i], rows'[i], keys, Groups(keys)[g]);
    }
    var grid, grid' := Grid(rows, keys, groups, thresh), Grid(rows', keys, groups, thresh);
    forall i | 0 <= i < |rows| ensures grid[i] == grid'[i] {
    }
  }

  /** Only whether a count is zero matters: frames with the same zero pattern binarise alike. */
  lemma NotZeroZeroPattern(df: Frame<real>, df': Frame<real>, axis: Axis, level: string, compartment: string, thresh: real)
    requires df.WellFormed() && df'.WellFormed() && df.index == df'.index && df.columns == df'.columns
    requires forall i, j :: 0 <= i < |df.values| && 0 <= j < df.columns.Length() ==> (df.values[i][j] == 0.0 <==> df'.values[i][j] == 0.0)
    ensures NotZero(df, axis, level, compartment, thresh) == NotZero(df', axis, level, compartment, thresh)
  {
    if axis == ColumnsAxis {
      if Keys(df.columns, compartment, level).Success? {
        var keys := Keys(df.columns, compartment, level).value;
        GridPattern(df.values, df'.values, keys, Groups(keys), thresh);
      }
    } else {
      if Keys(df.index, compartment, level).Success? {
        var keys := Keys(df.index, compartment, level).value;
        GridPattern(Cols(df), Cols(df'), keys, Groups(keys), thresh);
      }
    }
  }

  /** Grouping the rows of the transpose is grouping the columns and transposing the result. */
  lemma NotZeroTransposed(df: Frame<real>, level: string, compartment: string, thresh: real)
    requires df.WellFormed()
    ensures NotZero(df.Transpose(), IndexAxis, level, compartment, thresh).Success? == NotZero(df, ColumnsAxis, level, compartment, thresh).Success?
    ensures NotZero(df, ColumnsAxis, level, compartment, thresh).Success? ==>
      NotZero(df.Transpose(), IndexAxis, level, compartment, thresh).value == NotZero(df, ColumnsAxis, level, compartment, thresh).value.Transpose()
  {
    var t := df.Transpose();
    assert t.index == df.columns;
    if Keys(df.columns, compartment, level).Success? {
      var keys := Keys(df.columns, compartment, level).value;
      var groups := Groups(keys);
      forall j | 0 <= j < |df.values| ensures Cols(t)[j] == df.values[j] {
        assert forall i :: 0 <= i < df.columns.Length() ==> Cols(t)[j][i] == t.values[i][j] == df.values[j][i];
      }
      assert Cols(t) == df.values;
      var grid := Grid(df.values, keys, groups, thresh);
      var keep := Kept(df.values, keys, thresh);
      var byRows := GroupRows(t, keys, compartment, level, thresh);
      var byCols := GroupColumns(df, keys, compartment, level, thresh);
      assert byCols.values == Select(grid, keep);
      forall g | 0 <= g < |groups| ensures byRows.values[g] == byCols.Transpose().values[g] {
        assert byRows.values[g] == Select(Column(grid, g), keep);
        SelectColumn(grid, keep, g);
        assert byCols.Transpose().values[g] == Column(Select(grid, keep), g);
      }
      assert byRows.values == byCols.Transpose().values;
    }
  }

  /** A group of four samples with two zeros is present at one half; with three zeros it is not. */
  lemma PresentBoundaryExample()
    ensures Present([0.0, 0.0, 5.0, 7.0], [["c", "p"], ["c", "p"], ["c", "p"], ["c", "p"]], ["c", "p"], 0.5)
    ensures !Present([0.0, 0.0, 0.0, 7.0], [["c", "p"], ["c", "p"], ["c", "p"], ["c", "p"]], ["c", "p"], 0.5)
  {
  }

  /** One cycle of labels: a, b and c, each on all three levels x, y and z. */
  function Cycle(): seq<seq<string>>
  {
    [["a", "a", "a"], ["b", "b", "b"], ["c", "c", "c"]]
  }

  /** The test fixture: entities a, b, c; nine samples whose labels run through the cycle three times. */
  function Fixture(): (df: Frame<real>)
    ensures df.WellFormed()
  {
    Frame(Multi(["x", "y", "z"], Cycle()),
          Multi(["x", "y", "z"], Cycle() + Cycle() + Cycle()),
          [[1.0, 0.0, 0.0] + [0.0, 1.0, 0.0] + [0.0, 0.0, 1.0],
           [1.0, 1.0, 1.0] + [1.0, 1.0, 0.0] + [0.0, 0.0, 1.0],
           [1.0, 1.0, 1.0] + [1.0, 1.0, 1.0] + [1.0, 1.0, 1.0]])
  }

  function FixtureGroups(): seq<seq<string>>
  {
    [["a", "a"], ["b", "b"], ["c", "c"]]
  }

  function FixtureKeys(): seq<seq<string>>
  {
    FixtureGroups() + FixtureGroups() + FixtureGroups()
  }

  lemma FixtureKeysAre()
    ensures Keys(Fixture().columns, "z", "y") == Success(FixtureKeys())
  {
    var cols := Fixture().columns;
    assert Distinct(cols.names);
    LevelNumberDistinct(cols.names, 2);
    LevelNumberDistinct(cols.names, 1);
    var keys := Keys(cols, "z", "y").value;
    forall i | 0 <= i < 9 ensures keys[i] == FixtureKeys()[i] {
      assert keys[i] == [cols.tuples[i][2], cols.tuples[i][1]];
      var j := if i < 3 then i else if i < 6 then i - 3 else i - 6;
      assert cols.tuples[i] == Cycle()[j] && FixtureKeys()[i] == FixtureGroups()[j];
      if j == 0 {} else if j == 1 {} else {}
    }
    assert keys == FixtureKeys();
  }

  lemma FixtureGroupsAre()
    ensures Groups(FixtureKeys()) == FixtureGroups()
  {
    KeyLtIsStrictTotal();
    var gs := FixtureGroups();
    assert KeyLt(gs[0], gs[1]) && KeyLt(gs[1], gs[2]) && KeyLt(gs[0], gs[2]);
    assert StrictlyIncreasing(gs, KeyLt);
    SortedDistinctCharacterized(FixtureKeys(), gs, KeyLt);
  }

  lemma {:induction false} ZerosInAppend(v: seq<real>, v': seq<real>, keys: seq<seq<string>>, keys': seq<seq<string>>, g: seq<string>)
    requires |v| == |keys| && |v'| == |keys'|
    ensures ZerosIn(v + v', keys + keys', g) == ZerosIn(v, keys, g) + ZerosIn(v', keys', g)
    ensures GroupSize(keys + keys', g) == GroupSize(keys, g) + GroupSize(keys', g)
  {
    if |v| == 0 {
      assert v + v' == v' && keys + keys' == keys';
    } else {
      ZerosInAppend(v[1..], v', keys[1..], keys', g);
      assert (v + v')[1..] == v[1..] + v' && (keys + keys')[1..] == keys[1..] + keys';
    }
  }

  /** Within one cycle every fixture group holds exactly one sample. */
  lemma CycleZeros(a: seq<real>, g: nat)
    requires |a| == 3 && g < 3
    ensures GroupSize(FixtureGroups(), FixtureGroups()[g]) == 1
    ensures ZerosIn(a, FixtureGroups(), FixtureGroups()[g]) == if a[g] == 0.0 then 1 else 0
  {
    var gs := FixtureGroups();
    assert gs[0] != gs[1] && gs[0] != gs[2] && gs[1] != gs[2] by {
      assert gs[0][0] != gs[1][0] && gs[0][0] != gs[2][0] && gs[1][0] != gs[2][0];
    }
    var h := gs[g];
    assert gs[1..] == [gs[1], gs[2]] && gs[1..][1..] == [gs[2]];
    assert ZerosIn(a, gs, h) == (if gs[0] == h && a[0] == 0.0 then 1 else 0) + ZerosIn(a[1..], gs[1..], h);
    assert ZerosIn(a[1..], gs[1..], h) == (if gs[1] == h && a[1] == 0.0 then 1 else 0) + ZerosIn(a[1..][1..], gs[1..][1..], h);
    assert ZerosIn(a[1..][1..], gs[1..][1..], h) == (if gs[2] == h && a[2] == 0.0 then 1 else 0);
    assert GroupSize(gs, h) == (if gs[0] == h then 1 else 0) + GroupSize(gs[1..], h);
    assert GroupSize(gs[1..], h) == (if gs[1] == h then 1 else 0) + GroupSize(gs[1..][1..], h);
    assert GroupSize(gs[1..][1..], h) == (if gs[2] == h then 1 else 0);
  }

  /** Over three cycles, the zeros of group `g` are the zeros at its place in each cycle. */
  lemma FixtureRowZeros(a: seq<real>, b: seq<real>, c: seq<real>, g: nat)
    requires |a| == |b| == |c| == 3 && g < 3
    ensures GroupSize(FixtureKeys(), FixtureGroups()[g]) == 3
    ensures ZerosIn(a + b + c, FixtureKeys(), FixtureGroups()[g]) ==
      (if a[g] == 0.0 then 1 else 0) + (if b[g] == 0.0 then 1 else 0) + (if c[g] == 0.0 then 1 else 0)
  {
    var gs := FixtureGroups();
    ZerosInAppend(a + b, c, gs + gs, gs, gs[g]);
    ZerosInAppend(a, b, gs, gs, gs[g]);
    CycleZeros(a, g);
    CycleZeros(b, g);
    CycleZeros(c, g);
  }

  /** Entity a has two zeros in every group of three; b has at most one; c has none. */
  lemma FixturePresence(i: nat, g: nat)
    requires i < 3 && g < 3
    ensures Present(Fixture().values[i], FixtureKeys(), FixtureGroups()[g], 0.5) == (i != 0)
  {
    if i == 0 {
      FixtureRowZeros([1.0, 0.0, 0.0], [0.0, 1.0, 0.0], [0.0, 0.0, 1.0], g);
      if g == 0 {} else if g == 1 {} else {}
    } else if i == 1 {
      FixtureRowZeros([1.0, 1.0, 1.0], [1.0, 1.0, 0.0], [0.0, 0.0, 1.0], g);
      if g == 0 {} else if g == 1 {} else {}
    } else {
      FixtureRowZeros([1.0, 1.0, 1.0], [1.0, 1.0, 1.0], [1.0, 1.0, 1.0], g);
    }
  }

  lemma FixtureGrid()
    ensures Grid(Fixture().values, FixtureKeys(), FixtureGroups(), 0.5) == [[false, false, false], [true, true, true], [true, true, true]]
  {
    var grid := Grid(Fixture().values, FixtureKeys(), FixtureGroups(), 0.5);
    forall i, g | 0 <= i < 3 && 0 <= g < 3 ensures grid[i][g] == (i != 0) {
      FixturePresence(i, g);
    }
    assert grid[0] == [false, false, false];
    assert grid[1] == [true, true, true];
    assert grid[2] == [true, true, true];
  }

  lemma FixtureKept()
    ensures Kept(Fixture().values, FixtureKeys(), 0.5) == [false, true, true]
  {
    FixtureGroupsAre();
    FixtureGrid();
    var grid := Grid(Fixture().values, FixtureKeys(), FixtureGroups(), 0.5);
    assert Kept(Fixture().values, FixtureKeys(), 0.5) == Occupied(grid);
  }

  /** The expected result of the test at one half. */
  function FixtureExpected(): Frame<bool>
  {
    Frame(Multi(["x", "y", "z"], [["b", "b", "b"], ["c", "c", "c"]]),
          Multi(["z", "y"], FixtureGroups()),
          [[true, true, true], [true, true, true]])
  }

  lemma FixtureSelected()
    ensures Select(Grid(Fixture().values, FixtureKeys(), FixtureGroups(), 0.5), Kept(Fixture().values, FixtureKeys(), 0.5))
         == [[true, true, true], [true, true, true]]
    ensures Fixture().index.Pick(Kept(Fixture().values, FixtureKeys(), 0.5)) == FixtureExpected().index
  {
    FixtureGrid();
    FixtureKept();
    var keep := [false, true, true];
    assert Select([[false, false, false], [true, true, true], [true, true, true]], keep) == [[true, true, true], [true, true, true]];
    assert Select(Cycle(), keep) == [["b", "b", "b"], ["c", "c", "c"]];
  }

  lemma FixtureGroupColumns()
    ensures GroupColumns(Fixture(), FixtureKeys(), "z", "y", 0.5) == FixtureExpected()
  {
    FixtureGroupsAre();
    FixtureSelected();
  }

  /**
   * The test case at one half: entity a is dropped, and b and c are present in all three
   * (z, y) groups (a, a), (b, b), (c, c), whichever axis carries the samples.
   */
  lemma FixtureNotZero()
    ensures NotZero(Fixture(), ColumnsAxis, "y", "z", 0.5) == Success(FixtureExpected())
    ensures NotZero(Fixture().Transpose(), IndexAxis, "y", "z", 0.5) == Success(FixtureExpected().Transpose())
  {
    FixtureKeysAre();
    FixtureGroupColumns();
    NotZeroTransposed(Fixture(), "y", "z", 0.5);
  }

  /**
   * The frame the code computes for the test case keeps the fixture's three-level (x, y, z)
   * row labels: it is not the frame with the flat row index ["b", "c"] that the test writes out.
   */
  lemma FixtureIndexNotFlat()
    ensures NotZero(Fixture(), ColumnsAxis, "y", "z", 0.5).Success?
    ensures NotZero(Fixture(), ColumnsAxis, "y", "z", 0.5).value.index.Multi?
    ensures NotZero(Fixture(), ColumnsAxis, "y", "z", 0.5).value.index.names == ["x", "y", "z"]
    ensures forall name :: NotZero(Fixture(), ColumnsAxis, "y", "z", 0.5).value.index != Flat(name, ["b", "c"])
  {
    FixtureNotZero();
  }
}
