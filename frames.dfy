/**
 * The part of pandas the modelled code relies on: an axis index (flat, or multi-level with
 * named levels), a two-dimensional frame over two such indexes, level lookup by name, and
 * transposition.
 */
module Frames {
  import opened Wrappers
  import opened Errors
  import opened Sequences

  /** An axis index: a flat index of labels, or a MultiIndex of tuples with named levels. */
  datatype Index = Flat(name: string, labels: seq<string>) | Multi(names: seq<string>, tuples: seq<seq<string>>) {

    function Length(): nat
    {
      if Flat? then |labels| else |tuples|
    }

    predicate WellFormed()
    {
      Multi? ==> forall k :: 0 <= k < |tuples| ==> |tuples[k]| == |names|
    }

    /** The entries whose mask entry is true (`idx[mask]`). */
    function Pick(keep: seq<bool>): (r: Index)
      requires |keep| == Length()
    {
      match this
      case Flat(n, ls) => Flat(n, Select(ls, keep))
      case Multi(ns, ts) => Multi(ns, Select(ts, keep))
    }

    /** The entry at position `k`, as a tuple (a flat label is a 1-tuple). */
    function Entry(k: nat): seq<string>
      requires k < Length()
    {
      if Flat? then [labels[k]] else tuples[k]
    }
  }

  lemma PickSpec(idx: Index, keep: seq<bool>)
    requires |keep| == idx.Length()
    ensures idx.WellFormed() ==> idx.Pick(keep).WellFormed()
    ensures idx.Pick(keep).Length() == CountTrue(keep)
    ensures forall i :: 0 <= i < |keep| && keep[i] ==>
      Rank(keep, i) < idx.Pick(keep).Length() && idx.Pick(keep).Entry(Rank(keep, i)) == idx.Entry(i)
  {
    match idx
    case Flat(n, ls) =>
      SelectLength(ls, keep);
      forall i | 0 <= i < |keep| && keep[i]
        ensures Rank(keep, i) < idx.Pick(keep).Length() && idx.Pick(keep).Entry(Rank(keep, i)) == idx.Entry(i)
      {
        SelectAt(ls, keep, i);
      }
    case Multi(ns, ts) =>
      SelectLength(ts, keep);
      if idx.WellFormed() {
        forall k | 0 <= k < |Select(ts, keep)| ensures |Select(ts, keep)[k]| == |ns| {
          SelectFrom(ts, keep, k);
        }
      }
      forall i | 0 <= i < |keep| && keep[i]
        ensures Rank(keep, i) < idx.Pick(keep).Length() && idx.Pick(keep).Entry(Rank(keep, i)) == idx.Entry(i)
      {
        SelectAt(ts, keep, i);
      }
  }

  lemma PickAll(idx: Index, keep: seq<bool>)
    requires |keep| == idx.Length() && forall i :: 0 <= i < |keep| ==> keep[i]
    ensures idx.Pick(keep) == idx
  {
    if idx.Flat? {
      SelectAll(idx.labels, keep);
    } else {
      SelectAll(idx.tuples, keep);
    }
  }

  function Occurrences(s: seq<string>, x: string): nat
  {
    if |s| == 0 then 0 else (if s[0] == x then 1 else 0) + Occurrences(s[1..], x)
  }

  /** A name occurs in a sequence exactly when it is counted there at least once. */
  lemma {:induction false} OccurrencesIn(s: seq<string>, x: string)
    ensures x in s <==> Occurrences(s, x) > 0
  {
    if |s| > 0 {
      OccurrencesIn(s[1..], x);
      assert s == [s[0]] + s[1..];
    }
  }

  /** The position of the level called `name`: a KeyError if there is none, a ValueError if the name is ambiguous. */
  function LevelNumber(names: seq<string>, name: string): (r: Result<nat, Exception>)
    ensures r.Success? ==> r.value < |names| && names[r.value] == name
    ensures r == Failure(KeyError(name)) <==> name !in names
    ensures r.Success? <==> Occurrences(names, name) == 1
    ensures Occurrences(names, name) > 1 ==> r == Failure(ValueError(DuplicateLevelName))
  {
    OccurrencesIn(names, name);
    if name !in names then Failure(KeyError(name))
    else if Occurrences(names, name) > 1 then Failure(ValueError(DuplicateLevelName))
    else Success(IndexOf(names, name))
  }

  lemma {:induction false} OccurrencesDistinct(s: seq<string>, x: string)
    requires Distinct(s)
    ensures Occurrences(s, x) <= 1
    ensures x in s ==> Occurrences(s, x) == 1
    ensures x !in s ==> Occurrences(s, x) == 0
  {
    if |s| > 0 {
      assert Distinct(s[1..]) by {
        forall i, j | 0 <= i < j < |s[1..]| ensures s[1..][i] != s[1..][j] {
          assert s[1..][i] == s[i + 1] && s[1..][j] == s[j + 1];
        }
      }
      OccurrencesDistinct(s[1..], x);
      if s[0] == x {
        assert x !in s[1..] by {
          forall j | 0 <= j < |s[1..]| ensures s[1..][j] != x {
            assert s[1..][j] == s[j + 1];
          }
        }
      } else if x in s {
        assert x in s[1..] by {
          var j :| 0 <= j < |s| && s[j] == x;
          assert s[1..][j - 1] == x;
        }
      }
    }
  }

  lemma IndexOfDistinct(s: seq<string>, k: nat)
    requires Distinct(s) && k < |s|
    ensures IndexOf(s, s[k]) == k
  {
    var i := IndexOf(s, s[k]);
    assert forall j :: 0 <= j < i ==> s[..i][j] == s[j];
  }

  /** With distinct level names, every name resolves to its own position. */
  lemma LevelNumberDistinct(s: seq<string>, k: nat)
    requires Distinct(s) && k < |s|
    ensures LevelNumber(s, s[k]) == Success(k)
  {
    OccurrencesDistinct(s, s[k]);
    IndexOfDistinct(s, k);
  }

  /** `idx.get_level_values(level)`. */
  function LevelValues(idx: Index, level: string): (r: Result<seq<string>, Exception>)
    requires idx.WellFormed()
    ensures r.Success? ==> |r.value| == idx.Length()
    ensures idx.Flat? ==> r == if level == idx.name then Success(idx.labels) else Failure(KeyError(level))
    ensures idx.Multi? ==> (r.Success? <==> LevelNumber(idx.names, level).Success?)
    ensures idx.Multi? && r.Failure? ==> r.error == LevelNumber(idx.names, level).error
    ensures idx.Multi? && r.Success? ==> forall j :: 0 <= j < |r.value| ==> r.value[j] == idx.tuples[j][LevelNumber(idx.names, level).value]
  {
    match idx
    case Flat(n, ls) => if level == n then Success(ls) else Failure(KeyError(level))
    case Multi(ns, ts) =>
      match LevelNumber(ns, level)
      case Failure(e) => Failure(e)
      case Success(k) =>
        Success(seq(|ts|, j requires 0 <= j < |ts| => ts[j][k]))
  }

  /** A frame: `values[i][j]` is the cell in row `i` and column `j`. */
  datatype Frame<V> = Frame(index: Index, columns: Index, values: seq<seq<V>>) {

    predicate WellFormed()
    {
      && index.WellFormed() && columns.WellFormed()
      && |values| == index.Length()
      && forall i :: 0 <= i < |values| ==> |values[i]| == columns.Length()
    }

    /** Column `j` as a vector over the rows. */
    function Column(j: nat): (c: seq<V>)
      requires WellFormed() && j < columns.Length()
      ensures |c| == |values| && forall i :: 0 <= i < |values| ==> c[i] == values[i][j]
    {
      seq(|values|, i requires 0 <= i < |values| => values[i][j])
    }

    /** `df.transpose()`. */
    function Transpose(): (t: Frame<V>)
      requires WellFormed()
      ensures t.WellFormed() && t.index == columns && t.columns == index
      ensures forall j, i :: 0 <= j < columns.Length() && 0 <= i < index.Length() ==> t.values[j][i] == values[i][j]
    {
      Frame(columns, index, seq(columns.Length(), j requires 0 <= j < columns.Length() => Column(j)))
    }
  }

  lemma TransposeTwice<V>(f: Frame<V>)
    requires f.WellFormed()
    ensures f.Transpose().Transpose() == f
  {
    var t := f.Transpose().Transpose();
    assert |t.values| == |f.values|;
    forall i | 0 <= i < |f.values| ensures t.values[i] == f.values[i] {
    }
  }
}
