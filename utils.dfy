/** Index utilities: adding a level, reordering levels, and the level ordering used to sort columns. */
module Utils {
  import opened Wrappers
  import opened Errors
  import opened Ordering
  import opened Sequences
  import opened Frames

  /**
   * `add_level_to_index`: every entry gets `newLevel` appended and the level names get
   * `newLevelName`. The entries of a flat index are strings, and appending a tuple to one
   * is a TypeError; an empty flat index has no entry to fail on.
   */
  function AddLevelToIndex(idx: Index, newLevel: string, newLevelName: string): (r: Result<Index, Exception>)
    ensures r.Failure? <==> idx.Flat? && |idx.labels| > 0
    ensures r.Failure? ==> r.error == TypeError(TupleConcat)
    ensures r.Success? ==> && r.value.Multi?
                           && r.value.names == (if idx.Flat? then [idx.name] else idx.names) + [newLevelName]
                           && r.value.Length() == idx.Length()
                           && forall k :: 0 <= k < idx.Length() ==> r.value.tuples[k] == idx.Entry(k) + [newLevel]
    ensures r.Success? && idx.WellFormed() ==> r.value.WellFormed()
  {
    match idx
    case Flat(n, ls) =>
      if |ls| > 0 then Failure(TypeError(TupleConcat)) else Success(Multi([n, newLevelName], []))
    case Multi(ns, ts) =>
      Success(Multi(ns + [newLevelName], seq(|ts|, k requires 0 <= k < |ts| => ts[k] + [newLevel])))
  }

  /** `droplevel(-1)`: the inverse of adding a level. */
  function DropLastLevel(idx: Index): (r: Index)
    requires idx.Multi? && idx.WellFormed() && |idx.names| > 0
    ensures r.Multi? && r.WellFormed() && r.Length() == idx.Length() && |r.names| == |idx.names| - 1
  {
    Multi(idx.names[..|idx.names| - 1],
          seq(|idx.tuples|, k requires 0 <= k < |idx.tuples| => idx.tuples[k][..|idx.tuples[k]| - 1]))
  }

  lemma AddThenDropLevel(idx: Index, newLevel: string, newLevelName: string)
    requires idx.Multi? && idx.WellFormed()
    ensures AddLevelToIndex(idx, newLevel, newLevelName).Success?
    ensures DropLastLevel(AddLevelToIndex(idx, newLevel, newLevelName).value) == idx
  {
    var r := AddLevelToIndex(idx, newLevel, newLevelName).value;
    var d := DropLastLevel(r);
    assert d.names == idx.names;
    forall k | 0 <= k < |idx.tuples| ensures d.tuples[k] == idx.tuples[k] {
      assert r.tuples[k] == idx.tuples[k] + [newLevel];
    }
  }

  /** The test's index: the product of A, B, C with 1, 2, 3, levels named alphabet and numeric. */
  function AlphaNumeric(): (r: Index)
    ensures r.Multi? && r.WellFormed() && r.Length() == 9
  {
    Multi(["alphabet", "numeric"],
          [["A", "1"], ["A", "2"], ["A", "3"], ["B", "1"], ["B", "2"], ["B", "3"], ["C", "1"], ["C", "2"], ["C", "3"]])
  }

  lemma AddLevelExample()
    ensures AddLevelToIndex(AlphaNumeric(), "ADDED", "newly added").Success?
    ensures AddLevelToIndex(AlphaNumeric(), "ADDED", "newly added").value.names == ["alphabet", "numeric", "newly added"]
    ensures AddLevelToIndex(AlphaNumeric(), "ADDED", "newly added").value.Length() == 9
    ensures AddLevelToIndex(AlphaNumeric(), "ADDED", "newly added").value.tuples[0] == ["A", "1", "ADDED"]
    ensures AddLevelToIndex(AlphaNumeric(), "ADDED", "newly added").value.tuples[5] == ["B", "3", "ADDED"]
    ensures AddLevelToIndex(Flat("lipid", ["a", "b"]), "ADDED", "newly added") == Failure(TypeError(TupleConcat))
    ensures AddLevelToIndex(Flat("lipid", []), "ADDED", "newly added") == Success(Multi(["lipid", "newly added"], []))
  {
    var r := AddLevelToIndex(AlphaNumeric(), "ADDED", "newly added").value;
    assert r.tuples[0] == AlphaNumeric().tuples[0] + ["ADDED"];
    assert r.tuples[5] == AlphaNumeric().tuples[5] + ["ADDED"];
  }

  /** The level number of every name in `orders`, failing at the first name that has none. */
  function ResolveLevels(names: seq<string>, orders: seq<string>): (r: Result<seq<nat>, Exception>)
    ensures r.Success? <==> forall i :: 0 <= i < |orders| ==> LevelNumber(names, orders[i]).Success?
    ensures r.Success? ==> |r.value| == |orders|
    ensures r.Success? ==> forall i :: 0 <= i < |orders| ==> r.value[i] == LevelNumber(names, orders[i]).value
    ensures r.Failure? ==> exists i :: 0 <= i < |orders| && (forall j :: 0 <= j < i ==> LevelNumber(names, orders[j]).Success?)
                                   && LevelNumber(names, orders[i]) == Failure(r.error)
  {
    if |orders| == 0 then Success([])
    else
      match LevelNumber(names, orders[0])
      case Failure(e) => Failure(e)
      case Success(k) =>
        match ResolveLevels(names, orders[1..])
        case Failure(e) =>
          assert !LevelNumber(names, orders[1..][0]).Success? || exists i :: 1 <= i < |orders| && !LevelNumber(names, orders[i]).Success?;
          assert forall j :: 1 <= j < |orders| ==> orders[1..][j - 1] == orders[j];
          Failure(e)
        case Success(ks) => Success([k] + ks)
  }

  /** The MultiIndex whose level `i` is level `ps[i]` of `idx`. */
  function PermuteLevels(idx: Index, ps: seq<nat>): (r: Index)
    requires idx.Multi? && idx.WellFormed() && forall i :: 0 <= i < |ps| ==> ps[i] < |idx.names|
    ensures r.Multi? && r.WellFormed() && |r.names| == |ps| && r.Length() == idx.Length()
    ensures forall i :: 0 <= i < |ps| ==> r.names[i] == idx.names[ps[i]]
    ensures forall k, i :: 0 <= k < idx.Length() && 0 <= i < |ps| ==> r.tuples[k][i] == idx.tuples[k][ps[i]]
  {
    Multi(seq(|ps|, i requires 0 <= i < |ps| => idx.names[ps[i]]),
          seq(|idx.tuples|, k requires 0 <= k < |idx.tuples| =>
            seq(|ps|, i requires 0 <= i < |ps| => idx.tuples[k][ps[i]])))
  }

  /** Permuting by `ps` and then by `qs`, where `ps[qs[k]] == k`, is the identity. */
  lemma PermuteBack(idx: Index, ps: seq<nat>, qs: seq<nat>)
    requires idx.Multi? && idx.WellFormed() && forall i :: 0 <= i < |ps| ==> ps[i] < |idx.names|
    requires |qs| == |idx.names| && forall k :: 0 <= k < |qs| ==> qs[k] < |ps| && ps[qs[k]] == k
    ensures PermuteLevels(PermuteLevels(idx, ps), qs) == idx
  {
    var mid := PermuteLevels(idx, ps);
    var back := PermuteLevels(mid, qs);
    assert back.names == idx.names;
    forall t | 0 <= t < |idx.tuples| ensures back.tuples[t] == idx.tuples[t] {
    }
  }

  /**
   * `reorder_index`: a flat index is returned as it is; the levels of a MultiIndex are
   * put in the order `orders` names them, each name resolved to its level number first,
   * and then an AssertionError if `orders` does not name as many levels as there are.
   */
  function ReorderIndex(idx: Index, orders: seq<string>): (r: Result<Index, Exception>)
    requires idx.WellFormed()
    ensures idx.Flat? ==> r == Success(idx)
    ensures idx.Multi? ==>
      (r.Success? <==> (forall i :: 0 <= i < |orders| ==> LevelNumber(idx.names, orders[i]).Success?) && |orders| == |idx.names|)
    ensures idx.Multi? && r.Failure? && (forall i :: 0 <= i < |orders| ==> LevelNumber(idx.names, orders[i]).Success?) ==>
      r.error == AssertionError(LevelCountMismatch)
    ensures idx.Multi? && ResolveLevels(idx.names, orders).Failure? ==> r == Failure(ResolveLevels(idx.names, orders).error)
    ensures r.Success? && idx.Multi? ==> r.value.Multi? && r.value.names == orders
    ensures r.Success? && idx.Multi? ==> r.value == PermuteLevels(idx, ResolveLevels(idx.names, orders).value)
  {
    match idx
    case Flat(_, _) => Success(idx)
    case Multi(ns, ts) =>
      match ResolveLevels(ns, orders)
      case Failure(e) => Failure(e)
      case Success(ps) =>
        if |ps| != |ns| then Failure(AssertionError(LevelCountMismatch))
        else Success(PermuteLevels(idx, ps))
  }


  /** Reordering a MultiIndex with distinct level names by names it has, one per level. */
  lemma ReorderResolved(idx: Index, orders: seq<string>)
    requires idx.Multi? && idx.WellFormed() && Distinct(idx.names)
    requires |orders| == |idx.names| && forall o :: o in orders ==> o in idx.names
    ensures ResolveLevels(idx.names, orders).Success?
    ensures forall i :: 0 <= i < |orders| ==> ResolveLevels(idx.names, orders).value[i] == IndexOf(idx.names, orders[i])
    ensures ReorderIndex(idx, orders) == Success(PermuteLevels(idx, ResolveLevels(idx.names, orders).value))
  {
    forall i | 0 <= i < |orders| ensures LevelNumber(idx.names, orders[i]) == Success(IndexOf(idx.names, orders[i])) {
      assert orders[i] in orders;
      LevelNumberDistinct(idx.names, IndexOf(idx.names, orders[i]));
    }
  }

  /**
   * Reordering a MultiIndex with distinct level names by a permutation of its names,
   * and then by the original names, gives back the original index.
   */
  lemma {:induction false} ReorderRoundTrip(idx: Index, orders: seq<string>)
    requires idx.Multi? && idx.WellFormed() && Distinct(idx.names)
    requires |orders| == |idx.names| && Distinct(orders) && forall o :: o in orders <==> o in idx.names
    ensures ReorderIndex(idx, orders).Success?
    ensures ReorderIndex(ReorderIndex(idx, orders).value, idx.names) == Success(idx)
  {
    var ns := idx.names;
    ReorderResolved(idx, orders);
    var ps := ResolveLevels(ns, orders).value;
    var mid := PermuteLevels(idx, ps);
    ReorderResolved(mid, ns);
    var qs := ResolveLevels(orders, ns).value;
    InversePositions(ns, orders, ps, qs);
    PermuteBack(idx, ps, qs);
  }

  /** Looking names up in a permutation and back again leads to where they started. */
  lemma InversePositions(ns: seq<string>, orders: seq<string>, ps: seq<nat>, qs: seq<nat>)
    requires Distinct(ns) && |orders| == |ns| && forall o :: o in orders <==> o in ns
    requires |ps| == |orders| && forall i :: 0 <= i < |orders| ==> ps[i] == IndexOf(ns, orders[i])
    requires |qs| == |ns| && forall k :: 0 <= k < |ns| ==> qs[k] == IndexOf(orders, ns[k])
    ensures forall k :: 0 <= k < |qs| ==> qs[k] < |ps| && ps[qs[k]] == k
  {
    forall k | 0 <= k < |qs| ensures qs[k] < |ps| && ps[qs[k]] == k {
      IndexOfDistinct(ns, k);
    }
  }

  lemma ReorderExample()
    ensures ReorderIndex(AlphaNumeric(), ["numeric", "alphabet"]).Success?
    ensures ReorderIndex(AlphaNumeric(), ["numeric", "alphabet"]).value.names == ["numeric", "alphabet"]
    ensures ReorderIndex(AlphaNumeric(), ["numeric", "alphabet"]).value.tuples[1] == ["2", "A"]
  {
    var idx := AlphaNumeric();
    assert Distinct(idx.names);
    LevelNumberDistinct(idx.names, 0);
    LevelNumberDistinct(idx.names, 1);
    var r := ReorderIndex(idx, ["numeric", "alphabet"]);
    assert ResolveLevels(idx.names, ["numeric", "alphabet"]).value == [1, 0];
    assert r.value.tuples[1][0] == idx.tuples[1][1];
    assert r.value.tuples[1][1] == idx.tuples[1][0];
  }

  lemma ReorderErrorExample()
    ensures ReorderIndex(AlphaNumeric(), ["numeric"]) == Failure(AssertionError(LevelCountMismatch))
    ensures ReorderIndex(AlphaNumeric(), ["numeric", "greek"]) == Failure(KeyError("greek"))
    ensures ReorderIndex(Flat("lipid", ["a"]), ["greek"]) == Success(Flat("lipid", ["a"]))
    ensures ReorderIndex(Multi(["x", "x"], [["1", "2"]]), ["x"]) == Failure(ValueError(DuplicateLevelName))
  {
    var idx := AlphaNumeric();
    assert Distinct(idx.names);
    LevelNumberDistinct(idx.names, 1);
    assert "greek" !in idx.names;
    assert LevelNumber(idx.names, "greek") == Failure(KeyError("greek"));
  }

  /** The values of `values` that are not pressed, in their original order. */
  function Unpressed(values: seq<string>, pressing: seq<string>): (r: seq<string>)
    ensures forall v :: v in r <==> v in values && v !in pressing
  {
    if |values| == 0 then []
    else (if values[0] in pressing then [] else [values[0]]) + Unpressed(values[1..], pressing)
  }

  /** The ordering of a level's values: the pressed values, then the other distinct values, sorted. */
  function LevelOrdering(values: seq<string>, pressing: seq<string>): seq<string>
  {
    pressing + SortedDistinct(Unpressed(values, pressing), StringLt)
  }

  /** The level ordering `sort_columns` computes for the column index `idx`. */
  function SortColumnsOrdering(idx: Index, level: string, pressing: seq<string>): (r: Result<seq<string>, Exception>)
    requires idx.WellFormed()
    ensures r.Success? <==> LevelValues(idx, level).Success?
    ensures r.Success? ==> r.value == LevelOrdering(LevelValues(idx, level).value, pressing)
  {
    match LevelValues(idx, level)
    case Failure(e) => Failure(e)
    case Success(vs) => Success(LevelOrdering(vs, pressing))
  }

  lemma LevelOrderingSpec(values: seq<string>, pressing: seq<string>)
    ensures |LevelOrdering(values, pressing)| >= |pressing|
    ensures LevelOrdering(values, pressing)[..|pressing|] == pressing
    ensures StrictlyIncreasing(LevelOrdering(values, pressing)[|pressing|..], StringLt)
    ensures Distinct(LevelOrdering(values, pressing)[|pressing|..])
    ensures forall v :: v in LevelOrdering(values, pressing)[|pressing|..] <==> v in values && v !in pressing
    ensures forall v :: v in values ==> v in LevelOrdering(values, pressing)
    ensures forall v :: v in LevelOrdering(values, pressing) ==> v in pressing || v in values
  {
    var rest := SortedDistinct(Unpressed(values, pressing), StringLt);
    var r := LevelOrdering(values, pressing);
    StringLtIsStrictTotal();
    SortedDistinctSpec(Unpressed(values, pressing), StringLt);
    assert r[..|pressing|] == pressing && r[|pressing|..] == rest;
    assert Distinct(rest) by {
      forall i, j | 0 <= i < j < |rest| ensures rest[i] != rest[j] {
        assert StringLt(rest[i], rest[j]);
        LexIrreflexive(rest[i], CharLt);
      }
    }
  }

  /**
   * The test case: the numeric level of the product index holds 1, 2, 3 three times over;
   * pressing 2 and 3 gives the ordering 2, 3, 1.
   */
  lemma LevelOrderingExample()
    ensures LevelOrdering(["1", "2", "3", "1", "2", "3", "1", "2", "3"], ["2", "3"]) == ["2", "3", "1"]
  {
    UnpressedExample();
    SortedDistinctOnes();
  }

  lemma UnpressedExample()
    ensures Unpressed(["1", "2", "3", "1", "2", "3", "1", "2", "3"], ["2", "3"]) == ["1", "1", "1"]
  {
    var t, p := ["1", "2", "3"], ["2", "3"];
    assert Unpressed(t, p) == ["1"];
    assert ["1", "2", "3", "1", "2", "3", "1", "2", "3"] == t + t + t;
    UnpressedAppend(t + t, t, p);
    UnpressedAppend(t, t, p);
  }

  lemma {:induction false} UnpressedAppend(a: seq<string>, b: seq<string>, pressing: seq<string>)
    ensures Unpressed(a + b, pressing) == Unpressed(a, pressing) + Unpressed(b, pressing)
  {
    if |a| > 0 {
      UnpressedAppend(a[1..], b, pressing);
      assert (a + b)[1..] == a[1..] + b;
    } else {
      assert a + b == b;
    }
  }

  lemma SortedDistinctOnes()
    ensures SortedDistinct(["1", "1", "1"], StringLt) == ["1"]
  {
    var s := ["1", "1", "1"];
    assert s[..2] == ["1", "1"] && s[..2][..1] == ["1"] && s[..2][..1][..0] == [];
    assert SortedDistinct(s[..2][..1], StringLt) == ["1"];
    assert SortedDistinct(s[..2], StringLt) == ["1"];
  }

  /** Without pressed values the ordering is the sorted distinct values. */
  lemma LevelOrderingUnpressedExample()
    ensures LevelOrdering(["b", "a", "b"], []) == ["a", "b"]
  {
    assert Unpressed(["b", "a", "b"], []) == ["b", "a", "b"];
    SortedDistinctBab();
  }

  lemma SortedDistinctBab()
    ensures SortedDistinct(["b", "a", "b"], StringLt) == ["a", "b"]
  {
    var s := ["b", "a", "b"];
    assert s[..2] == ["b", "a"] && s[..2][..1] == ["b"] && s[..2][..1][..0] == [];
    assert SortedDistinct(s[..2][..1], StringLt) == ["b"];
    assert StringLt("a", "b");
    assert SortedDistinct(s[..2], StringLt) == ["a", "b"];
    assert !StringLt("b", "a") && "b" != "a";
    assert ["a", "b"][1..] == ["b"];
    assert Insert("b", ["a", "b"], StringLt) == ["a", "b"];
  }

  lemma SortColumnsErrorExample()
    ensures SortColumnsOrdering(AlphaNumeric(), "greek", ["2", "3"]) == Failure(KeyError("greek"))
    ensures SortColumnsOrdering(Flat("lipid", ["a"]), "greek", []) == Failure(KeyError("greek"))
  {
    assert "greek" !in AlphaNumeric().names;
  }
}
