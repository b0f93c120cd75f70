/**
 * The Lipid Trafficking Analysis pipeline: count tables are binarised per
 * phenotype, bucketed by experimental mode, reduced to the lipids present in
 * every tissue of some phenotype (the A-lipids), and each Category of A-lipids
 * gets a Jaccard distance between the first two phenotypes with a bootstrap
 * p-value.
 */
module Pipeline {
  import opened Wrappers
  import opened Errors
  import opened Ordering
  import opened Sequences
  import opened DataHandling
  import opened Jaccard

  /** The row labels of a count table: the lipid, its Category and its m/z. */
  datatype Lipid = Lipid(name: string, category: string, mz: string)

  /** The column labels of a count table: the six metadata rows of the data file. */
  datatype Sample = Sample(sample: string, phenotype: string, generation: string,
                           tissue: string, handling: string, mode: string)
  {
    /** The labels left once the `Sample` level is dropped. */
    function WithoutSample(): Condition
    {
      Condition(phenotype, generation, tissue, handling, mode)
    }
  }

  datatype Condition = Condition(phenotype: string, generation: string, tissue: string,
                                 handling: string, mode: string)

  /** A count table as read from one data file. */
  datatype Counts = Counts(lipids: seq<Lipid>, samples: seq<Sample>, values: seq<seq<real>>)
  {
    predicate WellFormed()
    {
      |values| == |lipids| && forall i :: 0 <= i < |values| ==> |values[i]| == |samples|
    }
  }

  /** A boolean table whose columns carry the metadata without the `Sample` level. */
  datatype Presence = Presence(lipids: seq<Lipid>, conditions: seq<Condition>, cells: seq<seq<bool>>)
  {
    predicate WellFormed()
    {
      |cells| == |lipids| && forall i :: 0 <= i < |cells| ==> |cells[i]| == |conditions|
    }
  }

  /** A boolean table with one column per phenotype. */
  datatype PhenotypeTable = PhenotypeTable(lipids: seq<Lipid>, phenotypes: seq<string>, cells: seq<seq<bool>>)
  {
    predicate WellFormed()
    {
      |cells| == |lipids| && forall i :: 0 <= i < |cells| ==> |cells[i]| == |phenotypes|
    }
  }

  // ---------------------------------------------------------------------------
  // `_post_process`: the per-phenotype binariser.

  /** The group key of every sample: its phenotype alone. */
  function PhenotypeKeys(samples: seq<Sample>): (keys: seq<seq<string>>)
    ensures |keys| == |samples| && forall k :: 0 <= k < |samples| ==> keys[k] == [samples[k].phenotype]
  {
    seq(|samples|, k requires 0 <= k < |samples| => [samples[k].phenotype])
  }

  /** `df.columns.droplevel("Sample").unique()`. */
  function Metadata(samples: seq<Sample>): seq<Condition>
  {
    Dedup(seq(|samples|, k requires 0 <= k < |samples| => samples[k].WithoutSample()))
  }

  lemma MetadataSpec(samples: seq<Sample>)
    ensures Distinct(Metadata(samples))
    ensures forall c :: c in Metadata(samples) <==> exists k :: 0 <= k < |samples| && samples[k].WithoutSample() == c
    ensures forall c :: 0 <= c < |Metadata(samples)| ==>
      [Metadata(samples)[c].phenotype] in Groups(PhenotypeKeys(samples))
  {
    var conds := seq(|samples|, k requires 0 <= k < |samples| => samples[k].WithoutSample());
    DedupSpec(conds);
    GroupsSpec(PhenotypeKeys(samples));
    forall c ensures c in conds <==> exists k :: 0 <= k < |samples| && samples[k].WithoutSample() == c {
      if exists k :: 0 <= k < |samples| && samples[k].WithoutSample() == c {
        var k :| 0 <= k < |samples| && samples[k].WithoutSample() == c;
        assert conds[k] == c;
      }
    }
    forall c | 0 <= c < |Metadata(samples)|
      ensures [Metadata(samples)[c].phenotype] in Groups(PhenotypeKeys(samples))
    {
      assert Metadata(samples)[c] in conds;
      var k :| 0 <= k < |samples| && conds[k] == Metadata(samples)[c];
      assert PhenotypeKeys(samples)[k] == [Metadata(samples)[c].phenotype];
    }
  }

  /**
   * `_post_process(df)`: a (lipid, phenotype) cell is present when at most
   * `thresh` of the phenotype's samples are zero; lipids present in no
   * phenotype are dropped; every metadata column gets its phenotype's value.
   */
  function PostProcess(df: Counts, thresh: real): (r: Presence)
    requires df.WellFormed()
    ensures r.WellFormed()
    ensures r.lipids == Select(df.lipids, Kept(df.values, PhenotypeKeys(df.samples), thresh))
    ensures r.conditions == Metadata(df.samples)
  {
    var keys := PhenotypeKeys(df.samples);
    var groups := Groups(keys);
    var grid := Grid(df.values, keys, groups, thresh);
    var keep := Kept(df.values, keys, thresh);
    var kept := Select(grid, keep);
    var conditions := Metadata(df.samples);
    MetadataSpec(df.samples);
    SelectLength(grid, keep);
    SelectLength(df.lipids, keep);
    SelectRows(grid, keep, |groups|);
    Presence(Select(df.lipids, keep), conditions,
      seq(|kept|, i requires 0 <= i < |kept| =>
        seq(|conditions|, c requires 0 <= c < |conditions| =>
          kept[i][IndexOf(groups, [conditions[c].phenotype])])))
  }

  /**
   * A lipid survives exactly when some phenotype is present in it, and the
   * surviving row holds, in each column, the presence of that column's phenotype.
   */
  lemma PostProcessCells(df: Counts, thresh: real)
    requires df.WellFormed()
    ensures var keep := Kept(df.values, PhenotypeKeys(df.samples), thresh);
      && (forall i :: 0 <= i < |df.values| ==>
            (keep[i] <==> exists k :: 0 <= k < |df.samples| &&
                            Present(df.values[i], PhenotypeKeys(df.samples), [df.samples[k].phenotype], thresh)))
      && forall i, c :: 0 <= i < |df.values| && keep[i] && 0 <= c < |Metadata(df.samples)| ==>
            && Rank(keep, i) < |PostProcess(df, thresh).cells|
            && PostProcess(df, thresh).cells[Rank(keep, i)][c]
               == Present(df.values[i], PhenotypeKeys(df.samples), [Metadata(df.samples)[c].phenotype], thresh)
  {
    var keys := PhenotypeKeys(df.samples);
    var groups := Groups(keys);
    var grid := Grid(df.values, keys, groups, thresh);
    var keep := Kept(df.values, keys, thresh);
    var r := PostProcess(df, thresh);
    GroupsSpec(keys);
    MetadataSpec(df.samples);
    forall i | 0 <= i < |df.values|
      ensures keep[i] <==> exists k :: 0 <= k < |df.samples| && Present(df.values[i], keys, [df.samples[k].phenotype], thresh)
    {
      if keep[i] {
        var g :| 0 <= g < |groups| && Present(df.values[i], keys, groups[g], thresh);
        assert groups[g] in keys;
      }
      if exists k :: 0 <= k < |df.samples| && Present(df.values[i], keys, [df.samples[k].phenotype], thresh) {
        var k :| 0 <= k < |df.samples| && Present(df.values[i], keys, [df.samples[k].phenotype], thresh);
        assert keys[k] in groups;
        var g := IndexOf(groups, keys[k]);
        assert Present(df.values[i], keys, groups[g], thresh);
      }
    }
    SelectLength(grid, keep);
    forall i | 0 <= i < |df.values| && keep[i]
      ensures Rank(keep, i) < |r.cells| && Select(grid, keep)[Rank(keep, i)] == grid[i]
    {
      SelectAt(grid, keep, i);
    }
  }

  /** Every row kept by `_post_process` has a true cell. */
  lemma PostProcessRowsOccupied(df: Counts, thresh: real)
    requires df.WellFormed()
    ensures forall m :: 0 <= m < |PostProcess(df, thresh).cells| ==> true in PostProcess(df, thresh).cells[m]
  {
    var keep := Kept(df.values, PhenotypeKeys(df.samples), thresh);
    var r := PostProcess(df, thresh);
    PostProcessCells(df, thresh);
    SelectLength(df.lipids, keep);
    forall m | 0 <= m < |r.cells| ensures true in r.cells[m] {
      SelectFrom(df.lipids, keep, m);
      var i :| 0 <= i < |df.lipids| && keep[i] && Rank(keep, i) == m;
      KeptRowOccupied(df, thresh, i);
    }
  }

  lemma KeptRowOccupied(df: Counts, thresh: real, i: nat)
    requires df.WellFormed() && i < |df.values| && Kept(df.values, PhenotypeKeys(df.samples), thresh)[i]
    ensures var keep := Kept(df.values, PhenotypeKeys(df.samples), thresh);
      Rank(keep, i) < |PostProcess(df, thresh).cells| && true in PostProcess(df, thresh).cells[Rank(keep, i)]
  {
    var keys := PhenotypeKeys(df.samples);
    var keep := Kept(df.values, keys, thresh);
    var meta := Metadata(df.samples);
    PostProcessCells(df, thresh);
    MetadataSpec(df.samples);
    var k :| 0 <= k < |df.samples| && Present(df.values[i], keys, [df.samples[k].phenotype], thresh);
    var c := IndexOf(meta, df.samples[k].WithoutSample());
    assert PostProcess(df, thresh).cells[Rank(keep, i)][c];
  }

  /** In a sequence without repetitions, the first position of the `g`-th entry is `g`. */
  lemma DistinctIndexOf<T>(s: seq<T>, g: nat)
    requires Distinct(s) && g < |s|
    ensures IndexOf(s, s[g]) == g
  {
    var i := IndexOf(s, s[g]);
    assert s[i] == s[g];
  }

  // ---------------------------------------------------------------------------
  // `_get_modes` and `_split_data`.

  /** `df.columns.get_level_values("Mode")`. */
  function ModeList(f: Presence): (r: seq<string>)
    ensures |r| == |f.conditions| && forall c :: 0 <= c < |f.conditions| ==> r[c] == f.conditions[c].mode
  {
    seq(|f.conditions|, c requires 0 <= c < |f.conditions| => f.conditions[c].mode)
  }

  /** `df.columns.get_level_values("Mode").unique()`. */
  function Modes(f: Presence): seq<string>
  {
    Dedup(ModeList(f))
  }

  /** `_get_modes(frames)`: the union of the modes of all frames. */
  function GetModes(frames: seq<Presence>): (r: set<string>)
    ensures forall m :: m in r <==> exists i :: 0 <= i < |frames| && m in ModeList(frames[i])
  {
    set i, m | 0 <= i < |frames| && m in ModeList(frames[i]) :: m
  }

  /** The truth value of `unique_modes == mode` for a frame with at most one mode. */
  predicate InMode(f: Presence, m: string)
  {
    Modes(f) == [m]
  }

  /** The frames of mode `m`, in their original order. */
  function Bucket(frames: seq<Presence>, m: string): seq<Presence>
  {
    Select(frames, seq(|frames|, i requires 0 <= i < |frames| => InMode(frames[i], m)))
  }

  /**
   * `_split_data(modes, frames)`: a frame with more than one mode makes the
   * comparison an array of several truth values, which has no truth value.
   */
  function SplitData(modes: set<string>, frames: seq<Presence>): (r: Result<map<string, seq<Presence>>, Exception>)
    ensures r.Failure? <==> modes != {} && exists i :: 0 <= i < |frames| && |Modes(frames[i])| >= 2
    ensures r.Failure? ==> r.error == ValueError(AmbiguousTruth)
    ensures r.Success? ==> r.value.Keys == modes
    ensures r.Success? ==> forall m :: m in modes ==> IsSubsequence(r.value[m], frames)
    ensures r.Success? ==> forall m, f :: m in modes ==> (f in r.value[m] <==> f in frames && InMode(f, m))
    ensures r.Success? ==> forall m :: m in modes ==> |r.value[m]| == |set i: nat | i < |frames| && InMode(frames[i], m)|
  {
    if modes != {} && exists i :: 0 <= i < |frames| && |Modes(frames[i])| >= 2 then
      Failure(ValueError(AmbiguousTruth))
    else
      var r := map m | m in modes :: Bucket(frames, m);
      forall m | m in modes
        ensures IsSubsequence(r[m], frames)
        ensures forall f :: f in r[m] <==> f in frames && InMode(f, m)
        ensures |r[m]| == |set i: nat | i < |frames| && InMode(frames[i], m)|
      {
        BucketSpec(frames, m);
      }
      Success(r)
  }

  /**
   * The comprehension of `_split_data` keeps, in order, exactly the frames of mode `m`,
   * one entry per position of such a frame.
   */
  lemma BucketSpec(frames: seq<Presence>, m: string)
    ensures IsSubsequence(Bucket(frames, m), frames)
    ensures forall f :: f in Bucket(frames, m) <==> f in frames && InMode(f, m)
    ensures |Bucket(frames, m)| == |set i: nat | i < |frames| && InMode(frames[i], m)|
  {
    var keep := seq(|frames|, i requires 0 <= i < |frames| => InMode(frames[i], m));
    SelectIsSubsequence(frames, keep);
    SelectMembership(frames, keep);
    SelectLength(frames, keep);
    CountTruePositions(keep);
    assert Positions(keep) == set i: nat | i < |frames| && InMode(frames[i], m);
  }

  /** A frame is in mode `m` exactly when it has columns and every column's mode is `m`. */
  lemma InModeSpec(f: Presence, m: string)
    ensures InMode(f, m) <==> |f.conditions| > 0 && forall c :: 0 <= c < |f.conditions| ==> f.conditions[c].mode == m
  {
    var l := ModeList(f);
    var d := Modes(f);
    DedupSpec(l);
    if |f.conditions| > 0 && forall c :: 0 <= c < |f.conditions| ==> f.conditions[c].mode == m {
      DedupConstant(l, m);
    }
    if d == [m] {
      assert forall c :: 0 <= c < |l| ==> l[c] in d;
      assert m in l;
    }
  }

  /** A frame with columns and at most one distinct mode is in the mode of its first column. */
  lemma SingleMode(f: Presence)
    requires |f.conditions| > 0 && |Modes(f)| < 2
    ensures forall c :: 0 <= c < |f.conditions| ==> f.conditions[c].mode == f.conditions[0].mode
    ensures InMode(f, f.conditions[0].mode)
  {
    var l := ModeList(f);
    var d := Modes(f);
    DedupSpec(l);
    assert l[0] in d;
    assert |d| == 1;
    forall c | 0 <= c < |f.conditions| ensures f.conditions[c].mode == f.conditions[0].mode {
      assert l[c] in d;
    }
    InModeSpec(f, f.conditions[0].mode);
  }

  /** Split on the modes of the frames themselves, the split fails exactly when some frame carries two modes. */
  lemma SplitDataFails(frames: seq<Presence>)
    ensures SplitData(GetModes(frames), frames).Failure? <==> exists i :: 0 <= i < |frames| && |Modes(frames[i])| >= 2
  {
    forall i | 0 <= i < |frames| && |Modes(frames[i])| >= 2 ensures GetModes(frames) != {} {
      DedupSpec(ModeList(frames[i]));
      assert Modes(frames[i])[0] in ModeList(frames[i]);
      assert Modes(frames[i])[0] in GetModes(frames);
    }
  }

  /** Split on the modes of the frames themselves, every frame with columns lands in the bucket of its mode. */
  lemma SplitDataCovers(frames: seq<Presence>, i: nat, c: nat)
    requires SplitData(GetModes(frames), frames).Success?
    requires i < |frames| && c < |frames[i].conditions|
    ensures frames[i] in SplitData(GetModes(frames), frames).value[frames[i].conditions[c].mode]
  {
    assert ModeList(frames[i])[c] in ModeList(frames[i]);
    assert frames[i].conditions[c].mode in GetModes(frames);
    assert |Modes(frames[i])| < 2;
    SingleMode(frames[i]);
  }

  /** Split on the modes of the frames themselves, no bucket is empty. */
  lemma SplitDataNonEmpty(frames: seq<Presence>)
    requires SplitData(GetModes(frames), frames).Success?
    ensures forall m :: m in GetModes(frames) ==> |SplitData(GetModes(frames), frames).value[m]| > 0
  {
    forall m | m in GetModes(frames) ensures |SplitData(GetModes(frames), frames).value[m]| > 0 {
      var i :| 0 <= i < |frames| && m in ModeList(frames[i]);
      var c :| 0 <= c < |ModeList(frames[i])| && ModeList(frames[i])[c] == m;
      SplitDataCovers(frames, i, c);
    }
  }

  // ---------------------------------------------------------------------------
  // `_get_a_lipids`: inner join, AND within each phenotype, keep rows with a true phenotype.

  predicate AllWellFormed(frames: seq<Presence>)
  {
    forall k :: 0 <= k < |frames| ==> frames[k].WellFormed()
  }

  /** Every frame has the lipid `l` among its rows. */
  predicate InAll(frames: seq<Presence>, l: Lipid)
  {
    forall k :: 0 <= k < |frames| ==> l in frames[k].lipids
  }

  /** The row of lipid `l` in `f` (`f.loc[l]`). */
  function RowOf(f: Presence, l: Lipid): (r: seq<bool>)
    requires f.WellFormed() && l in f.lipids
    ensures |r| == |f.conditions|
  {
    f.cells[IndexOf(f.lipids, l)]
  }

  /** The columns of `pd.concat(frames, axis="columns")`: those of every frame, in turn. */
  function Columns(frames: seq<Presence>): seq<Condition>
  {
    if |frames| == 0 then [] else frames[0].conditions + Columns(frames[1..])
  }

  /** The row of lipid `l` in the concatenated table. */
  function JoinedRow(frames: seq<Presence>, l: Lipid): (r: seq<bool>)
    requires AllWellFormed(frames) && InAll(frames, l)
    ensures |r| == |Columns(frames)|
  {
    if |frames| == 0 then []
    else
      assert AllWellFormed(frames[1..]) && InAll(frames[1..], l) by {
        assert forall k :: 1 <= k < |frames| ==> frames[k] == frames[1..][k - 1];
      }
      RowOf(frames[0], l) + JoinedRow(frames[1..], l)
  }

  /** The lipids of the first frame that every frame has. */
  function Shared(frames: seq<Presence>): (r: seq<Lipid>)
    requires |frames| > 0
    ensures forall i :: 0 <= i < |r| ==> InAll(frames, r[i])
    ensures forall l :: l in r <==> l in frames[0].lipids && InAll(frames, l)
    ensures IsSubsequence(r, frames[0].lipids)
  {
    var lipids := frames[0].lipids;
    var shared := seq(|lipids|, i requires 0 <= i < |lipids| => InAll(frames, lipids[i]));
    var r := Select(lipids, shared);
    SelectMembership(lipids, shared);
    SelectIsSubsequence(lipids, shared);
    assert forall i :: 0 <= i < |r| ==> r[i] in r;
    r
  }

  /** `pd.concat(frames, join="inner", axis="columns")`. */
  function Join(frames: seq<Presence>): (r: Presence)
    requires |frames| > 0 && AllWellFormed(frames)
    ensures r.WellFormed() && r.lipids == Shared(frames) && r.conditions == Columns(frames)
    ensures forall i :: 0 <= i < |r.lipids| ==> r.cells[i] == JoinedRow(frames, r.lipids[i])
  {
    var lipids := Shared(frames);
    Presence(lipids, Columns(frames), seq(|lipids|, i requires 0 <= i < |lipids| => JoinedRow(frames, lipids[i])))
  }

  /** All of the columns of phenotype `ph` are true in `row`. */
  predicate AllIn(row: seq<bool>, conds: seq<Condition>, ph: string)
    requires |row| == |conds|
  {
    forall c :: 0 <= c < |conds| && conds[c].phenotype == ph ==> row[c]
  }

  function PhenotypeList(conds: seq<Condition>): (r: seq<string>)
    ensures |r| == |conds| && forall c :: 0 <= c < |conds| ==> r[c] == conds[c].phenotype
  {
    seq(|conds|, c requires 0 <= c < |conds| => conds[c].phenotype)
  }

  /** `.groupby(axis="columns", level="Phenotype").all()`: one column per phenotype, sorted. */
  function AllByPhenotype(t: Presence): (r: PhenotypeTable)
    requires t.WellFormed()
    ensures r.WellFormed() && r.lipids == t.lipids
    ensures r.phenotypes == SortedDistinct(PhenotypeList(t.conditions), StringLt)
    ensures forall i, p :: 0 <= i < |r.cells| && 0 <= p < |r.phenotypes| ==>
      r.cells[i][p] == AllIn(t.cells[i], t.conditions, r.phenotypes[p])
  {
    var ph := SortedDistinct(PhenotypeList(t.conditions), StringLt);
    PhenotypeTable(t.lipids, ph,
      seq(|t.cells|, i requires 0 <= i < |t.cells| =>
        seq(|ph|, p requires 0 <= p < |ph| => AllIn(t.cells[i], t.conditions, ph[p]))))
  }

  /** `.loc[x.any(axis="columns"), :]`: the rows with a true cell, in order. */
  function KeepAny(t: PhenotypeTable): (r: PhenotypeTable)
    requires t.WellFormed()
    ensures r.WellFormed() && r.phenotypes == t.phenotypes
    ensures IsSubsequence(r.lipids, t.lipids)
    ensures forall m :: 0 <= m < |r.lipids| ==>
      exists i :: 0 <= i < |t.lipids| && r.lipids[m] == t.lipids[i] && r.cells[m] == t.cells[i] && true in t.cells[i]
    ensures forall i :: 0 <= i < |t.lipids| && true in t.cells[i] ==> t.lipids[i] in r.lipids
  {
    var keep := Occupied(t.cells);
    SelectLength(t.lipids, keep);
    SelectLength(t.cells, keep);
    SelectRows(t.cells, keep, |t.phenotypes|);
    SelectIsSubsequence(t.lipids, keep);
    SelectMembership(t.lipids, keep);
    assert forall m :: 0 <= m < CountTrue(keep) ==>
        exists i :: (0 <= i < |t.lipids| && Select(t.lipids, keep)[m] == t.lipids[i]
                     && Select(t.cells, keep)[m] == t.cells[i] && true in t.cells[i]) by {
      forall m | 0 <= m < CountTrue(keep)
        ensures exists i :: (0 <= i < |t.lipids| && Select(t.lipids, keep)[m] == t.lipids[i]
                             && Select(t.cells, keep)[m] == t.cells[i] && true in t.cells[i])
      {
        SelectZip(t.lipids, t.cells, keep, m);
      }
    }
    PhenotypeTable(Select(t.lipids, keep), t.phenotypes, Select(t.cells, keep))
  }

  /** The A-lipids of one mode; concatenating no frames fails. */
  function ALipidsOfMode(frames: seq<Presence>): (r: Result<PhenotypeTable, Exception>)
    requires AllWellFormed(frames)
    ensures r.Failure? <==> |frames| == 0
    ensures r.Failure? ==> r.error == ValueError(NoObjects)
    ensures r.Success? ==> r.value.WellFormed()
  {
    if |frames| == 0 then Failure(ValueError(NoObjects))
    else Success(KeepAny(AllByPhenotype(Join(frames))))
  }

  /** Reference: every column of phenotype `ph`, in every frame, is true for lipid `l`. */
  predicate AllTrueIn(frames: seq<Presence>, l: Lipid, ph: string)
    requires AllWellFormed(frames) && InAll(frames, l)
  {
    forall k, c :: 0 <= k < |frames| && 0 <= c < |frames[k].conditions| && frames[k].conditions[c].phenotype == ph ==>
      RowOf(frames[k], l)[c]
  }

  lemma AllInAppend(a: seq<bool>, as_: seq<Condition>, b: seq<bool>, bs: seq<Condition>, ph: string)
    requires |a| == |as_| && |b| == |bs|
    ensures AllIn(a + b, as_ + bs, ph) <==> AllIn(a, as_, ph) && AllIn(b, bs, ph)
  {
    if AllIn(a, as_, ph) && AllIn(b, bs, ph) {
      forall c | 0 <= c < |as_ + bs| && (as_ + bs)[c].phenotype == ph ensures (a + b)[c] {
        if c >= |as_| {
          assert (as_ + bs)[c] == bs[c - |as_|] && (a + b)[c] == b[c - |as_|];
        }
      }
    }
    if AllIn(a + b, as_ + bs, ph) {
      forall c | 0 <= c < |as_| && as_[c].phenotype == ph ensures a[c] {
        assert (as_ + bs)[c] == as_[c] && (a + b)[c] == a[c];
      }
      forall c | 0 <= c < |bs| && bs[c].phenotype == ph ensures b[c] {
        assert (as_ + bs)[c + |as_|] == bs[c] && (a + b)[c + |as_|] == b[c];
      }
    }
  }

  /** A phenotype column of the concatenated table is all true exactly when it is so in every frame. */
  lemma {:induction false} JoinedAll(frames: seq<Presence>, l: Lipid, ph: string)
    requires AllWellFormed(frames) && InAll(frames, l)
    ensures AllIn(JoinedRow(frames, l), Columns(frames), ph) <==> AllTrueIn(frames, l, ph)
  {
    if |frames| > 0 {
      var rest := frames[1..];
      assert forall k :: 1 <= k < |frames| ==> frames[k] == rest[k - 1];
      JoinedAll(rest, l, ph);
      AllInAppend(RowOf(frames[0], l), frames[0].conditions, JoinedRow(rest, l), Columns(rest), ph);
      assert AllTrueIn(frames, l, ph) <==> AllIn(RowOf(frames[0], l), frames[0].conditions, ph) && AllTrueIn(rest, l, ph);
    }
  }

  /** The phenotypes of the concatenated columns are those of the frames. */
  lemma {:induction false} ColumnsPhenotypes(frames: seq<Presence>)
    ensures forall ph :: ph in PhenotypeList(Columns(frames)) <==>
      exists k, c :: 0 <= k < |frames| && 0 <= c < |frames[k].conditions| && frames[k].conditions[c].phenotype == ph
  {
    if |frames| > 0 {
      var rest := frames[1..];
      ColumnsPhenotypes(rest);
      assert forall k :: 1 <= k < |frames| ==> frames[k] == rest[k - 1];
      assert PhenotypeList(Columns(frames)) == PhenotypeList(frames[0].conditions) + PhenotypeList(Columns(rest));
      forall ph | exists k, c :: 0 <= k < |frames| && 0 <= c < |frames[k].conditions| && frames[k].conditions[c].phenotype == ph
        ensures ph in PhenotypeList(Columns(frames))
      {
        var k, c :| 0 <= k < |frames| && 0 <= c < |frames[k].conditions| && frames[k].conditions[c].phenotype == ph;
        if k == 0 {
          assert PhenotypeList(frames[0].conditions)[c] == ph;
        } else {
          assert rest[k - 1].conditions[c].phenotype == ph;
        }
      }
    }
  }

  /**
   * The phenotype columns of the A-lipid table are the phenotypes of the
   * frames, sorted and distinct; each cell says whether that phenotype is
   * present in all its columns in every frame.
   */
  lemma ALipidsOfModeCells(frames: seq<Presence>)
    requires |frames| > 0 && AllWellFormed(frames)
    ensures var r := ALipidsOfMode(frames).value;
      && StrictlyIncreasing(r.phenotypes, StringLt)
      && (forall ph :: ph in r.phenotypes <==>
            exists k, c :: 0 <= k < |frames| && 0 <= c < |frames[k].conditions| && frames[k].conditions[c].phenotype == ph)
      && (forall m :: 0 <= m < |r.lipids| ==> InAll(frames, r.lipids[m]))
      && (forall m, p :: 0 <= m < |r.lipids| && 0 <= p < |r.phenotypes| ==>
            r.cells[m][p] == AllTrueIn(frames, r.lipids[m], r.phenotypes[p]))
  {
    var j := Join(frames);
    var t := AllByPhenotype(j);
    var r := KeepAny(t);
    StringLtIsStrictTotal();
    SortedDistinctSpec(PhenotypeList(Columns(frames)), StringLt);
    ColumnsPhenotypes(frames);
    forall m | 0 <= m < |r.lipids| ensures InAll(frames, r.lipids[m]) && forall p :: 0 <= p < |r.phenotypes| ==>
        r.cells[m][p] == AllTrueIn(frames, r.lipids[m], r.phenotypes[p])
    {
      var i :| 0 <= i < |t.lipids| && r.lipids[m] == t.lipids[i] && r.cells[m] == t.cells[i] && true in t.cells[i];
      forall p | 0 <= p < |r.phenotypes| ensures r.cells[m][p] == AllTrueIn(frames, r.lipids[m], r.phenotypes[p]) {
        JoinedAll(frames, j.lipids[i], r.phenotypes[p]);
      }
    }
  }

  /** A-lipids keep the order of the first frame, and each of them is in every frame and has a fully present phenotype. */
  lemma ALipidsOfModeRows(frames: seq<Presence>)
    requires |frames| > 0 && AllWellFormed(frames)
    ensures var r := ALipidsOfMode(frames).value;
      && IsSubsequence(r.lipids, frames[0].lipids)
      && forall m :: 0 <= m < |r.lipids| ==>
           r.lipids[m] in frames[0].lipids && InAll(frames, r.lipids[m])
           && exists p :: 0 <= p < |r.phenotypes| && AllTrueIn(frames, r.lipids[m], r.phenotypes[p])
  {
    var t := AllByPhenotype(Join(frames));
    var r := KeepAny(t);
    SubsequenceTransitive(r.lipids, t.lipids, frames[0].lipids);
    forall m | 0 <= m < |r.lipids|
      ensures r.lipids[m] in frames[0].lipids && InAll(frames, r.lipids[m])
           && exists p :: 0 <= p < |r.phenotypes| && AllTrueIn(frames, r.lipids[m], r.phenotypes[p])
    {
      ALipidsRow(frames, m);
    }
  }

  lemma ALipidsRow(frames: seq<Presence>, m: nat)
    requires |frames| > 0 && AllWellFormed(frames) && m < |ALipidsOfMode(frames).value.lipids|
    ensures var r := ALipidsOfMode(frames).value;
      r.lipids[m] in frames[0].lipids && InAll(frames, r.lipids[m])
      && exists p :: 0 <= p < |r.phenotypes| && AllTrueIn(frames, r.lipids[m], r.phenotypes[p])
  {
    var j := Join(frames);
    var t := AllByPhenotype(j);
    var r := KeepAny(t);
    var i :| 0 <= i < |t.lipids| && r.lipids[m] == t.lipids[i] && r.cells[m] == t.cells[i] && true in t.cells[i];
    assert j.lipids[i] in Shared(frames);
    var p :| 0 <= p < |t.phenotypes| && t.cells[i][p];
    JoinedAll(frames, j.lipids[i], t.phenotypes[p]);
  }

  /** Every lipid that all frames share and that has a fully present phenotype is an A-lipid. */
  lemma ALipidsOfModeComplete(frames: seq<Presence>, l: Lipid, ph: string)
    requires |frames| > 0 && AllWellFormed(frames)
    requires l in frames[0].lipids && InAll(frames, l) && AllTrueIn(frames, l, ph)
    requires ph in ALipidsOfMode(frames).value.phenotypes
    ensures l in ALipidsOfMode(frames).value.lipids
  {
    var j := Join(frames);
    var t := AllByPhenotype(j);
    var p :| 0 <= p < |t.phenotypes| && t.phenotypes[p] == ph;
    var i :| 0 <= i < |j.lipids| && j.lipids[i] == l;
    JoinedAll(frames, l, ph);
    assert t.cells[i][p];
  }

  // ---------------------------------------------------------------------------
  // `_jaccard`: per Category, the distance between the first two phenotypes.

  /** One row of the Jaccard table of a mode. */
  datatype CategoryScore = CategoryScore(category: string, jDist: Float, pVal: Float)

  function CategoryList(t: PhenotypeTable): (r: seq<string>)
    ensures |r| == |t.lipids| && forall i :: 0 <= i < |t.lipids| ==> r[i] == t.lipids[i].category
  {
    seq(|t.lipids|, i requires 0 <= i < |t.lipids| => t.lipids[i].category)
  }

  /** The groups of `groupby(axis="rows", level="Category")`: the distinct categories, sorted. */
  function Categories(t: PhenotypeTable): seq<string>
  {
    SortedDistinct(CategoryList(t), StringLt)
  }

  /** The rows of Category `g`. */
  function InCategory(t: PhenotypeTable, g: string): (r: seq<bool>)
    ensures |r| == |t.lipids| && forall i :: 0 <= i < |t.lipids| ==> (r[i] <==> t.lipids[i].category == g)
  {
    seq(|t.lipids|, i requires 0 <= i < |t.lipids| => t.lipids[i].category == g)
  }

  /** `df.iloc[:, p]` of the rows of Category `g`. */
  function CategoryColumn(t: PhenotypeTable, g: string, p: nat): (r: seq<bool>)
    requires t.WellFormed() && p < |t.phenotypes|
    ensures |r| == CountTrue(InCategory(t, g))
  {
    SelectLength(Column(t.cells, p), InCategory(t, g));
    Select(Column(t.cells, p), InCategory(t, g))
  }

  /**
   * What `default_rng(42)` draws: every bootstrap call starts a fresh generator
   * with the same seed, so its resamples depend only on the vector length.
   */
  ghost predicate ValidSampler(sampler: nat -> seq<Draw>, n: nat)
  {
    forall len: nat :: |sampler(len)| == n && ValidDraws(sampler(len), len, len)
  }

  /** `bootstrap(df.iloc[:, 0], df.iloc[:, 1], n=n)` on the rows of Category `g`. */
  function CategoryOutcome(t: PhenotypeTable, g: string, n: nat, sampler: nat -> seq<Draw>): Outcome
    requires t.WellFormed() && |t.phenotypes| >= 2 && ValidSampler(sampler, n)
  {
    var x := CategoryColumn(t, g, 0);
    var y := CategoryColumn(t, g, 1);
    VecChecks(x, y);
    BootstrapErrors(Vec(x), Vec(y), None, None, n, sampler(|x|));
    BootstrapResult(Vec(x), Vec(y), None, None, n, sampler(|x|)).value
  }

  /**
   * The Jaccard table of one mode: per Category, `1 - J-sim` and the p-value.
   * A table with rows but fewer than two phenotype columns has no column 1.
   */
  function JaccardTable(t: PhenotypeTable, n: nat, sampler: nat -> seq<Draw>): (r: Result<seq<CategoryScore>, Exception>)
    requires t.WellFormed() && ValidSampler(sampler, n)
    ensures r.Failure? <==> |Categories(t)| > 0 && |t.phenotypes| < 2
    ensures r.Failure? ==> r.error == IndexError(OutOfBounds)
    ensures r.Success? ==> |r.value| == |Categories(t)|
  {
    var cats := Categories(t);
    if |cats| > 0 && |t.phenotypes| < 2 then Failure(IndexError(OutOfBounds))
    else
      var o := Outcomes(t, n, sampler);
      Success(seq(|cats|, g requires 0 <= g < |cats| => CategoryScore(cats[g], o[g].jSim.OneMinus(), o[g].pVal)))
  }

  /** The bootstrap outcome of every Category group, in group order. */
  function Outcomes(t: PhenotypeTable, n: nat, sampler: nat -> seq<Draw>): (r: seq<Outcome>)
    requires t.WellFormed() && ValidSampler(sampler, n)
    requires |Categories(t)| == 0 || |t.phenotypes| >= 2
    ensures |r| == |Categories(t)|
  {
    var cats := Categories(t);
    seq(|cats|, g requires 0 <= g < |cats| => CategoryOutcome(t, cats[g], n, sampler))
  }

  /**
   * Each row of the Jaccard table is the Jaccard distance of the first two
   * phenotype columns over that Category, and the p-value of their bootstrap
   * passed through unchanged; the categories are those of the lipids, sorted.
   */
  lemma JaccardTableScores(t: PhenotypeTable, n: nat, sampler: nat -> seq<Draw>)
    requires t.WellFormed() && ValidSampler(sampler, n) && |t.phenotypes| >= 2
    ensures StrictlyIncreasing(Categories(t), StringLt)
    ensures forall g :: g in Categories(t) <==> exists i :: 0 <= i < |t.lipids| && t.lipids[i].category == g
    ensures var r := JaccardTable(t, n, sampler).value;
      forall g :: 0 <= g < |r| ==>
        && r[g].category == Categories(t)[g]
        && Distance(Vec(CategoryColumn(t, r[g].category, 0)), Vec(CategoryColumn(t, r[g].category, 1)), None, None)
             == Success(r[g].jDist)
        && r[g].pVal == BootstrapResult(Vec(CategoryColumn(t, r[g].category, 0)), Vec(CategoryColumn(t, r[g].category, 1)),
                                        None, None, n, sampler(CountTrue(InCategory(t, r[g].category)))).value.pVal
        && (n > 0 ==> r[g].pVal.Finite? && 0.0 <= r[g].pVal.val <= 1.0)
  {
    StringLtIsStrictTotal();
    SortedDistinctSpec(CategoryList(t), StringLt);
    var r := JaccardTable(t, n, sampler).value;
    forall g | g in Categories(t) ensures exists i :: 0 <= i < |t.lipids| && t.lipids[i].category == g {
      assert g in CategoryList(t);
    }
    forall g | exists i :: 0 <= i < |t.lipids| && t.lipids[i].category == g ensures g in Categories(t) {
      var i :| 0 <= i < |t.lipids| && t.lipids[i].category == g;
      assert CategoryList(t)[i] == g;
    }
    forall g | 0 <= g < |r|
      ensures Distance(Vec(CategoryColumn(t, r[g].category, 0)), Vec(CategoryColumn(t, r[g].category, 1)), None, None)
             == Success(r[g].jDist)
      ensures n > 0 ==> r[g].pVal.Finite? && 0.0 <= r[g].pVal.val <= 1.0
    {
      var x := Vec(CategoryColumn(t, r[g].category, 0));
      var y := Vec(CategoryColumn(t, r[g].category, 1));
      var draws := sampler(|x.items|);
      DistanceComplement(x, y, None, None);
      BootstrapDegenerate(x, y, None, None, n, draws);
      if !AllOnesCase(x.items, y.items, Resolve(None, x.items), Resolve(None, y.items))
        && !AllZerosCase(x.items, y.items, Resolve(None, x.items), Resolve(None, y.items))
      {
        BootstrapTest(x, y, None, None, n, draws);
      }
    }
  }

  /** The Jaccard tables of all modes; every failure is the same missing second column. */
  function JaccardAll(tables: map<string, PhenotypeTable>, n: nat, sampler: nat -> seq<Draw>)
    : (r: Result<map<string, seq<CategoryScore>>, Exception>)
    requires forall m :: m in tables ==> tables[m].WellFormed()
    requires ValidSampler(sampler, n)
    ensures r.Failure? <==> exists m :: m in tables && JaccardTable(tables[m], n, sampler).Failure?
    ensures r.Success? ==> r.value.Keys == tables.Keys
  {
    if exists m :: m in tables && JaccardTable(tables[m], n, sampler).Failure? then Failure(IndexError(OutOfBounds))
    else Success(map m | m in tables :: JaccardTable(tables[m], n, sampler).value)
  }

  /** One mode without a second phenotype column fails the whole computation. */
  lemma JaccardAllFails(tables: map<string, PhenotypeTable>, n: nat, sampler: nat -> seq<Draw>, m: string)
    requires forall m :: m in tables ==> tables[m].WellFormed()
    requires ValidSampler(sampler, n)
    requires m in tables && JaccardTable(tables[m], n, sampler).Failure?
    ensures JaccardAll(tables, n, sampler) == Failure(JaccardTable(tables[m], n, sampler).error)
  {
  }

  /** The tables computed mode by mode make up the whole result. */
  lemma JaccardAllSucceeds(tables: map<string, PhenotypeTable>, n: nat, sampler: nat -> seq<Draw>,
                           done: map<string, seq<CategoryScore>>)
    requires forall m :: m in tables ==> tables[m].WellFormed()
    requires ValidSampler(sampler, n)
    requires done.Keys == tables.Keys
    requires forall m :: m in done ==> JaccardTable(tables[m], n, sampler) == Success(done[m])
    ensures JaccardAll(tables, n, sampler) == Success(done)
  {
    assert !exists m :: m in tables && JaccardTable(tables[m], n, sampler).Failure? by {
      forall m | m in tables ensures JaccardTable(tables[m], n, sampler).Success? {
        assert m in done;
      }
    }
    var all := map m | m in tables :: JaccardTable(tables[m], n, sampler).value;
    assert all.Keys == done.Keys;
    assert forall m :: m in done ==> all[m] == done[m];
    assert all == done;
  }

  /**
   * The Jaccard table of one mode as the source builds it: the bootstrap
   * outcomes are collected, then the J-sim column is overwritten in place by
   * `1 - J-sim`.
   */
  method JaccardOfMode(t: PhenotypeTable, n: nat, sampler: nat -> seq<Draw>) returns (r: Result<seq<CategoryScore>, Exception>)
    requires t.WellFormed() && ValidSampler(sampler, n)
    ensures r == JaccardTable(t, n, sampler)
  {
    var cats := Categories(t);
    if |cats| > 0 && |t.phenotypes| < 2 {
      return Failure(IndexError(OutOfBounds));
    }
    ghost var outs := Outcomes(t, n, sampler);
    // `sim`: one bootstrap outcome per Category group.
    var sim: seq<Outcome> := [];
    for g := 0 to |cats|
      invariant sim == outs[..g]
    {
      var o := CategoryBootstrap(t, cats[g], n, sampler);
      sim := sim + [o];
    }
    // `dist["J_dist"] = 1 - dist["J_dist"]`
    var jDist := seq(|sim|, k requires 0 <= k < |sim| => sim[k].jSim);
    jDist := seq(|jDist|, k requires 0 <= k < |jDist| => jDist[k].OneMinus());
    var rows := seq(|cats|, g requires 0 <= g < |cats| => CategoryScore(cats[g], jDist[g], sim[g].pVal));
    assert sim == outs;
    assert rows == JaccardTable(t, n, sampler).value by {
      var expected := JaccardTable(t, n, sampler).value;
      forall g | 0 <= g < |cats| ensures rows[g] == expected[g] {
        assert jDist[g] == outs[g].jSim.OneMinus();
      }
    }
    r := Success(rows);
  }

  /**
   * What `groupby(...).apply` hands back: a Series holding one object per group, or,
   * when every group returns a Series on one shared index, a DataFrame with that
   * index as its columns and one row per group.
   */
  datatype Applied =
    | SeriesOfObjects(objects: seq<Outcome>)
    | FrameOfRows(index: seq<string>, columns: seq<string>, rows: seq<seq<Float>>)

  /**
   * The `apply` of `_jaccard` as the code stands: `bootstrap` returns the Series
   * `[J-sim, p-val]`, so the groups stack into a DataFrame, one row per Category.
   * With no Category at all, `apply` returns an empty DataFrame that keeps the
   * table's own columns, the phenotypes.
   */
  function ApplyBootstrap(t: PhenotypeTable, n: nat, sampler: nat -> seq<Draw>): (r: Applied)
    requires t.WellFormed() && ValidSampler(sampler, n)
    requires |Categories(t)| == 0 || |t.phenotypes| >= 2
    ensures r.FrameOfRows? && r.index == Categories(t)
    ensures r.columns == if |Categories(t)| == 0 then t.phenotypes else ["J-sim", "p-val"]
    ensures |r.rows| == |Categories(t)|
    ensures forall g :: 0 <= g < |r.rows| ==>
      r.rows[g] == [CategoryOutcome(t, Categories(t)[g], n, sampler).jSim, CategoryOutcome(t, Categories(t)[g], n, sampler).pVal]
  {
    var o := Outcomes(t, n, sampler);
    var columns := if |o| == 0 then t.phenotypes else ["J-sim", "p-val"];
    FrameOfRows(Categories(t), columns, seq(|o|, g requires 0 <= g < |o| => [o[g].jSim, o[g].pVal]))
  }

  /** `sim.to_list()`: a Series lists its objects; a DataFrame has no such attribute. */
  function ToList(a: Applied): (r: Result<seq<Outcome>, Exception>)
    ensures r.Success? <==> a.SeriesOfObjects?
    ensures r.Success? ==> r.value == a.objects
    ensures r.Failure? ==> r.error == AttributeError(NoToList)
  {
    match a
    case SeriesOfObjects(objects) => Success(objects)
    case FrameOfRows(_, _, _) => Failure(AttributeError(NoToList))
  }

  /**
   * `_jaccard` for one mode as written: the missing second column is raised inside
   * `apply`, and otherwise `sim.to_list()` is asked of the DataFrame `apply` built.
   */
  function JaccardTableAsWritten(t: PhenotypeTable, n: nat, sampler: nat -> seq<Draw>): (r: Result<seq<CategoryScore>, Exception>)
    requires t.WellFormed() && ValidSampler(sampler, n)
    ensures |Categories(t)| > 0 && |t.phenotypes| < 2 ==> r == Failure(IndexError(OutOfBounds))
  {
    var cats := Categories(t);
    if |cats| > 0 && |t.phenotypes| < 2 then Failure(IndexError(OutOfBounds))
    else
      match ToList(ApplyBootstrap(t, n, sampler))
      case Failure(e) => Failure(e)
      // `apply` never returns a Series here, so the table is never built.
      case Success(_) => assert false; Failure(AttributeError(NoToList))
  }

  /**
   * As written, `_jaccard` never produces a table: wherever the intended table exists
   * (every mode with two phenotype columns, or no Category at all) the code raises
   * AttributeError instead, and otherwise both raise the same IndexError.
   */
  lemma JaccardAsWrittenFails(t: PhenotypeTable, n: nat, sampler: nat -> seq<Draw>)
    requires t.WellFormed() && ValidSampler(sampler, n)
    ensures JaccardTableAsWritten(t, n, sampler).Failure?
    ensures JaccardTable(t, n, sampler).Success? <==> JaccardTableAsWritten(t, n, sampler) == Failure(AttributeError(NoToList))
    ensures JaccardTable(t, n, sampler).Failure? ==> JaccardTableAsWritten(t, n, sampler) == JaccardTable(t, n, sampler)
  {
    if !(|Categories(t)| > 0 && |t.phenotypes| < 2) {
      assert ToList(ApplyBootstrap(t, n, sampler)) == Failure(AttributeError(NoToList));
    }
  }

  /** The bootstrap call of one Category group. */
  method CategoryBootstrap(t: PhenotypeTable, g: string, n: nat, sampler: nat -> seq<Draw>) returns (o: Outcome)
    requires t.WellFormed() && |t.phenotypes| >= 2 && ValidSampler(sampler, n)
    ensures o == CategoryOutcome(t, g, n, sampler)
  {
    var x := CategoryColumn(t, g, 0);
    var y := CategoryColumn(t, g, 1);
    VecChecks(x, y);
    BootstrapErrors(Vec(x), Vec(y), None, None, n, sampler(|x|));
    var r := Bootstrap(Vec(x), Vec(y), None, None, n, sampler(|x|));
    o := r.value;
  }

  // ---------------------------------------------------------------------------
  // The pipeline object.

  /** The frames read from the data folder, each binarised (`_post_process` of every file). */
  function Binarised(files: seq<Counts>, thresh: real): (r: seq<Presence>)
    requires forall i :: 0 <= i < |files| ==> files[i].WellFormed()
    ensures |r| == |files| && AllWellFormed(r)
    ensures forall i :: 0 <= i < |files| ==> r[i] == PostProcess(files[i], thresh)
  {
    seq(|files|, i requires 0 <= i < |files| => PostProcess(files[i], thresh))
  }

  /** The A-lipids of every mode (`self.a_lipids`), once every bucket has a frame. */
  function ALipids(data: map<string, seq<Presence>>): (r: map<string, PhenotypeTable>)
    requires Filled(data)
    ensures r.Keys == data.Keys
    ensures forall m :: m in data ==> ALipidsOfMode(data[m]) == Success(r[m])
  {
    map m | m in data :: ALipidsOfMode(data[m]).value
  }

  /** Every bucket holds at least one frame, and every frame is well formed. */
  predicate Filled(data: map<string, seq<Presence>>)
  {
    forall m :: m in data ==> |data[m]| > 0 && AllWellFormed(data[m])
  }

  /** Every bucket of a successful split holds at least one well-formed frame. */
  lemma SplitBucketsFilled(frames: seq<Presence>, data: map<string, seq<Presence>>)
    requires AllWellFormed(frames) && SplitData(GetModes(frames), frames) == Success(data)
    ensures Filled(data)
  {
    SplitDataNonEmpty(frames);
    forall m | m in data ensures AllWellFormed(data[m]) {
      assert m in GetModes(frames);
      forall k | 0 <= k < |data[m]| ensures data[m][k].WellFormed() {
        BucketMember(frames, data, m, data[m][k]);
      }
    }
  }

  lemma BucketMember(frames: seq<Presence>, data: map<string, seq<Presence>>, m: string, f: Presence)
    requires AllWellFormed(frames) && SplitData(GetModes(frames), frames) == Success(data)
    requires m in data && f in data[m]
    ensures f.WellFormed()
  {
    SplitMember(GetModes(frames), frames, data, m, f);
    var i :| 0 <= i < |frames| && frames[i] == f;
  }

  /** A frame of a bucket is one of the split frames. */
  lemma SplitMember(modes: set<string>, frames: seq<Presence>, data: map<string, seq<Presence>>, m: string, f: Presence)
    requires SplitData(modes, frames) == Success(data)
    requires m in data && f in data[m]
    ensures f in frames
  {
    assert data == map m' | m' in modes :: Bucket(frames, m');
    BucketSpec(frames, m);
  }

  class Pipeline {
    /** The fraction of zero samples above which a phenotype counts as absent. */
    const thresh: real
    /** The number of bootstrap replicates. */
    const n: nat
    /** The binarised frames the pipeline was built from. */
    ghost const frames: seq<Presence>
    /** The frames of each mode (`self.data`). */
    var data: map<string, seq<Presence>>
    /** The A-lipids of each mode (`self.a_lipids`), empty until computed. */
    var aLipids: map<string, PhenotypeTable>

    /** The frames are the binarised files and `data` is their split by mode. */
    ghost predicate Valid()
      reads this
    {
      && AllWellFormed(frames) && SplitData(GetModes(frames), frames) == Success(data)
      && Filled(data)
    }

    constructor Init(thresh: real, n: nat, ghost frames: seq<Presence>, data: map<string, seq<Presence>>)
      ensures this.thresh == thresh && this.n == n && this.frames == frames
      ensures this.data == data && aLipids == map[]
    {
      this.thresh := thresh;
      this.n := n;
      this.frames := frames;
      this.data := data;
      aLipids := map[];
    }

    /**
     * `Pipeline(folder, output, thresh, n)` given the count tables of the
     * folder's files: no file is a runtime error, a frame with two modes makes
     * the split fail.
     */
    static method Create(files: seq<Counts>, thresh: real, n: nat) returns (r: Result<Pipeline, Exception>)
      requires forall i :: 0 <= i < |files| ==> files[i].WellFormed()
      ensures |files| == 0 ==> r == Failure(RuntimeError(NoData))
      ensures |files| > 0 ==>
        (r.Failure? <==> SplitData(GetModes(Binarised(files, thresh)), Binarised(files, thresh)).Failure?)
      ensures |files| > 0 && r.Failure? ==> r.error == ValueError(AmbiguousTruth)
      ensures r.Success? ==>
        && fresh(r.value) && r.value.Valid()
        && r.value.frames == Binarised(files, thresh) && r.value.thresh == thresh && r.value.n == n
        && r.value.aLipids == map[]
    {
      var frames := Binarised(files, thresh);
      if |frames| == 0 {
        return Failure(RuntimeError(NoData));
      }
      var split := SplitData(GetModes(frames), frames);
      if split.Failure? {
        return Failure(split.error);
      }
      SplitBucketsFilled(frames, split.value);
      var p := new Pipeline.Init(thresh, n, frames, split.value);
      return Success(p);
    }

    /** `_get_a_lipids()`: the A-lipids of every mode; the split frames stay as they are. */
    method GetALipids()
      requires Valid()
      modifies this
      ensures Valid() && data == old(data)
      ensures aLipids == ALipids(data)
    {
      aLipids := ALipids(data);
    }

    /** `_jaccard(tables)`: the Jaccard table of every mode, the modes taken in any order. */
    method Jaccard(tables: map<string, PhenotypeTable>, sampler: nat -> seq<Draw>)
      returns (r: Result<map<string, seq<CategoryScore>>, Exception>)
      requires forall m :: m in tables ==> tables[m].WellFormed()
      requires ValidSampler(sampler, n)
      ensures r == JaccardAll(tables, n, sampler)
    {
      var remaining := tables.Keys;
      var done: map<string, seq<CategoryScore>> := map[];
      while remaining != {}
        invariant remaining <= tables.Keys
        invariant done.Keys == tables.Keys - remaining
        invariant forall m :: m in done ==> JaccardTable(tables[m], n, sampler) == Success(done[m])
        decreases |remaining|
      {
        var m :| m in remaining;
        var t := JaccardOfMode(tables[m], n, sampler);
        if t.Failure? {
          JaccardAllFails(tables, n, sampler, m);
          return Failure(t.error);
        }
        done := done[m := t.value];
        remaining := remaining - {m};
      }
      JaccardAllSucceeds(tables, n, sampler, done);
      return Success(done);
    }

    /** `run()`: the A-lipids, then their Jaccard tables. */
    method Run(sampler: nat -> seq<Draw>) returns (r: Result<map<string, seq<CategoryScore>>, Exception>)
      requires Valid() && ValidSampler(sampler, n)
      modifies this
      ensures Valid() && data == old(data) && aLipids == ALipids(data)
      ensures forall m :: m in aLipids ==> aLipids[m].WellFormed()
      ensures r == JaccardAll(aLipids, n, sampler)
    {
      GetALipids();
      r := Jaccard(aLipids, sampler);
    }
  }
}
