/** Operations on sequences shared by the table code: boolean masks, selection, first-occurrence de-duplication. */
module Sequences {

  /** The number of `true` entries (`sum()` of a boolean vector or mask). */
  function CountTrue(v: seq<bool>): nat
  {
    if |v| == 0 then 0 else (if v[0] then 1 else 0) + CountTrue(v[1..])
  }

  lemma {:induction false} CountTrueBounds(v: seq<bool>)
    ensures CountTrue(v) <= |v|
    ensures CountTrue(v) == 0 <==> forall i :: 0 <= i < |v| ==> !v[i]
    ensures CountTrue(v) == |v| <==> forall i :: 0 <= i < |v| ==> v[i]
  {
    if |v| > 0 {
      CountTrueBounds(v[1..]);
      assert forall i :: 1 <= i < |v| ==> v[i] == v[1..][i - 1];
    }
  }

  /** The entries of `s` whose mask entry is `true`, in their original order (`s.loc[mask]`). */
  function Select<T>(s: seq<T>, keep: seq<bool>): seq<T>
    requires |keep| == |s|
  {
    if |s| == 0 then [] else (if keep[0] then [s[0]] else []) + Select(s[1..], keep[1..])
  }

  /** The position that the `i`-th entry takes in `Select(s, keep)`, if it is kept. */
  function Rank(keep: seq<bool>, i: nat): nat
    requires i <= |keep|
  {
    CountTrue(keep[..i])
  }

  lemma {:induction false} SelectLength<T>(s: seq<T>, keep: seq<bool>)
    requires |keep| == |s|
    ensures |Select(s, keep)| == CountTrue(keep)
  {
    if |s| > 0 {
      SelectLength(s[1..], keep[1..]);
    }
  }

  lemma {:induction false} RankStep(keep: seq<bool>, i: nat)
    requires 0 < i <= |keep|
    ensures Rank(keep, i) == (if keep[0] then 1 else 0) + Rank(keep[1..], i - 1)
  {
    assert keep[..i][1..] == keep[1..][..i - 1];
  }

  /** A kept entry sits at position `Rank(keep, i)` of the selection. */
  lemma {:induction false} SelectAt<T>(s: seq<T>, keep: seq<bool>, i: nat)
    requires |keep| == |s| && i < |s| && keep[i]
    ensures Rank(keep, i) < |Select(s, keep)| && Select(s, keep)[Rank(keep, i)] == s[i]
  {
    if i == 0 {
      assert keep[..0] == [];
    } else {
      RankStep(keep, i);
      SelectAt(s[1..], keep[1..], i - 1);
    }
  }

  /** Every entry of the selection is a kept entry of `s`. */
  lemma {:induction false} SelectFrom<T>(s: seq<T>, keep: seq<bool>, k: nat)
    requires |keep| == |s| && k < |Select(s, keep)|
    ensures exists i :: 0 <= i < |s| && keep[i] && Rank(keep, i) == k && s[i] == Select(s, keep)[k]
  {
    if keep[0] && k == 0 {
      assert keep[..0] == [];
      assert Rank(keep, 0) == 0;
    } else {
      var k' := if keep[0] then k - 1 else k;
      SelectFrom(s[1..], keep[1..], k');
      var i :| 0 <= i < |s[1..]| && keep[1..][i] && Rank(keep[1..], i) == k' && s[1..][i] == Select(s[1..], keep[1..])[k'];
      RankStep(keep, i + 1);
    }
  }

  /** Selecting two parallel sequences with one mask keeps their entries paired. */
  lemma {:induction false} SelectZip<S, T>(s: seq<S>, t: seq<T>, keep: seq<bool>, k: nat)
    requires |s| == |t| == |keep| && k < CountTrue(keep)
    ensures |Select(s, keep)| == |Select(t, keep)| == CountTrue(keep)
    ensures exists i :: 0 <= i < |s| && keep[i] && Select(s, keep)[k] == s[i] && Select(t, keep)[k] == t[i]
  {
    SelectLength(s, keep);
    SelectLength(t, keep);
    if !(keep[0] && k == 0) {
      var k' := if keep[0] then k - 1 else k;
      SelectZip(s[1..], t[1..], keep[1..], k');
      var i :| 0 <= i < |s[1..]| && keep[1..][i] && Select(s[1..], keep[1..])[k'] == s[1..][i]
        && Select(t[1..], keep[1..])[k'] == t[1..][i];
      assert keep[i + 1] && Select(s, keep)[k] == s[i + 1] && Select(t, keep)[k] == t[i + 1];
    }
  }

  /** An all-true mask keeps everything. */
  lemma {:induction false} SelectAll<T>(s: seq<T>, keep: seq<bool>)
    requires |keep| == |s| && forall i :: 0 <= i < |keep| ==> keep[i]
    ensures Select(s, keep) == s
  {
    if |s| > 0 {
      assert forall i :: 0 <= i < |keep[1..]| ==> keep[1..][i] == keep[i + 1];
      SelectAll(s[1..], keep[1..]);
      assert s == [s[0]] + s[1..];
    }
  }

  lemma SelectMembership<T>(s: seq<T>, keep: seq<bool>)
    requires |keep| == |s|
    ensures forall x :: x in Select(s, keep) <==> exists i :: 0 <= i < |s| && keep[i] && s[i] == x
  {
    forall x | x in Select(s, keep) ensures exists i :: 0 <= i < |s| && keep[i] && s[i] == x {
      var k :| 0 <= k < |Select(s, keep)| && Select(s, keep)[k] == x;
      SelectFrom(s, keep, k);
    }
    forall i | 0 <= i < |s| && keep[i] ensures s[i] in Select(s, keep) {
      SelectAt(s, keep, i);
    }
  }

  /** `a` is obtained from `b` by deleting entries; the order of the rest is unchanged. */
  ghost predicate IsSubsequence<T>(a: seq<T>, b: seq<T>)
  {
    if |a| == 0 then true
    else if |b| == 0 then false
    else if a[0] == b[0] then IsSubsequence(a[1..], b[1..])
    else IsSubsequence(a, b[1..])
  }

  lemma {:induction false} SelectIsSubsequence<T>(s: seq<T>, keep: seq<bool>)
    requires |keep| == |s|
    ensures IsSubsequence(Select(s, keep), s)
  {
    if |s| > 0 {
      var rest := Select(s[1..], keep[1..]);
      SelectIsSubsequence(s[1..], keep[1..]);
      if keep[0] {
        assert Select(s, keep) == [s[0]] + rest;
        assert ([s[0]] + rest)[1..] == rest;
      } else {
        assert Select(s, keep) == rest;
        SubsequenceOfTail(rest, s);
      }
    }
  }

  lemma {:induction false} SubsequenceOfTail<T>(a: seq<T>, b: seq<T>)
    requires |b| > 0 && IsSubsequence(a, b[1..])
    ensures IsSubsequence(a, b)
  {
    if |a| > 0 && a[0] == b[0] {
      SubsequenceDropHead(a, b[1..]);
    }
  }

  lemma {:induction false} SubsequenceDropHead<T>(a: seq<T>, b: seq<T>)
    requires |a| > 0 && IsSubsequence(a, b)
    ensures IsSubsequence(a[1..], b)
  {
    if a[0] == b[0] {
      SubsequenceOfTail(a[1..], b);
    } else {
      SubsequenceDropHead(a, b[1..]);
      SubsequenceOfTail(a[1..], b);
    }
  }

  lemma {:induction false} SubsequenceTransitive<T>(a: seq<T>, b: seq<T>, c: seq<T>)
    requires IsSubsequence(a, b) && IsSubsequence(b, c)
    ensures IsSubsequence(a, c)
    decreases |a| + |b| + |c|
  {
    if |a| > 0 {
      if b[0] == c[0] {
        if a[0] == b[0] {
          SubsequenceTransitive(a[1..], b[1..], c[1..]);
        } else {
          SubsequenceTransitive(a, b[1..], c[1..]);
          SubsequenceOfTail(a, c);
        }
      } else {
        SubsequenceTransitive(a, b, c[1..]);
        SubsequenceOfTail(a, c);
      }
    }
  }

  ghost predicate Distinct<T>(s: seq<T>)
  {
    forall i, j :: 0 <= i < j < |s| ==> s[i] != s[j]
  }

  /** The distinct entries of `s` in order of first occurrence (pandas' `unique()`). */
  function Dedup<T(==)>(s: seq<T>): seq<T>
  {
    if |s| == 0 then []
    else
      var d := Dedup(s[..|s| - 1]);
      if s[|s| - 1] in d then d else d + [s[|s| - 1]]
  }

  lemma {:induction false} DedupSpec<T>(s: seq<T>)
    ensures Distinct(Dedup(s))
    ensures forall v :: v in Dedup(s) <==> v in s
  {
    if |s| > 0 {
      DedupSpec(s[..|s| - 1]);
      assert s == s[..|s| - 1] + [s[|s| - 1]];
    }
  }

  /** A non-empty sequence whose entries all equal `x` has the single distinct entry `x`. */
  lemma {:induction false} DedupConstant<T>(s: seq<T>, x: T)
    requires |s| > 0 && forall j :: 0 <= j < |s| ==> s[j] == x
    ensures Dedup(s) == [x]
  {
    if |s| > 1 {
      DedupConstant(s[..|s| - 1], x);
    }
  }

  /** The first position of `x` in `s`. */
  function IndexOf<T(==)>(s: seq<T>, x: T): (i: nat)
    requires x in s
    ensures i < |s| && s[i] == x && x !in s[..i]
  {
    if s[0] == x then 0 else assert s[1..][..IndexOf(s[1..], x)] == s[1..IndexOf(s[1..], x) + 1]; 1 + IndexOf(s[1..], x)
  }
}
