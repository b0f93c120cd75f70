/**
 * Orders on labels, as Python compares them: strings by code point, lexicographically,
 * a proper prefix first; tuples lexicographically by their elements. `SortedDistinct`
 * is what `sorted` followed by `itertools.groupby` (and pandas' sorted group keys) yields.
 */
module Ordering {

  /** `lt` is a strict total order on T. */
  ghost predicate StrictTotalOrder<T(!new)>(lt: (T, T) -> bool) {
    && (forall a :: !lt(a, a))
    && (forall a, b, c :: lt(a, b) && lt(b, c) ==> lt(a, c))
    && (forall a, b :: a != b ==> lt(a, b) || lt(b, a))
  }

  /** Lexicographic order on sequences induced by an order on their elements. */
  function LexLt<T(==)>(a: seq<T>, b: seq<T>, lt: (T, T) -> bool): bool
  {
    if |a| == 0 then |b| > 0
    else if |b| == 0 then false
    else if a[0] == b[0] then LexLt(a[1..], b[1..], lt)
    else lt(a[0], b[0])
  }

  function CharLt(a: char, b: char): bool { a < b }

  /** Python's `<` on `str`. */
  function StringLt(a: string, b: string): bool { LexLt(a, b, CharLt) }

  /** Python's `<` on tuples of `str` (the keys of a multi-level group). */
  function KeyLt(a: seq<string>, b: seq<string>): bool { LexLt(a, b, StringLt) }

  lemma {:induction false} LexIrreflexive<T(!new)>(a: seq<T>, lt: (T, T) -> bool)
    requires StrictTotalOrder(lt)
    ensures !LexLt(a, a, lt)
  {
    if |a| > 0 {
      LexIrreflexive(a[1..], lt);
    }
  }

  lemma {:induction false} LexTransitive<T(!new)>(a: seq<T>, b: seq<T>, c: seq<T>, lt: (T, T) -> bool)
    requires StrictTotalOrder(lt)
    requires LexLt(a, b, lt) && LexLt(b, c, lt)
    ensures LexLt(a, c, lt)
  {
    if |a| > 0 && |b| > 0 && |c| > 0 && a[0] == b[0] && b[0] == c[0] {
      LexTransitive(a[1..], b[1..], c[1..], lt);
    }
  }

  lemma {:induction false} LexTotal<T(!new)>(a: seq<T>, b: seq<T>, lt: (T, T) -> bool)
    requires StrictTotalOrder(lt)
    requires a != b
    ensures LexLt(a, b, lt) || LexLt(b, a, lt)
  {
    if |a| > 0 && |b| > 0 && a[0] == b[0] {
      assert a == [a[0]] + a[1..] && b == [b[0]] + b[1..];
      LexTotal(a[1..], b[1..], lt);
    }
  }

  /** The lexicographic order induced by a strict total order is a strict total order. */
  lemma LexStrictTotal<T(!new)>(lt: (T, T) -> bool, lex: (seq<T>, seq<T>) -> bool)
    requires StrictTotalOrder(lt)
    requires forall a, b :: lex(a, b) == LexLt(a, b, lt)
    ensures StrictTotalOrder(lex)
  {
    forall a: seq<T> ensures !lex(a, a) {
      LexIrreflexive(a, lt);
    }
    forall a: seq<T>, b: seq<T>, c: seq<T> | lex(a, b) && lex(b, c) ensures lex(a, c) {
      LexTransitive(a, b, c, lt);
    }
    forall a: seq<T>, b: seq<T> | a != b ensures lex(a, b) || lex(b, a) {
      LexTotal(a, b, lt);
    }
  }

  lemma StringLtIsStrictTotal()
    ensures StrictTotalOrder(StringLt)
  {
    LexStrictTotal(CharLt, StringLt);
  }

  lemma KeyLtIsStrictTotal()
    ensures StrictTotalOrder(KeyLt)
  {
    StringLtIsStrictTotal();
    LexStrictTotal(StringLt, KeyLt);
  }

  ghost predicate StrictlyIncreasing<T>(s: seq<T>, lt: (T, T) -> bool) {
    forall i, j :: 0 <= i < j < |s| ==> lt(s[i], s[j])
  }

  /** Inserts `x` into a strictly increasing sequence, unless it is already there. */
  function Insert<T(==)>(x: T, s: seq<T>, lt: (T, T) -> bool): seq<T>
  {
    if |s| == 0 then [x]
    else if x == s[0] then s
    else if lt(x, s[0]) then [x] + s
    else [s[0]] + Insert(x, s[1..], lt)
  }

  /** The distinct elements of `s` in increasing order. */
  function SortedDistinct<T(==)>(s: seq<T>, lt: (T, T) -> bool): seq<T>
  {
    if |s| == 0 then [] else Insert(s[|s| - 1], SortedDistinct(s[..|s| - 1], lt), lt)
  }

  lemma {:induction false} InsertSpec<T(!new)>(x: T, s: seq<T>, lt: (T, T) -> bool)
    requires StrictTotalOrder(lt) && StrictlyIncreasing(s, lt)
    ensures StrictlyIncreasing(Insert(x, s, lt), lt)
    ensures forall v :: v in Insert(x, s, lt) <==> v == x || v in s
  {
    if |s| > 0 && x != s[0] {
      if lt(x, s[0]) {
        var r := [x] + s;
        forall i, j | 0 <= i < j < |r| ensures lt(r[i], r[j]) {
          if i > 0 {
            assert r[i] == s[i - 1] && r[j] == s[j - 1];
          } else if j > 1 {
            assert lt(s[0], s[j - 1]);
          }
        }
      } else {
        InsertSpec(x, s[1..], lt);
        var rest := Insert(x, s[1..], lt);
        var r := [s[0]] + rest;
        assert lt(s[0], x);
        forall k | 0 <= k < |rest| ensures lt(s[0], rest[k]) {
          assert rest[k] in rest;
          if rest[k] != x {
            var m :| 0 <= m < |s[1..]| && s[1..][m] == rest[k];
            assert s[m + 1] == rest[k];
          }
        }
        forall i, j | 0 <= i < j < |r| ensures lt(r[i], r[j]) {
          if i == 0 {
            assert r[j] == rest[j - 1];
          } else {
            assert r[i] == rest[i - 1] && r[j] == rest[j - 1];
          }
        }
        assert s == [s[0]] + s[1..];
      }
    }
  }

  lemma {:induction false} SortedDistinctSpec<T(!new)>(s: seq<T>, lt: (T, T) -> bool)
    requires StrictTotalOrder(lt)
    ensures StrictlyIncreasing(SortedDistinct(s, lt), lt)
    ensures forall v :: v in SortedDistinct(s, lt) <==> v in s
  {
    if |s| > 0 {
      var init := s[..|s| - 1];
      SortedDistinctSpec(init, lt);
      InsertSpec(s[|s| - 1], SortedDistinct(init, lt), lt);
      assert s == init + [s[|s| - 1]];
    }
  }

  /** A strictly increasing sequence is determined by its set of elements. */
  lemma {:induction false} StrictlyIncreasingUnique<T(!new)>(a: seq<T>, b: seq<T>, lt: (T, T) -> bool)
    requires StrictTotalOrder(lt) && StrictlyIncreasing(a, lt) && StrictlyIncreasing(b, lt)
    requires forall v :: v in a <==> v in b
    ensures a == b
  {
    if |a| > 0 {
      assert a[0] in a;
    }
    if |b| > 0 {
      assert b[0] in b;
    }
    if |a| > 0 && |b| > 0 {
      assert a[0] in b;
      assert b[0] in a;
      var i :| 0 <= i < |b| && b[i] == a[0];
      var j :| 0 <= j < |a| && a[j] == b[0];
      var a0, b0 := a[0], b[0];
      assert i == 0 || j == 0 || (lt(b0, a0) && lt(a0, b0));
      assert a[0] == b[0];
      forall v ensures v in a[1..] <==> v in b[1..] {
        if v in a[1..] {
          var k :| 0 <= k < |a[1..]| && a[1..][k] == v;
          assert lt(a[0], a[k + 1]);
          assert v in b;
          assert v != b[0];
          assert b == [b[0]] + b[1..];
        }
        if v in b[1..] {
          var k :| 0 <= k < |b[1..]| && b[1..][k] == v;
          assert lt(b[0], b[k + 1]);
          assert v in a;
          assert v != a[0];
          assert a == [a[0]] + a[1..];
        }
      }
      StrictlyIncreasingUnique(a[1..], b[1..], lt);
      assert a == [a[0]] + a[1..] && b == [b[0]] + b[1..];
    }
  }

  /** `SortedDistinct` is the one strictly increasing sequence holding exactly the elements of `s`. */
  lemma SortedDistinctCharacterized<T(!new)>(s: seq<T>, r: seq<T>, lt: (T, T) -> bool)
    requires StrictTotalOrder(lt) && StrictlyIncreasing(r, lt)
    requires forall v :: v in r <==> v in s
    ensures SortedDistinct(s, lt) == r
  {
    SortedDistinctSpec(s, lt);
    StrictlyIncreasingUnique(SortedDistinct(s, lt), r, lt);
  }
}
