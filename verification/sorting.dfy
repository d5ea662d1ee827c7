/** The stable sort `Array.prototype.sort` performs on the filtered list,
    written as an insertion sort over sequences. */
module Sorting {
  import opened Types
  import opened Ordering
  import opened Seqs

  /** Places `x`, which came before every element of `ys` in the input,
      in front of the first element that does not strictly precede it. */
  function Insert(o: SortOption, x: Model, ys: seq<Model>): (r: seq<Model>)
    ensures |r| == |ys| + 1
    ensures multiset(r) == multiset(ys) + multiset{x}
  {
    if |ys| == 0 then [x]
    else if Before(o, ys[0], x) then
      assert ys == [ys[0]] + ys[1..];
      [ys[0]] + Insert(o, x, ys[1..])
    else [x] + ys
  }

  /** Insertion sort: a new sequence holding the same records. */
  function Sort(o: SortOption, s: seq<Model>): (r: seq<Model>)
    ensures |r| == |s|
    ensures multiset(r) == multiset(s)
  {
    if |s| == 0 then []
    else
      assert s == [s[0]] + s[1..];
      Insert(o, s[0], Sort(o, s[1..]))
  }

  /** No record is followed by one that must precede it. */
  ghost predicate Sorted(o: SortOption, s: seq<Model>) {
    forall i, j :: 0 <= i < j < |s| ==> !Before(o, s[j], s[i])
  }

  /** The comparator is consistent on every record of `s`. */
  ghost predicate AllRanked(o: SortOption, s: seq<Model>) {
    forall i :: 0 <= i < |s| ==> Ranked(o, s[i])
  }

  /** The records of `s` that tie with `e`, in the order `s` has them. */
  function TiesOf(o: SortOption, s: seq<Model>, e: Model): seq<Model> {
    Filter(s, m => Tied(o, m, e))
  }

  lemma AllRankedPermutation(o: SortOption, s: seq<Model>, t: seq<Model>)
    requires AllRanked(o, s) && multiset(s) == multiset(t)
    ensures AllRanked(o, t)
  {
    forall i | 0 <= i < |t|
      ensures Ranked(o, t[i])
    {
      assert t[i] in multiset(t);
      var k :| 0 <= k < |s| && s[k] == t[i];
    }
  }

  lemma {:induction false} InsertSorted(o: SortOption, x: Model, ys: seq<Model>)
    requires Ranked(o, x) && AllRanked(o, ys) && Sorted(o, ys)
    ensures Sorted(o, Insert(o, x, ys))
    decreases |ys|
  {
    if |ys| > 0 {
      if Before(o, ys[0], x) {
        var tail := ys[1..];
        assert Sorted(o, tail) by {
          forall i, j | 0 <= i < j < |tail|
            ensures !Before(o, tail[j], tail[i])
          {
            assert tail[j] == ys[j + 1] && tail[i] == ys[i + 1];
          }
        }
        InsertSorted(o, x, tail);
        InsertAfterHead(o, x, ys);
      } else {
        forall k | 0 <= k < |ys|
          ensures !Before(o, ys[k], x)
        {
          if k > 0 {
            NotBeforeTransitive(o, x, ys[0], ys[k]);
          }
        }
        assert Insert(o, x, ys) == [x] + ys;
      }
    }
  }

  /** No element of `s` must precede `b`. */
  ghost predicate NoneBefore(o: SortOption, s: seq<Model>, b: Model) {
    forall k :: 0 <= k < |s| ==> !Before(o, s[k], b)
  }

  lemma {:induction false} InsertNoneBefore(o: SortOption, x: Model, ys: seq<Model>, b: Model)
    requires NoneBefore(o, ys, b) && !Before(o, x, b)
    ensures NoneBefore(o, Insert(o, x, ys), b)
    decreases |ys|
  {
    if |ys| > 0 && Before(o, ys[0], x) {
      InsertNoneBefore(o, x, ys[1..], b);
    }
  }

  /** When the head of `ys` precedes `x`, the head stays in front of the
      sorted insertion into the tail. */
  lemma InsertAfterHead(o: SortOption, x: Model, ys: seq<Model>)
    requires |ys| > 0 && Before(o, ys[0], x) && Sorted(o, ys)
    requires Sorted(o, Insert(o, x, ys[1..]))
    ensures Sorted(o, Insert(o, x, ys))
  {
    var rest := Insert(o, x, ys[1..]);
    BeforeAsymmetric(o, ys[0], x);
    assert NoneBefore(o, ys[1..], ys[0]) by {
      forall k | 0 <= k < |ys[1..]|
        ensures !Before(o, ys[1..][k], ys[0])
      {
        assert ys[1..][k] == ys[k + 1];
      }
    }
    InsertNoneBefore(o, x, ys[1..], ys[0]);
    ConsSorted(o, ys[0], rest);
    assert Insert(o, x, ys) == [ys[0]] + rest;
  }

  lemma ConsSorted(o: SortOption, h: Model, rest: seq<Model>)
    requires Sorted(o, rest) && NoneBefore(o, rest, h)
    ensures Sorted(o, [h] + rest)
  {
    var r := [h] + rest;
    forall i, j | 0 <= i < j < |r|
      ensures !Before(o, r[j], r[i])
    {
      assert r[j] == rest[j - 1];
      if i > 0 {
        assert r[i] == rest[i - 1];
      }
    }
  }

  /** Sorting puts every record after all records that must precede it,
      provided the comparator is consistent on the input. */
  lemma {:induction false} SortSorted(o: SortOption, s: seq<Model>)
    requires AllRanked(o, s)
    ensures Sorted(o, Sort(o, s))
  {
    if |s| > 0 {
      SortSorted(o, s[1..]);
      AllRankedPermutation(o, s[1..], Sort(o, s[1..]));
      InsertSorted(o, s[0], Sort(o, s[1..]));
    }
  }

  lemma {:induction false} InsertTies(o: SortOption, x: Model, ys: seq<Model>, e: Model)
    requires Ranked(o, x) && AllRanked(o, ys) && Ranked(o, e)
    ensures Tied(o, x, e) ==> TiesOf(o, Insert(o, x, ys), e) == [x] + TiesOf(o, ys, e)
    ensures !Tied(o, x, e) ==> TiesOf(o, Insert(o, x, ys), e) == TiesOf(o, ys, e)
    decreases |ys|
  {
    if |ys| > 0 && Before(o, ys[0], x) {
      InsertTies(o, x, ys[1..], e);
      if Tied(o, x, e) {
        // ys[0] strictly precedes x, which ties with e: it cannot tie with e.
        if Tied(o, ys[0], e) {
          NotBeforeTransitive(o, x, e, ys[0]);
        }
      }
      assert Insert(o, x, ys)[1..] == Insert(o, x, ys[1..]);
    }
  }

  /** Stability: for every ranked record `e`, the records that tie with `e`
      come out in the order they went in. */
  lemma {:induction false} SortStable(o: SortOption, s: seq<Model>, e: Model)
    requires AllRanked(o, s) && Ranked(o, e)
    ensures TiesOf(o, Sort(o, s), e) == TiesOf(o, s, e)
  {
    if |s| > 0 {
      SortStable(o, s[1..], e);
      AllRankedPermutation(o, s[1..], Sort(o, s[1..]));
      InsertTies(o, s[0], Sort(o, s[1..]), e);
    }
  }

  /** An already sorted sequence is left as it is. */
  lemma {:induction false} SortOfSorted(o: SortOption, s: seq<Model>)
    requires Sorted(o, s)
    ensures Sort(o, s) == s
  {
    if |s| > 0 {
      var t := s[1..];
      forall i, j | 0 <= i < j < |t|
        ensures !Before(o, t[j], t[i])
      {
        assert t[j] == s[j + 1] && t[i] == s[i + 1];
      }
      SortOfSorted(o, t);
      if |t| > 0 {
        assert t[0] == s[1];
        assert !Before(o, t[0], s[0]);
      }
      assert s == [s[0]] + t;
    }
  }

  /** Re-applying the same sort changes nothing. */
  lemma SortIdempotent(o: SortOption, s: seq<Model>)
    requires AllRanked(o, s)
    ensures Sort(o, Sort(o, s)) == Sort(o, s)
  {
    SortSorted(o, s);
    SortOfSorted(o, Sort(o, s));
  }
}
