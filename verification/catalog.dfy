/** The catalog view's derived lists: the filtered and sorted grid, and the
    records handed to the comparison view. */
module Catalog {
  import opened Options
  import opened Types
  import opened Text
  import opened Seqs
  import opened Ordering
  import opened Sorting

  /** The sidebar's filter and sort controls. */
  datatype Criteria = Criteria(searchTerm: string, minContext: int, freeOnly: bool, sortOption: SortOption)

  /** Case-insensitive substring search on name or id: the lower-cased term
      occurs at some position of the lower-cased name or id. */
  function MatchesSearch(term: string, m: Model): (b: bool)
    ensures b <==> (exists i: nat :: OccursAt(Lower(m.name), Lower(term), i)) ||
                   (exists i: nat :: OccursAt(Lower(m.id), Lower(term), i))
  {
    var t := Lower(term);
    ContainsIffOccurs(Lower(m.name), t);
    ContainsIffOccurs(Lower(m.id), t);
    Contains(Lower(m.name), t) || Contains(Lower(m.id), t)
  }

  /** Typing the term in upper or lower case selects the same records. */
  lemma MatchesSearchIgnoresCase(t1: string, t2: string, m: Model)
    requires Lower(t1) == Lower(t2)
    ensures MatchesSearch(t1, m) == MatchesSearch(t2, m)
    ensures MatchesSearch(Lower(t1), m) == MatchesSearch(t1, m)
  {
    LowerIdempotent(t1);
  }

  /** Both unit prices parse and are exactly zero; such a record's price
      sort key is zero. */
  function HasZeroPrices(m: Model): (b: bool)
    ensures b ==> TotalPrice(m) == Some(0.0)
  {
    ParseFloat(m.pricing.prompt) == Some(0.0) && ParseFloat(m.pricing.completion) == Some(0.0)
  }

  /** A record priced "0" / "0" is kept by the "free only" filter. */
  lemma ZeroPricedIsFree(m: Model)
    requires m.pricing.prompt == "0" && m.pricing.completion == "0"
    ensures HasZeroPrices(m)
  {
    ParseFloatZero();
  }

  /** The three filter steps as the view runs them: each one only when its
      control is active (a non-empty term, a positive minimum, the
      checkbox), each keeping the survivors of the previous one. */
  function ApplyFilters(models: seq<Model>, c: Criteria): (r: seq<Model>)
    ensures |r| <= |models|
    ensures forall i :: 0 <= i < |r| ==> r[i] in models && Passes(c, r[i])
    ensures forall i :: 0 <= i < |models| && Passes(c, models[i]) ==> models[i] in r
  {
    FreeStep(ContextStep(SearchStep(models, c), c), c)
  }

  /** A record is shown when it passes every active test: with no control
      active every record is shown, and "free only" shows only records
      whose price sort key is zero. */
  function Passes(c: Criteria, m: Model): (b: bool)
    ensures c.searchTerm == "" && c.minContext <= 0 && !c.freeOnly ==> b
    ensures b && c.freeOnly ==> TotalPrice(m) == Some(0.0)
  {
    && (c.searchTerm != "" ==> MatchesSearch(c.searchTerm, m))
    && (c.minContext > 0 ==> m.contextLength >= c.minContext)
    && (c.freeOnly ==> HasZeroPrices(m))
  }

  function SearchStep(models: seq<Model>, c: Criteria): seq<Model> {
    if c.searchTerm != "" then Filter(models, (m: Model) => MatchesSearch(c.searchTerm, m)) else models
  }

  function ContextStep(models: seq<Model>, c: Criteria): seq<Model> {
    if c.minContext > 0 then Filter(models, (m: Model) => m.contextLength >= c.minContext) else models
  }

  function FreeStep(models: seq<Model>, c: Criteria): seq<Model> {
    if c.freeOnly then Filter(models, HasZeroPrices) else models
  }

  /** The three filter steps amount to one conjunctive filter. */
  lemma ApplyFiltersIsConjunction(models: seq<Model>, c: Criteria)
    ensures ApplyFilters(models, c) == Filter(models, (m: Model) => Passes(c, m))
  {
    var search := (m: Model) => c.searchTerm != "" ==> MatchesSearch(c.searchTerm, m);
    var context := (m: Model) => c.minContext > 0 ==> m.contextLength >= c.minContext;
    var free := (m: Model) => c.freeOnly ==> HasZeroPrices(m);
    var searchContext := (m: Model) => search(m) && context(m);
    var all := (m: Model) => Passes(c, m);
    var afterSearch := SearchStep(models, c);
    var afterContext := ContextStep(afterSearch, c);
    assert ApplyFilters(models, c) == FreeStep(afterContext, c);
    StepIsFilter(models, SearchStep(models, c), c.searchTerm != "",
                 (m: Model) => MatchesSearch(c.searchTerm, m), search);
    StepIsFilter(afterSearch, afterContext, c.minContext > 0,
                 (m: Model) => m.contextLength >= c.minContext, context);
    FilterFilter(models, search, context, searchContext);
    StepIsFilter(afterContext, FreeStep(afterContext, c), c.freeOnly, HasZeroPrices, free);
    FilterFilter(models, searchContext, free, all);
  }

  /** A step that filters by `p` only when `active` is a filter by
      "`active` implies `p`". */
  lemma StepIsFilter(s: seq<Model>, r: seq<Model>, active: bool, p: Model -> bool, q: Model -> bool)
    requires r == if active then Filter(s, p) else s
    requires forall m :: q(m) == (active ==> p(m))
    ensures r == Filter(s, q)
  {
    if active {
      FilterCongruent(s, p, q);
    } else {
      FilterAll(s, q);
    }
  }

  /** The grid's list: the catalog filtered, then sorted by the chosen
      option. The catalog itself is a value and stays as it was. */
  function FilteredModels(models: seq<Model>, c: Criteria): (r: seq<Model>)
    ensures multiset(r) == multiset(Filter(models, (m: Model) => Passes(c, m)))
  {
    ApplyFiltersIsConjunction(models, c);
    Sort(c.sortOption, ApplyFilters(models, c))
  }

  /** The grid holds exactly the catalog records that pass every active
      test. */
  lemma FilteredModelsMembers(models: seq<Model>, c: Criteria, x: Model)
    ensures x in FilteredModels(models, c) <==> x in models && Passes(c, x)
  {
    var kept := Filter(models, (m: Model) => Passes(c, m));
    assert x in FilteredModels(models, c) <==> x in multiset(kept);
    if x in models && Passes(c, x) {
      var k :| 0 <= k < |models| && models[k] == x;
    }
  }

  /** Before sorting, the kept records form an order-preserving
      subsequence of the catalog. */
  lemma FilterStepIsSubsequence(models: seq<Model>, c: Criteria)
    ensures IsSubsequence(ApplyFilters(models, c), models)
  {
    ApplyFiltersIsConjunction(models, c);
    FilterIsSubsequence(models, (m: Model) => Passes(c, m));
  }

  /** The grid is in the chosen order and ties keep catalog order, whenever
      the comparator is consistent on the kept records (always, except for
      a price option when a kept record's prices do not parse). */
  lemma FilteredModelsOrdered(models: seq<Model>, c: Criteria, e: Model)
    requires forall m :: m in models && Passes(c, m) ==> Ranked(c.sortOption, m)
    requires Ranked(c.sortOption, e)
    ensures Sorted(c.sortOption, FilteredModels(models, c))
    ensures TiesOf(c.sortOption, FilteredModels(models, c), e) ==
            TiesOf(c.sortOption, Filter(models, (m: Model) => Passes(c, m)), e)
  {
    ApplyFiltersIsConjunction(models, c);
    var kept := ApplyFilters(models, c);
    forall i | 0 <= i < |kept|
      ensures Ranked(c.sortOption, kept[i])
    {
      var k :| 0 <= k < |models| && models[k] == kept[i];
    }
    SortSorted(c.sortOption, kept);
    SortStable(c.sortOption, kept, e);
  }

  /** Sorting by context puts larger windows first. */
  lemma ContextSortDescending(s: seq<Model>)
    ensures var r := Sort(ContextHighLow, s);
      forall i, j :: 0 <= i < j < |r| ==> r[i].contextLength >= r[j].contextLength
  {
    var o := ContextHighLow;
    var r := Sort(o, s);
    SortSorted(o, s);
    forall i, j | 0 <= i < j < |r|
      ensures r[i].contextLength >= r[j].contextLength
    {
      BeforeMeaning(o, r[j], r[i]);
    }
  }

  /** Sorting by context keeps records with equal windows in the order the
      filter left them. */
  lemma ContextSortKeepsTies(s: seq<Model>, e: Model)
    ensures Filter(Sort(ContextHighLow, s), (m: Model) => m.contextLength == e.contextLength) ==
            Filter(s, (m: Model) => m.contextLength == e.contextLength)
  {
    var o := ContextHighLow;
    SortStable(o, s, e);
    var same := (m: Model) => m.contextLength == e.contextLength;
    var tied := (m: Model) => Tied(o, m, e);
    forall m | true
      ensures tied(m) == same(m)
    {
      BeforeMeaning(o, m, e);
      BeforeMeaning(o, e, m);
    }
    FilterCongruent(Sort(o, s), tied, same);
    FilterCongruent(s, tied, same);
  }

  /** With every price parsing, "price low to high" orders by the sum of
      the prompt and completion prices. */
  lemma PriceLowHighOrder(s: seq<Model>)
    requires forall i :: 0 <= i < |s| ==> TotalPrice(s[i]).Some?
    ensures var r := Sort(PriceLowHigh, s);
      forall i, j :: 0 <= i < j < |r| ==>
        TotalPrice(r[i]).Some? && TotalPrice(r[j]).Some? && TotalPrice(r[i]).value <= TotalPrice(r[j]).value
  {
    var o := PriceLowHigh;
    var r := Sort(o, s);
    SortSorted(o, s);
    AllRankedPermutation(o, s, r);
    forall i, j | 0 <= i < j < |r|
      ensures TotalPrice(r[i]).Some? && TotalPrice(r[j]).Some? && TotalPrice(r[i]).value <= TotalPrice(r[j]).value
    {
      assert Ranked(o, r[i]) && Ranked(o, r[j]);
      BeforeMeaning(o, r[j], r[i]);
    }
  }

  /** With every price parsing, "price high to low" orders by the same sum,
      largest first. */
  lemma PriceHighLowOrder(s: seq<Model>)
    requires forall i :: 0 <= i < |s| ==> TotalPrice(s[i]).Some?
    ensures var r := Sort(PriceHighLow, s);
      forall i, j :: 0 <= i < j < |r| ==>
        TotalPrice(r[i]).Some? && TotalPrice(r[j]).Some? && TotalPrice(r[i]).value >= TotalPrice(r[j]).value
  {
    var o := PriceHighLow;
    var r := Sort(o, s);
    SortSorted(o, s);
    AllRankedPermutation(o, s, r);
    forall i, j | 0 <= i < j < |r|
      ensures TotalPrice(r[i]).Some? && TotalPrice(r[j]).Some? && TotalPrice(r[i]).value >= TotalPrice(r[j]).value
    {
      assert Ranked(o, r[i]) && Ranked(o, r[j]);
      BeforeMeaning(o, r[j], r[i]);
    }
  }

  /** Sorting by name puts names in character-code order. */
  lemma NameSortOrder(s: seq<Model>)
    ensures forall i, j :: 0 <= i < j < |s| ==>
              LocaleCompare(Sort(NameAToZ, s)[i].name, Sort(NameAToZ, s)[j].name) <= 0
  {
    SortSorted(NameAToZ, s);
    var r := Sort(NameAToZ, s);
    forall i, j | 0 <= i < j < |s|
      ensures LocaleCompare(r[i].name, r[j].name) <= 0
    {
      LocaleCompareAntisymmetric(r[i].name, r[j].name);
    }
  }

  /** A minimum above every record's context window empties the grid. */
  lemma MinContextAboveAll(models: seq<Model>, c: Criteria)
    requires c.minContext > 0
    requires forall i :: 0 <= i < |models| ==> models[i].contextLength < c.minContext
    ensures FilteredModels(models, c) == []
  {
  }

  /** The records shown in the comparison view: every catalog record whose
      id is selected, in catalog order. Filters and sort play no part, and
      selected ids missing from the catalog contribute nothing. */
  function ComparisonModels(models: seq<Model>, selected: set<string>): (r: seq<Model>)
    ensures forall i :: 0 <= i < |r| ==> r[i].id in selected && r[i] in models
    ensures forall i :: 0 <= i < |models| && models[i].id in selected ==> models[i] in r
  {
    Filter(models, (m: Model) => m.id in selected)
  }

  lemma ComparisonModelsInCatalogOrder(models: seq<Model>, selected: set<string>)
    ensures IsSubsequence(ComparisonModels(models, selected), models)
  {
    FilterIsSubsequence(models, (m: Model) => m.id in selected);
  }

  /** No two catalog records share an id. */
  predicate UniqueIds(models: seq<Model>) {
    forall i, j :: 0 <= i < j < |models| ==> models[i].id != models[j].id
  }

  function Ids(models: seq<Model>): seq<string> {
    seq(|models|, i requires 0 <= i < |models| => models[i].id)
  }

  /** With unique ids there is at most one column per selected id, so the
      comparison view never shows more than five columns for a valid
      selection. */
  lemma {:induction false} ComparisonModelsBounded(models: seq<Model>, selected: set<string>)
    requires UniqueIds(models)
    ensures |ComparisonModels(models, selected)| <= |selected|
  {
    var r := ComparisonModels(models, selected);
    FilterIsSubsequence(models, (m: Model) => m.id in selected);
    SubsequenceUniqueIds(r, models);
    var ids := Ids(r);
    assert Distinct(ids);
    DistinctCard(ids);
    var idSet := set x | x in ids;
    assert idSet <= selected;
    SubsetCard(idSet, selected);
  }

  lemma SubsetCard(a: set<string>, b: set<string>)
    requires a <= b
    ensures |a| <= |b|
  {
    assert b == a + (b - a);
  }

  lemma {:induction false} SubsequenceUniqueIds(a: seq<Model>, b: seq<Model>)
    requires IsSubsequence(a, b) && UniqueIds(b)
    ensures UniqueIds(a)
    decreases |b|
  {
    if |a| > 0 {
      var tail := b[1..];
      assert UniqueIds(tail) by {
        forall i, j | 0 <= i < j < |tail| ensures tail[i].id != tail[j].id {
          assert tail[i] == b[i + 1] && tail[j] == b[j + 1];
        }
      }
      if a[0] == b[0] && IsSubsequence(a[1..], tail) {
        SubsequenceUniqueIds(a[1..], tail);
        forall k | 0 < k < |a| ensures a[k].id != a[0].id {
          SubsequenceMember(a[1..], tail, k - 1);
          var m :| 0 <= m < |tail| && tail[m] == a[k];
          assert b[m + 1] == a[k];
        }
      } else {
        SubsequenceUniqueIds(a, tail);
      }
    }
  }

  lemma {:induction false} SubsequenceMember(a: seq<Model>, b: seq<Model>, k: nat)
    requires IsSubsequence(a, b) && k < |a|
    ensures exists m :: 0 <= m < |b| && b[m] == a[k]
    decreases |b|
  {
    if a[0] == b[0] && IsSubsequence(a[1..], b[1..]) {
      if k > 0 {
        SubsequenceMember(a[1..], b[1..], k - 1);
        var m :| 0 <= m < |b[1..]| && b[1..][m] == a[1..][k - 1];
        assert b[m + 1] == a[k];
      } else {
        assert b[0] == a[0];
      }
    } else {
      SubsequenceMember(a, b[1..], k);
      var m :| 0 <= m < |b[1..]| && b[1..][m] == a[k];
      assert b[m + 1] == a[k];
    }
  }
}
