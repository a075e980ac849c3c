/**
 The cross-filter: resolving each dimension's selection (an empty selection
 means every observed value) and deriving the main view plus one view per
 charted dimension that leaves that dimension's own predicate out.
 */
module Filters {

  import opened Sales
  import opened Seqs

  /** The distinct values of each dimension, in order of first appearance:
      the options (and defaults) of the four selectors. */
  function Observed(ds: Dataset): (o: DimLists)
    ensures NoDups(o.years) && NoDups(o.countries) && NoDups(o.genders) && NoDups(o.categories)
    ensures forall i, d :: 0 <= i < |ds| ==> InDim(ds[i], o, d)
    ensures forall y :: y in o.years ==> y in YearColumn(ds)
    ensures forall d, x :: d != Year && x in Labels(o, d) ==> x in LabelColumn(ds, d)
  {
    var o := DimLists(
      Unique(YearColumn(ds)),
      Unique(LabelColumn(ds, Country)),
      Unique(LabelColumn(ds, Gender)),
      Unique(LabelColumn(ds, Category)));
    ObservedCovers(ds, o);
    o
  }

  lemma ObservedCovers(ds: Dataset, o: DimLists)
    requires forall y :: y in o.years <==> y in YearColumn(ds)
    requires forall d, x :: d != Year ==> (x in Labels(o, d) <==> x in LabelColumn(ds, d))
    ensures forall i, d :: 0 <= i < |ds| ==> InDim(ds[i], o, d)
  {
    forall i, d | 0 <= i < |ds| ensures InDim(ds[i], o, d) {
      if d == Year {
        assert YearColumn(ds)[i] == ds[i].year;
      } else {
        assert LabelColumn(ds, d)[i] == Label(ds[i], d);
      }
    }
  }

  /** A selection if the user picked anything, otherwise every observed value. */
  function Effective<T>(selected: seq<T>, observed: seq<T>): (e: seq<T>)
    ensures |selected| > 0 ==> e == selected
    ensures |selected| == 0 ==> e == observed
  {
    if |selected| > 0 then selected else observed
  }

  /** The effective list of every dimension. */
  function Resolve(sel: DimLists, observed: DimLists): (l: DimLists)
    ensures l.years == Effective(sel.years, observed.years)
    ensures forall d :: d != Year ==> Labels(l, d) == Effective(Labels(sel, d), Labels(observed, d))
  {
    DimLists(
      Effective(sel.years, observed.years),
      Effective(sel.countries, observed.countries),
      Effective(sel.genders, observed.genders),
      Effective(sel.categories, observed.categories))
  }

  /** A row passes when its value on every dimension in `dims` is listed. */
  predicate Passes(r: Row, l: DimLists, dims: set<Dim>)
  {
    forall d :: d in dims ==> InDim(r, l, d)
  }

  /** The rows of `ds` that pass the predicates of `dims`, in dataset order. */
  function Apply(ds: Dataset, l: DimLists, dims: set<Dim>): (v: Dataset)
    ensures IsSubseq(v, ds)
    ensures forall r :: r in v <==> r in ds && Passes(r, l, dims)
    decreases |ds|
  {
    if |ds| == 0 then []
    else
      var prefix := ds[..|ds| - 1];
      var last := ds[|ds| - 1];
      var kept := Apply(prefix, l, dims);
      assert ds == prefix + [last];
      SubseqExtend(kept, prefix, last);
      if Passes(last, l, dims) then
        SubseqPrefixOfAppend(kept, prefix, last);
        kept + [last]
      else
        kept
  }

  /** A row that passes keeps every one of its copies; a row that fails keeps none. */
  lemma {:induction false} ApplyKeepsMultiplicity(ds: Dataset, l: DimLists, dims: set<Dim>)
    ensures forall r :: multiset(Apply(ds, l, dims))[r] == if Passes(r, l, dims) then multiset(ds)[r] else 0
    decreases |ds|
  {
    if |ds| > 0 {
      var prefix := ds[..|ds| - 1];
      var last := ds[|ds| - 1];
      ApplyKeepsMultiplicity(prefix, l, dims);
      assert ds == prefix + [last];
    }
  }

  const AllDims: set<Dim> := {Year, Country, Gender, Category}

  /** The four views of the cross-filter (year is not charted, so it has no
      view of its own). */
  datatype Views = Views(main: Dataset, byCountry: Dataset, byGender: Dataset, byCategory: Dataset)

  /** The view a chart grouped by `d` is drawn from. */
  function ViewFor(v: Views, d: Dim): Dataset
    requires d != Year
  {
    match d
    case Country => v.byCountry
    case Gender => v.byGender
    case Category => v.byCategory
  }

  /** All four views for a dataset and the user's selections. */
  function CrossFilter(ds: Dataset, sel: DimLists): (v: Views)
    ensures var l := Resolve(sel, Observed(ds));
            forall r :: r in v.main <==>
              r in ds && r.year in l.years && r.country in l.countries
              && r.gender in l.genders && r.category in l.categories
    ensures var l := Resolve(sel, Observed(ds));
            forall r :: r in v.byCountry <==>
              r in ds && r.year in l.years && r.gender in l.genders && r.category in l.categories
    ensures var l := Resolve(sel, Observed(ds));
            forall r :: r in v.byGender <==>
              r in ds && r.year in l.years && r.country in l.countries && r.category in l.categories
    ensures var l := Resolve(sel, Observed(ds));
            forall r :: r in v.byCategory <==>
              r in ds && r.year in l.years && r.country in l.countries && r.gender in l.genders
    ensures IsSubseq(v.main, ds) && IsSubseq(v.byCountry, ds)
    ensures IsSubseq(v.byGender, ds) && IsSubseq(v.byCategory, ds)
    ensures var l := Resolve(sel, Observed(ds));
            forall r :: multiset(v.main)[r] ==
              if r.year in l.years && r.country in l.countries && r.gender in l.genders
                 && r.category in l.categories then multiset(ds)[r] else 0
    ensures var l := Resolve(sel, Observed(ds));
            forall r :: multiset(v.byCountry)[r] ==
              if r.year in l.years && r.gender in l.genders && r.category in l.categories
              then multiset(ds)[r] else 0
    ensures var l := Resolve(sel, Observed(ds));
            forall r :: multiset(v.byGender)[r] ==
              if r.year in l.years && r.country in l.countries && r.category in l.categories
              then multiset(ds)[r] else 0
    ensures var l := Resolve(sel, Observed(ds));
            forall r :: multiset(v.byCategory)[r] ==
              if r.year in l.years && r.country in l.countries && r.gender in l.genders
              then multiset(ds)[r] else 0
  {
    var l := Resolve(sel, Observed(ds));
    PredicateChains(l);
    ApplyKeepsMultiplicity(ds, l, AllDims);
    ApplyKeepsMultiplicity(ds, l, AllDims - {Country});
    ApplyKeepsMultiplicity(ds, l, AllDims - {Gender});
    ApplyKeepsMultiplicity(ds, l, AllDims - {Category});
    Views(
      Apply(ds, l, AllDims),
      Apply(ds, l, AllDims - {Country}),
      Apply(ds, l, AllDims - {Gender}),
      Apply(ds, l, AllDims - {Category}))
  }

  /** The parameterised predicate spelled out as the four hand-written chains. */
  lemma PredicateChains(l: DimLists)
    ensures forall r :: Passes(r, l, AllDims) <==>
      r.year in l.years && r.country in l.countries && r.gender in l.genders && r.category in l.categories
    ensures forall r :: Passes(r, l, AllDims - {Country}) <==>
      r.year in l.years && r.gender in l.genders && r.category in l.categories
    ensures forall r :: Passes(r, l, AllDims - {Gender}) <==>
      r.year in l.years && r.country in l.countries && r.category in l.categories
    ensures forall r :: Passes(r, l, AllDims - {Category}) <==>
      r.year in l.years && r.country in l.countries && r.gender in l.genders
  {
    forall r
      ensures Passes(r, l, AllDims) <==>
        r.year in l.years && r.country in l.countries && r.gender in l.genders && r.category in l.categories
      ensures Passes(r, l, AllDims - {Country}) <==>
        r.year in l.years && r.gender in l.genders && r.category in l.categories
      ensures Passes(r, l, AllDims - {Gender}) <==>
        r.year in l.years && r.country in l.countries && r.category in l.categories
      ensures Passes(r, l, AllDims - {Category}) <==>
        r.year in l.years && r.country in l.countries && r.gender in l.genders
    {
      PassesByDim(r, l, AllDims);
      PassesByDim(r, l, AllDims - {Country});
      PassesByDim(r, l, AllDims - {Gender});
      PassesByDim(r, l, AllDims - {Category});
    }
  }

  /** `Passes` unfolded over the four dimensions. */
  lemma PassesByDim(r: Row, l: DimLists, dims: set<Dim>)
    ensures Passes(r, l, dims) <==>
      (Year in dims ==> r.year in l.years) && (Country in dims ==> r.country in l.countries)
      && (Gender in dims ==> r.gender in l.genders) && (Category in dims ==> r.category in l.categories)
  {
    if (Year in dims ==> r.year in l.years) && (Country in dims ==> r.country in l.countries)
      && (Gender in dims ==> r.gender in l.genders) && (Category in dims ==> r.category in l.categories)
    {
      forall d | d in dims ensures InDim(r, l, d) {
        match d
        case Year =>
        case Country =>
        case Gender =>
        case Category =>
      }
    }
  }

  /** Filtering by `a` and then by `b` is filtering by both at once. */
  lemma {:induction false} ApplyCompose(ds: Dataset, l: DimLists, a: set<Dim>, b: set<Dim>)
    ensures Apply(Apply(ds, l, a), l, b) == Apply(ds, l, a + b)
    decreases |ds|
  {
    if |ds| > 0 {
      var prefix := ds[..|ds| - 1];
      var last := ds[|ds| - 1];
      ApplyCompose(prefix, l, a, b);
      var inner := Apply(prefix, l, a);
      if Passes(last, l, a) {
        var inner' := inner + [last];
        assert inner'[..|inner'| - 1] == inner;
      }
    }
  }

  /** The main view is an order-preserving subsequence of each drop-one view:
      it is that view narrowed by the one predicate the view left out. */
  lemma MainWithinDropOneViews(ds: Dataset, sel: DimLists, d: Dim)
    requires d != Year
    ensures var v := CrossFilter(ds, sel);
            var l := Resolve(sel, Observed(ds));
            v.main == Apply(ViewFor(v, d), l, {d}) && IsSubseq(v.main, ViewFor(v, d))
  {
    var l := Resolve(sel, Observed(ds));
    ApplyCompose(ds, l, AllDims - {d}, {d});
    assert AllDims - {d} + {d} == AllDims;
  }

  /** Two effective-list assignments that agree on dimension `d`. */
  predicate AgreeOn(l1: DimLists, l2: DimLists, d: Dim)
  {
    match d
    case Year => l1.years == l2.years
    case Country => l1.countries == l2.countries
    case Gender => l1.genders == l2.genders
    case Category => l1.categories == l2.categories
  }

  /** Filtering by `dims` depends only on the lists of the dimensions in `dims`. */
  lemma {:induction false} ApplyDependsOnlyOnDims(ds: Dataset, l1: DimLists, l2: DimLists, dims: set<Dim>)
    requires forall d :: d in dims ==> AgreeOn(l1, l2, d)
    ensures Apply(ds, l1, dims) == Apply(ds, l2, dims)
    decreases |ds|
  {
    if |ds| > 0 {
      ApplyDependsOnlyOnDims(ds[..|ds| - 1], l1, l2, dims);
      var last := ds[|ds| - 1];
      assert Passes(last, l1, dims) == Passes(last, l2, dims) by {
        forall d | d in dims ensures InDim(last, l1, d) == InDim(last, l2, d) {
          assert AgreeOn(l1, l2, d);
        }
      }
    }
  }

  /**
   A selection on dimension `d` never changes the view `d`'s own chart is
   drawn from: two selections that differ only on `d` give the same view.
   */
  lemma DropOneViewIgnoresOwnSelection(ds: Dataset, sel1: DimLists, sel2: DimLists, d: Dim)
    requires d != Year
    requires forall d' :: d' != d ==> AgreeOn(sel1, sel2, d')
    ensures ViewFor(CrossFilter(ds, sel1), d) == ViewFor(CrossFilter(ds, sel2), d)
  {
    var obs := Observed(ds);
    var l1 := Resolve(sel1, obs);
    var l2 := Resolve(sel2, obs);
    forall d' | d' in AllDims - {d} ensures AgreeOn(l1, l2, d') {
      assert AgreeOn(sel1, sel2, d');
    }
    ApplyDependsOnlyOnDims(ds, l1, l2, AllDims - {d});
  }

  /** When every row passes, filtering keeps the whole dataset. */
  lemma {:induction false} ApplyKeepsAll(ds: Dataset, l: DimLists, dims: set<Dim>)
    requires forall i :: 0 <= i < |ds| ==> Passes(ds[i], l, dims)
    ensures Apply(ds, l, dims) == ds
    decreases |ds|
  {
    if |ds| > 0 {
      ApplyKeepsAll(ds[..|ds| - 1], l, dims);
      assert ds[..|ds| - 1] + [ds[|ds| - 1]] == ds;
    }
  }

  /** A selection that leaves dimension `d` unrestricted: nothing picked, or
      every observed value picked. */
  predicate Unrestricted(sel: DimLists, observed: DimLists, d: Dim)
  {
    match d
    case Year => |sel.years| == 0 || forall y :: y in observed.years ==> y in sel.years
    case Country => |sel.countries| == 0 || forall x :: x in observed.countries ==> x in sel.countries
    case Gender => |sel.genders| == 0 || forall x :: x in observed.genders ==> x in sel.genders
    case Category => |sel.categories| == 0 || forall x :: x in observed.categories ==> x in sel.categories
  }

  /** An unrestricted dimension admits every value observed on it. */
  lemma UnrestrictedAdmits(r: Row, sel: DimLists, observed: DimLists, d: Dim)
    requires InDim(r, observed, d) && Unrestricted(sel, observed, d)
    ensures InDim(r, Resolve(sel, observed), d)
  {
    match d
    case Year =>
    case Country =>
    case Gender =>
    case Category =>
  }

  /** With every dimension unrestricted, all four views are the whole dataset. */
  lemma UnrestrictedSelectionKeepsDataset(ds: Dataset, sel: DimLists)
    requires forall d :: Unrestricted(sel, Observed(ds), d)
    ensures var v := CrossFilter(ds, sel);
            v.main == ds && v.byCountry == ds && v.byGender == ds && v.byCategory == ds
  {
    var obs := Observed(ds);
    var l := Resolve(sel, obs);
    forall i, d | 0 <= i < |ds| ensures InDim(ds[i], l, d) {
      UnrestrictedAdmits(ds[i], sel, obs, d);
    }
    forall i | 0 <= i < |ds| ensures Passes(ds[i], l, AllDims) {
    }
    ApplyKeepsAll(ds, l, AllDims);
    ApplyKeepsAll(ds, l, AllDims - {Country});
    ApplyKeepsAll(ds, l, AllDims - {Gender});
    ApplyKeepsAll(ds, l, AllDims - {Category});
  }

  /** An empty selection on a dimension gives the same views as selecting all
      of that dimension's observed values. */
  lemma EmptySelectionMeansAll(ds: Dataset, sel: DimLists)
    ensures var o := Observed(ds);
            CrossFilter(ds, sel.(years := [])) == CrossFilter(ds, sel.(years := o.years))
    ensures var o := Observed(ds);
            CrossFilter(ds, sel.(countries := [])) == CrossFilter(ds, sel.(countries := o.countries))
    ensures var o := Observed(ds);
            CrossFilter(ds, sel.(genders := [])) == CrossFilter(ds, sel.(genders := o.genders))
    ensures var o := Observed(ds);
            CrossFilter(ds, sel.(categories := [])) == CrossFilter(ds, sel.(categories := o.categories))
  {
  }
}
