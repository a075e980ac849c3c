/**
 The calendar months as an enumerated, ordered type. The warehouse query
 returns the month of each order as its English name; the month chart turns
 those names back into calendar positions before sorting.
 */
module Months {

  import opened Wrappers

  datatype Month =
    | January | February | March | April | May | June
    | July | August | September | October | November | December

  /** Calendar position, January = 1 through December = 12. */
  function Rank(m: Month): (n: int)
    ensures 1 <= n <= 12
  {
    match m
    case January => 1
    case February => 2
    case March => 3
    case April => 4
    case May => 5
    case June => 6
    case July => 7
    case August => 8
    case September => 9
    case October => 10
    case November => 11
    case December => 12
  }

  /** The English name of a month, as the query's `datename(mm, ...)` yields it. */
  function Name(m: Month): string
  {
    match m
    case January => "January"
    case February => "February"
    case March => "March"
    case April => "April"
    case May => "May"
    case June => "June"
    case July => "July"
    case August => "August"
    case September => "September"
    case October => "October"
    case November => "November"
    case December => "December"
  }

  /** The categorical conversion of a month name: None stands for a name
      outside the twelve categories (a missing value). */
  function FromName(s: string): (r: Option<Month>)
    ensures r.Some? ==> Name(r.value) == s
    ensures r.None? ==> forall m :: Name(m) != s
  {
    if s == "January" then Some(January)
    else if s == "February" then Some(February)
    else if s == "March" then Some(March)
    else if s == "April" then Some(April)
    else if s == "May" then Some(May)
    else if s == "June" then Some(June)
    else if s == "July" then Some(July)
    else if s == "August" then Some(August)
    else if s == "September" then Some(September)
    else if s == "October" then Some(October)
    else if s == "November" then Some(November)
    else if s == "December" then Some(December)
    else None
  }

  /** Converting a month's name back recovers the month. */
  lemma NameRoundTrip(m: Month)
    ensures FromName(Name(m)) == Some(m)
  {
  }

  /** Distinct months have distinct calendar positions. */
  lemma RankInjective(m1: Month, m2: Month)
    ensures Rank(m1) == Rank(m2) <==> m1 == m2
  {
  }
}
