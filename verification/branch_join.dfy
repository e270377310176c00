/** The branch page's year-by-year series (js/branch.js): the selected
    branch's registration rows, each joined with the visits that branch had
    in the same year, and the two totals shown under the charts. Rows are
    taken as `d3.autoType` reads them: years and counts are numbers, and an
    empty cell, year cells included, is `null`. */
module BranchJoin {
  import opened Options
  import opened Seqs

  /** A row of the annual card-registrations file. */
  datatype RegRow = RegRow(branchCode: Option<string>, year: Option<int>, registrations: Option<int>)

  /** A row of the annual visits file. */
  datatype VisitRow = VisitRow(branchCode: Option<string>, year: Option<int>, visits: Option<int>)

  /** An element of `merged`: `{Year, Registrations, Visits}`. */
  datatype YearPoint = YearPoint(year: Option<int>, registrations: Option<int>, visits: Option<int>)

  /** `reg.filter(d => d.BranchCode === selectedBranch)`. A missing `branch`
      parameter is `null`, which matches the rows whose code cell is empty. */
  function RegsOf(reg: seq<RegRow>, selected: Option<string>): (r: seq<RegRow>)
    ensures forall i :: 0 <= i < |r| ==> r[i].branchCode == selected
    ensures forall d :: d in r <==> d in reg && d.branchCode == selected
  {
    Filter(reg, (d: RegRow) => d.branchCode == selected)
  }

  /** The selected registration rows keep the file's order, each as often
      as it occurs in the file. */
  lemma RegsOfKeepsOrderAndCounts(reg: seq<RegRow>, selected: Option<string>, d: RegRow)
    ensures SubsequenceOf(RegsOf(reg, selected), reg)
    ensures multiset(RegsOf(reg, selected))[d] == if d.branchCode == selected then multiset(reg)[d] else 0
  {
    var p := (r: RegRow) => r.branchCode == selected;
    FilterKeepsOrder(reg, p);
    FilterCounts(reg, p, d);
  }

  /** `visits.filter(d => d.BranchCode === selectedBranch)`. */
  function VisitsOf(visits: seq<VisitRow>, selected: Option<string>): (r: seq<VisitRow>)
    ensures forall i :: 0 <= i < |r| ==> r[i].branchCode == selected
    ensures forall d :: d in r <==> d in visits && d.branchCode == selected
  {
    Filter(visits, (d: VisitRow) => d.branchCode == selected)
  }

  /** The selected visits rows keep the file's order, each as often as it
      occurs in the file. */
  lemma VisitsOfKeepsOrderAndCounts(visits: seq<VisitRow>, selected: Option<string>, d: VisitRow)
    ensures SubsequenceOf(VisitsOf(visits, selected), visits)
    ensures multiset(VisitsOf(visits, selected))[d] == if d.branchCode == selected then multiset(visits)[d] else 0
  {
    var p := (r: VisitRow) => r.branchCode == selected;
    FilterKeepsOrder(visits, p);
    FilterCounts(visits, p, d);
  }

  /** `(visits.find(v => v.Year === year) || {}).Visits`: the visits of the
      first row for `year`; absent when there is no such row. A `null` year
      matches a `null` year. */
  function VisitsInYear(visits: seq<VisitRow>, year: Option<int>): (v: Option<int>)
    ensures v.Some? ==> exists i :: 0 <= i < |visits| && visits[i].year == year && visits[i].visits == v
    decreases |visits|
  {
    if |visits| == 0 then None
    else if visits[0].year == year then visits[0].visits
    else VisitsInYear(visits[1..], year)
  }

  /** The first row for `year` decides, whatever later rows for that year
      say. */
  lemma {:induction false} FirstRowOfYearDecides(visits: seq<VisitRow>, year: Option<int>, i: nat)
    requires i < |visits| && visits[i].year == year
    requires forall j :: 0 <= j < i ==> visits[j].year != year
    ensures VisitsInYear(visits, year) == visits[i].visits
    decreases i
  {
    if i > 0 {
      assert forall j :: 0 <= j < i - 1 ==> visits[1..][j] == visits[j + 1];
      FirstRowOfYearDecides(visits[1..], year, i - 1);
    }
  }

  /** Without a row for `year` there are no visits. */
  lemma {:induction false} NoRowOfYear(visits: seq<VisitRow>, year: Option<int>)
    requires forall j :: 0 <= j < |visits| ==> visits[j].year != year
    ensures VisitsInYear(visits, year).None?
    decreases |visits|
  {
    if |visits| > 0 {
      assert forall j :: 0 <= j < |visits| - 1 ==> visits[1..][j] == visits[j + 1];
      NoRowOfYear(visits[1..], year);
    }
  }

  /** The `map` step: every registration row paired with its year's visits. */
  function Pair(visits: seq<VisitRow>, r: RegRow): YearPoint {
    YearPoint(r.year, r.registrations, VisitsInYear(visits, r.year))
  }

  /** `d.Visits != null`: false for both `undefined` and `null`. */
  predicate HasVisits(d: YearPoint) {
    d.visits.Some?
  }

  /** The `map` over the selected registration rows: one point per row, in
      their order, with the row's year and count and its year's visits. */
  function Paired(reg: seq<RegRow>, visits: seq<VisitRow>, selected: Option<string>): (joined: seq<YearPoint>)
    ensures |joined| == |RegsOf(reg, selected)|
    ensures forall i :: 0 <= i < |joined| ==>
              && joined[i].year == RegsOf(reg, selected)[i].year
              && joined[i].registrations == RegsOf(reg, selected)[i].registrations
              && joined[i].visits == VisitsInYear(VisitsOf(visits, selected), joined[i].year)
  {
    var vs := VisitsOf(visits, selected);
    Map(RegsOf(reg, selected), (r: RegRow) => Pair(vs, r))
  }

  /** `merged`: the selected branch's registration rows in order, each with
      its year's visits, without the rows whose year has none. */
  function Merged(reg: seq<RegRow>, visits: seq<VisitRow>, selected: Option<string>): (merged: seq<YearPoint>)
    ensures |merged| <= |RegsOf(reg, selected)|
    ensures forall d :: d in merged ==>
              && d.visits.Some?
              && d.visits == VisitsInYear(VisitsOf(visits, selected), d.year)
              && exists r :: r in reg && r.branchCode == selected && r.year == d.year && r.registrations == d.registrations
    ensures forall r :: r in reg && r.branchCode == selected && VisitsInYear(VisitsOf(visits, selected), r.year).Some? ==>
              Pair(VisitsOf(visits, selected), r) in merged
  {
    var regs := RegsOf(reg, selected);
    var vs := VisitsOf(visits, selected);
    var joined := Paired(reg, visits, selected);
    assert forall d :: d in joined ==> exists r :: r in regs && d == Pair(vs, r);
    assert forall r :: r in regs ==> Pair(vs, r) in joined;
    Filter(joined, HasVisits)
  }

  /** `merged` keeps the registration order: it is the paired rows with the
      visit-less ones deleted. */
  lemma MergedKeepsOrder(reg: seq<RegRow>, visits: seq<VisitRow>, selected: Option<string>)
    ensures SubsequenceOf(Merged(reg, visits, selected), Paired(reg, visits, selected))
  {
    FilterKeepsOrder(Paired(reg, visits, selected), HasVisits);
  }

  /** `merged` has one point per selected registration row whose year has
      visits: each paired point with visits is kept as often as it occurs,
      the others never. */
  lemma MergedCounts(reg: seq<RegRow>, visits: seq<VisitRow>, selected: Option<string>, d: YearPoint)
    ensures multiset(Merged(reg, visits, selected))[d] ==
            if HasVisits(d) then multiset(Paired(reg, visits, selected))[d] else 0
  {
    FilterCounts(Paired(reg, visits, selected), HasVisits, d);
  }

  /** The visits a registration row is paired with come from the first row
      of the visits file that has the selected code and the row's year. */
  lemma {:induction false} FirstSelectedRowDecides(visits: seq<VisitRow>, selected: Option<string>, year: Option<int>, i: nat)
    requires i < |visits| && visits[i].branchCode == selected && visits[i].year == year
    requires forall j :: 0 <= j < i ==> visits[j].branchCode != selected || visits[j].year != year
    ensures VisitsInYear(VisitsOf(visits, selected), year) == visits[i].visits
    decreases i
  {
    var rest := VisitsOf(visits[1..], selected);
    assert visits == [visits[0]] + visits[1..];
    if i > 0 {
      assert forall j :: 0 <= j < i - 1 ==> visits[1..][j] == visits[j + 1];
      FirstSelectedRowDecides(visits[1..], selected, year, i - 1);
      if visits[0].branchCode == selected {
        assert ([visits[0]] + rest)[1..] == rest;
      }
    }
  }

  /** Without a selected row of that year there are no visits to pair. */
  lemma {:induction false} NoSelectedRowOfYear(visits: seq<VisitRow>, selected: Option<string>, year: Option<int>)
    requires forall j :: 0 <= j < |visits| ==> visits[j].branchCode != selected || visits[j].year != year
    ensures VisitsInYear(VisitsOf(visits, selected), year).None?
    decreases |visits|
  {
    if |visits| > 0 {
      var rest := VisitsOf(visits[1..], selected);
      assert forall j :: 0 <= j < |visits| - 1 ==> visits[1..][j] == visits[j + 1];
      NoSelectedRowOfYear(visits[1..], selected, year);
      if visits[0].branchCode == selected {
        assert ([visits[0]] + rest)[1..] == rest;
      }
    }
  }

  /** `d3.sum(data, f)`: the sum of the present values, `null` counting as
      nothing. With `SumOfAppend`, the one-element case fixes the value. */
  function SumOf<T>(data: seq<T>, f: T -> Option<int>): (s: int)
    ensures (forall i :: 0 <= i < |data| ==> f(data[i]).None?) ==> s == 0
    ensures |data| == 1 ==> s == f(data[0]).GetOr(0)
    ensures (forall i :: 0 <= i < |data| && f(data[i]).Some? ==> f(data[i]).value >= 0) ==> s >= 0
    decreases |data|
  {
    if |data| == 0 then 0
    else
      assert forall i :: 0 <= i < |data| - 1 ==> data[1..][i] == data[i + 1];
      f(data[0]).GetOr(0) + SumOf(data[1..], f)
  }

  lemma {:induction false} SumOfAppend<T>(a: seq<T>, b: seq<T>, f: T -> Option<int>)
    ensures SumOf(a + b, f) == SumOf(a, f) + SumOf(b, f)
    decreases |a|
  {
    if |a| == 0 {
      assert a + b == b;
    } else {
      assert (a + b)[1..] == a[1..] + b;
      SumOfAppend(a[1..], b, f);
    }
  }

  /** Dropping elements whose value is absent does not change the sum. */
  lemma {:induction false} SumOfFilterDropsNothing<T(!new)>(data: seq<T>, p: T -> bool, f: T -> Option<int>)
    requires forall i :: 0 <= i < |data| && !p(data[i]) ==> f(data[i]).None?
    ensures SumOf(Filter(data, p), f) == SumOf(data, f)
    decreases |data|
  {
    if |data| > 0 {
      assert forall i :: 0 <= i < |data| - 1 ==> data[1..][i] == data[i + 1];
      SumOfFilterDropsNothing(data[1..], p, f);
      if p(data[0]) {
        assert ([data[0]] + Filter(data[1..], p))[1..] == Filter(data[1..], p);
      }
    }
  }

  /** With no negative values, filtering can only lower the sum. */
  lemma {:induction false} SumOfFilterAtMost<T(!new)>(data: seq<T>, p: T -> bool, f: T -> Option<int>)
    requires forall i :: 0 <= i < |data| && f(data[i]).Some? ==> f(data[i]).value >= 0
    ensures SumOf(Filter(data, p), f) <= SumOf(data, f)
    decreases |data|
  {
    if |data| > 0 {
      assert forall i :: 0 <= i < |data| - 1 ==> data[1..][i] == data[i + 1];
      SumOfFilterAtMost(data[1..], p, f);
      if p(data[0]) {
        assert ([data[0]] + Filter(data[1..], p))[1..] == Filter(data[1..], p);
      }
    }
  }

  /** "Total Visits": `d3.sum(merged, d => d.Visits)`. */
  function TotalVisits(merged: seq<YearPoint>): (t: int)
    ensures merged == [] ==> t == 0
    ensures |merged| == 1 ==> t == merged[0].visits.GetOr(0)
  {
    SumOf(merged, (d: YearPoint) => d.visits)
  }

  /** "Total New Cards": `d3.sum(merged, d => d.Registrations)`. */
  function TotalRegistrations(merged: seq<YearPoint>): (t: int)
    ensures merged == [] ==> t == 0
    ensures |merged| == 1 ==> t == merged[0].registrations.GetOr(0)
  {
    SumOf(merged, (d: YearPoint) => d.registrations)
  }

  /** Both totals add up year by year. */
  lemma TotalsAppend(a: seq<YearPoint>, b: seq<YearPoint>)
    ensures TotalVisits(a + b) == TotalVisits(a) + TotalVisits(b)
    ensures TotalRegistrations(a + b) == TotalRegistrations(a) + TotalRegistrations(b)
  {
    SumOfAppend(a, b, (d: YearPoint) => d.visits);
    SumOfAppend(a, b, (d: YearPoint) => d.registrations);
  }

  /** The visits total is the sum over every paired registration row: the
      rows `merged` drops have no visits to add. */
  lemma VisitsTotalOverAllYears(reg: seq<RegRow>, visits: seq<VisitRow>, selected: Option<string>)
    ensures TotalVisits(Merged(reg, visits, selected)) == SumOf(Paired(reg, visits, selected), (d: YearPoint) => d.visits)
  {
    SumOfFilterDropsNothing(Paired(reg, visits, selected), HasVisits, (d: YearPoint) => d.visits);
  }

  /** With no negative counts, the registrations total is at most the
      selected branch's registrations over all its rows. */
  lemma RegistrationsTotalAtMost(reg: seq<RegRow>, visits: seq<VisitRow>, selected: Option<string>)
    requires forall i :: 0 <= i < |reg| && reg[i].registrations.Some? ==> reg[i].registrations.value >= 0
    ensures TotalRegistrations(Merged(reg, visits, selected)) <=
            SumOf(RegsOf(reg, selected), (r: RegRow) => r.registrations)
  {
    var vs := VisitsOf(visits, selected);
    var regs := RegsOf(reg, selected);
    var joined := Paired(reg, visits, selected);
    var f := (d: YearPoint) => d.registrations;
    assert forall i :: 0 <= i < |regs| ==> regs[i] in reg;
    assert forall i :: 0 <= i < |joined| ==> f(joined[i]) == regs[i].registrations;
    SumOfFilterAtMost(joined, HasVisits, f);
    SumOfMap(regs, (r: RegRow) => Pair(vs, r), f, (r: RegRow) => r.registrations);
  }

  /** Summing a mapped sequence is summing the composition. */
  lemma {:induction false} SumOfMap<T, U>(data: seq<T>, g: T -> U, f: U -> Option<int>, h: T -> Option<int>)
    requires forall i :: 0 <= i < |data| ==> h(data[i]) == f(g(data[i]))
    ensures SumOf(Map(data, g), f) == SumOf(data, h)
    decreases |data|
  {
    if |data| > 0 {
      assert Map(data, g)[1..] == Map(data[1..], g);
      assert forall i :: 0 <= i < |data| - 1 ==> data[1..][i] == data[i + 1];
      SumOfMap(data[1..], g, f, h);
    }
  }
}
