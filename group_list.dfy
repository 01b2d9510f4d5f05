/**
 * client/components/GroupList.tsx: the public list's category tabs, the
 * rows shown under the active tab, and the count on each tab.
 */
module GroupList {
  import opened Seqs
  import opened ClientRows

  /** `["Semua", ...new Set(res.map((g) => g.jenis))]`. */
  function JenisTabs(groups: seq<Row>): seq<string>
  {
    [All] + Distinct(JenisOf(groups))
  }

  /** The row filter of `filteredGroups`: active, and in the chosen category unless it is "Semua". */
  predicate Shown(activeJenis: string, g: Row)
  {
    IsAktif(g) && (activeJenis == All || g.jenis == activeJenis)
  }

  function ShownUnder(activeJenis: string): Row -> bool
  {
    g => Shown(activeJenis, g)
  }

  function FilteredGroups(groups: seq<Row>, activeJenis: string): seq<Row>
  {
    Filter(ShownUnder(activeJenis), groups)
  }

  function AktifIn(jenis: string): Row -> bool
  {
    g => IsAktif(g) && g.jenis == jenis
  }

  /** `countByJenis`: active rows, in the category unless it is "Semua". */
  function CountByJenis(groups: seq<Row>, jenis: string): nat
  {
    if jenis == All then |Filter(IsAktif, groups)|
    else |Filter(AktifIn(jenis), groups)|
  }

  /** Exactly the active rows of the chosen category (of every category under "Semua"). */
  lemma FilteredGroupsSpec(groups: seq<Row>, activeJenis: string)
    ensures forall g :: g in FilteredGroups(groups, activeJenis) <==>
      g in groups && g.status == "AKTIF" && (activeJenis == All || g.jenis == activeJenis)
    ensures forall i :: 0 <= i < |FilteredGroups(groups, activeJenis)| ==>
      FilteredGroups(groups, activeJenis)[i].status == "AKTIF"
  {
    forall g ensures g in FilteredGroups(groups, activeJenis) <==> g in groups && Shown(activeJenis, g) {
      FilterMembership(ShownUnder(activeJenis), groups, g);
    }
  }

  /** The shown rows keep the order they were fetched in. */
  lemma FilteredKeepsOrder(groups: seq<Row>, activeJenis: string)
    ensures IsSubseq(FilteredGroups(groups, activeJenis), groups)
  {
    FilterIsSubseq(ShownUnder(activeJenis), groups);
  }

  /** The number on a tab is the number of rows shown when that tab is active. */
  lemma CountIsShownLength(groups: seq<Row>, jenis: string)
    ensures CountByJenis(groups, jenis) == |FilteredGroups(groups, jenis)|
  {
    if jenis == All {
      FilterAgree(IsAktif, ShownUnder(jenis), groups);
    } else {
      FilterAgree(AktifIn(jenis), ShownUnder(jenis), groups);
    }
  }

  /**
   * The tabs are "Semua" and then every category present, each once, in
   * order of first appearance; with no category named "Semua" no tab repeats.
   */
  lemma JenisTabsSpec(groups: seq<Row>)
    ensures JenisTabs(groups)[0] == All
    ensures forall i :: 0 <= i < |groups| ==> groups[i].jenis in JenisTabs(groups)[1..]
    ensures forall t :: t in JenisTabs(groups)[1..] ==> exists i :: 0 <= i < |groups| && groups[i].jenis == t
    ensures forall i, j :: 1 <= i < j < |JenisTabs(groups)| ==>
      FirstIndex(JenisOf(groups), JenisTabs(groups)[i]) < FirstIndex(JenisOf(groups), JenisTabs(groups)[j])
    ensures (forall i :: 0 <= i < |groups| ==> groups[i].jenis != All) ==> NoDup(JenisTabs(groups))
  {
    var js := JenisOf(groups);
    var d := Distinct(js);
    var tabs := JenisTabs(groups);
    assert tabs[1..] == d;
    JenisTabsCover(groups);
    forall t | t in d ensures exists i :: 0 <= i < |groups| && groups[i].jenis == t {
      JenisTabFromGroup(groups, t);
    }
    DistinctFirstOccurrenceOrder(js);
    forall i, j | 1 <= i < j < |tabs|
      ensures FirstIndex(js, tabs[i]) < FirstIndex(js, tabs[j])
    {
      assert tabs[i] == d[i - 1] && tabs[j] == d[j - 1];
    }
    if forall i :: 0 <= i < |groups| ==> groups[i].jenis != All {
      NoSemuaTab(groups);
      forall i, j | 0 <= i < j < |tabs| ensures tabs[i] != tabs[j] {
        if i > 0 {
          assert tabs[i] == d[i - 1] && tabs[j] == d[j - 1];
        } else {
          assert tabs[j] == d[j - 1];
        }
      }
    }
  }

  /** The sum of `count` over the tabs after "Semua". */
  function SumCounts(groups: seq<Row>, tabs: seq<string>): nat
  {
    if tabs == [] then 0 else CountByJenis(groups, tabs[0]) + SumCounts(groups, tabs[1..])
  }

  lemma CountCons(g: Row, rest: seq<Row>, jenis: string)
    ensures CountByJenis([g] + rest, jenis) ==
      CountByJenis(rest, jenis) + (if IsAktif(g) && (jenis == All || g.jenis == jenis) then 1 else 0)
  {
    assert ([g] + rest)[1..] == rest;
  }

  lemma {:induction false} SumCountsCons(g: Row, rest: seq<Row>, tabs: seq<string>)
    requires NoDup(tabs) && All !in tabs
    ensures SumCounts([g] + rest, tabs) ==
      SumCounts(rest, tabs) + (if IsAktif(g) && g.jenis in tabs then 1 else 0)
  {
    if tabs != [] {
      SumCountsCons(g, rest, tabs[1..]);
      CountCons(g, rest, tabs[0]);
      assert g.jenis in tabs <==> g.jenis == tabs[0] || g.jenis in tabs[1..];
      assert tabs[0] !in tabs[1..];
    }
  }

  lemma {:induction false} SumCountsCover(groups: seq<Row>, tabs: seq<string>)
    requires NoDup(tabs) && All !in tabs
    requires forall i :: 0 <= i < |groups| ==> groups[i].jenis in tabs
    ensures SumCounts(groups, tabs) == CountByJenis(groups, All)
  {
    if groups == [] {
      assert SumCounts(groups, tabs) == 0 by {
        SumCountsEmpty(tabs);
      }
    } else {
      var g, rest := groups[0], groups[1..];
      assert groups == [g] + rest;
      SumCountsCover(rest, tabs);
      SumCountsCons(g, rest, tabs);
      CountCons(g, rest, All);
    }
  }

  lemma {:induction false} SumCountsEmpty(tabs: seq<string>)
    ensures SumCounts([], tabs) == 0
  {
    if tabs != [] {
      SumCountsEmpty(tabs[1..]);
    }
  }

  /** With no category named "Semua", the category tabs' counts add up to the "Semua" count. */
  lemma TabCountsAddUp(groups: seq<Row>)
    requires forall i :: 0 <= i < |groups| ==> groups[i].jenis != All
    ensures SumCounts(groups, JenisTabs(groups)[1..]) == CountByJenis(groups, All)
  {
    var d := Distinct(JenisOf(groups));
    assert JenisTabs(groups)[1..] == d;
    NoSemuaTab(groups);
    JenisTabsCover(groups);
    SumCountsCover(groups, d);
  }
}
