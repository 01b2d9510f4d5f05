/**
 * client/app/admin/page.tsx: the admin list sorted by name, its sorted
 * category tabs, the rows under the active tab and the tallies in the
 * header and on the tabs.
 *
 * `cmp(a, b)` stands for `a.localeCompare(b) <= 0`, whose locale rules are
 * not modelled; the proofs assume only that it is a total preorder.
 */
module AdminPage {
  import opened Seqs
  import opened ClientRows

  /** The comparator of `res.sort((a, b) => a.nama.localeCompare(b.nama))`. */
  function ByNama(cmp: (string, string) -> bool): (Row, Row) -> bool
  {
    (a: Row, b: Row) => cmp(a.nama, b.nama)
  }

  lemma ByNamaTotalPreorder(cmp: (string, string) -> bool)
    requires TotalPreorder(cmp)
    ensures TotalPreorder(ByNama(cmp))
  {
    var le := ByNama(cmp);
    forall x: Row ensures le(x, x) {
      assert cmp(x.nama, x.nama);
    }
    forall x: Row, y: Row ensures le(x, y) || le(y, x) {
      assert cmp(x.nama, y.nama) || cmp(y.nama, x.nama);
    }
    forall x: Row, y: Row, z: Row | le(x, y) && le(y, z) ensures le(x, z) {
      assert cmp(x.nama, y.nama) && cmp(y.nama, z.nama);
    }
  }

  // ------------------------------------------------ default string order

  /** The order of `Array.prototype.sort()` without comparator: character by character, a prefix first. */
  predicate LexLe(a: string, b: string)
  {
    a == [] || (b != [] && (a[0] < b[0] || (a[0] == b[0] && LexLe(a[1..], b[1..]))))
  }

  lemma {:induction false} LexReflexive(a: string)
    ensures LexLe(a, a)
  {
    if a != [] {
      LexReflexive(a[1..]);
    }
  }

  lemma {:induction false} LexTotal(a: string, b: string)
    ensures LexLe(a, b) || LexLe(b, a)
  {
    if a != [] && b != [] && a[0] == b[0] {
      LexTotal(a[1..], b[1..]);
    }
  }

  lemma {:induction false} LexTransitive(a: string, b: string, c: string)
    requires LexLe(a, b) && LexLe(b, c)
    ensures LexLe(a, c)
  {
    if a != [] && b != [] && c != [] && a[0] == b[0] == c[0] {
      LexTransitive(a[1..], b[1..], c[1..]);
    }
  }

  lemma {:induction false} LexAntisymmetric(a: string, b: string)
    requires LexLe(a, b) && LexLe(b, a)
    ensures a == b
  {
    if a != [] && b != [] {
      LexAntisymmetric(a[1..], b[1..]);
      assert a == [a[0]] + a[1..] && b == [b[0]] + b[1..];
    }
  }

  lemma LexTotalPreorder()
    ensures TotalPreorder(LexLe)
  {
    forall a | true ensures LexLe(a, a) {
      LexReflexive(a);
    }
    forall a, b | true ensures LexLe(a, b) || LexLe(b, a) {
      LexTotal(a, b);
    }
    forall a, b, c | LexLe(a, b) && LexLe(b, c) ensures LexLe(a, c) {
      LexTransitive(a, b, c);
    }
  }

  // ---------------------------------------------------------- fetch

  /** `["Semua", ...Array.from(new Set(sorted.map((g) => g.jenis))).sort()]`. */
  function AdminJenisTabs(groups: seq<Row>): seq<string>
  {
    [All] + SortedJenis(groups)
  }

  /**
   * fetchGroups after the list arrives: sorts it in place by name, keeps
   * it as `groups`, and derives the tabs from it.
   */
  method FetchGroups(res: array<Row>, cmp: (string, string) -> bool)
    returns (groups: seq<Row>, jenisTabs: seq<string>)
    modifies res
    ensures groups == res[..] && groups == Sort(ByNama(cmp), old(res[..]))
    ensures multiset(groups) == multiset(old(res[..]))
    ensures TotalPreorder(cmp) ==> Sorted(ByNama(cmp), groups)
    ensures jenisTabs == AdminJenisTabs(groups)
  {
    SortInPlace(res, ByNama(cmp));
    groups := res[..];
    jenisTabs := AdminJenisTabs(groups);
    SortPermutes(ByNama(cmp), old(res[..]));
    if TotalPreorder(cmp) {
      ByNamaTotalPreorder(cmp);
      SortSorted(ByNama(cmp), old(res[..]));
    }
  }

  lemma {:induction false} MultisetNoDup<T>(s: seq<T>, x: T)
    requires NoDup(s)
    ensures multiset(s)[x] <= 1
  {
    if s != [] {
      MultisetNoDup(s[1..], x);
      assert s == [s[0]] + s[1..];
      if x == s[0] {
        assert x !in s[1..];
      }
    }
  }

  lemma PermutationKeepsNoDup<T>(a: seq<T>, b: seq<T>)
    requires multiset(a) == multiset(b) && NoDup(a)
    ensures NoDup(b)
  {
    forall i, j | 0 <= i < j < |b| ensures b[i] != b[j] {
      MultisetNoDup(a, b[i]);
      SingleCopy(b, i, j);
    }
  }

  lemma SingleCopy<T>(b: seq<T>, i: nat, j: nat)
    requires i < j < |b| && multiset(b)[b[i]] <= 1
    ensures b[i] != b[j]
  {
    assert b == b[..j] + [b[j]] + b[j + 1..];
    assert b[i] in multiset(b[..j]) by {
      assert b[..j][i] == b[i];
    }
  }

  /** The categories after "Semua", in the order the tabs show them. */
  function SortedJenis(groups: seq<Row>): seq<string>
  {
    Sort(LexLe, Distinct(JenisOf(groups)))
  }

  lemma SortedJenisSameElements(groups: seq<Row>, t: string)
    ensures t in SortedJenis(groups) <==> t in Distinct(JenisOf(groups))
  {
    var d := Distinct(JenisOf(groups));
    SortPermutes(LexLe, d);
    assert t in SortedJenis(groups) <==> t in multiset(SortedJenis(groups));
    assert t in d <==> t in multiset(d);
  }

  lemma SortedJenisStrict(groups: seq<Row>)
    ensures Sorted(LexLe, SortedJenis(groups)) && NoDup(SortedJenis(groups))
  {
    var d := Distinct(JenisOf(groups));
    SortPermutes(LexLe, d);
    LexTotalPreorder();
    SortSorted(LexLe, d);
    PermutationKeepsNoDup(d, SortedJenis(groups));
  }

  /**
   * The tabs are "Semua" and then every category present, each once, in
   * strictly increasing default string order.
   */
  lemma AdminJenisTabsSpec(groups: seq<Row>)
    ensures AdminJenisTabs(groups)[0] == All
    ensures forall i :: 0 <= i < |groups| ==> groups[i].jenis in AdminJenisTabs(groups)[1..]
    ensures forall t :: t in AdminJenisTabs(groups)[1..] ==> exists i :: 0 <= i < |groups| && groups[i].jenis == t
    ensures forall i, j :: 1 <= i < j < |AdminJenisTabs(groups)| ==>
      LexLe(AdminJenisTabs(groups)[i], AdminJenisTabs(groups)[j])
      && AdminJenisTabs(groups)[i] != AdminJenisTabs(groups)[j]
  {
    var sorted := SortedJenis(groups);
    var tabs := AdminJenisTabs(groups);
    assert tabs[1..] == sorted;
    JenisTabsCover(groups);
    forall i | 0 <= i < |groups| ensures groups[i].jenis in sorted {
      SortedJenisSameElements(groups, groups[i].jenis);
    }
    forall t | t in sorted ensures exists i :: 0 <= i < |groups| && groups[i].jenis == t {
      SortedJenisSameElements(groups, t);
      JenisTabFromGroup(groups, t);
    }
    SortedJenisStrict(groups);
    forall i, j | 1 <= i < j < |tabs| ensures LexLe(tabs[i], tabs[j]) && tabs[i] != tabs[j] {
      assert tabs[i] == sorted[i - 1] && tabs[j] == sorted[j - 1];
    }
  }

  // ------------------------------------------------------- filtering

  /**
   * `filteredGroups`: all of `groups` under "Semua"; otherwise the rows of
   * the category, sorted by name again.
   */
  function AdminFiltered(groups: seq<Row>, activeJenis: string, cmp: (string, string) -> bool): seq<Row>
  {
    if activeJenis == All then groups
    else Sort(ByNama(cmp), Filter(InJenis(activeJenis), groups))
  }

  function InJenis(jenis: string): Row -> bool
  {
    (g: Row) => g.jenis == jenis
  }

  /**
   * On a list that fetchGroups sorted, the second sort changes nothing: a
   * tab shows exactly its rows, in the list's order. Status is not filtered.
   */
  lemma AdminFilteredSpec(groups: seq<Row>, activeJenis: string, cmp: (string, string) -> bool)
    requires Sorted(ByNama(cmp), groups)
    ensures activeJenis == All ==> AdminFiltered(groups, activeJenis, cmp) == groups
    ensures activeJenis != All ==>
      AdminFiltered(groups, activeJenis, cmp) == Filter(InJenis(activeJenis), groups)
    ensures Sorted(ByNama(cmp), AdminFiltered(groups, activeJenis, cmp))
    ensures forall g :: g in AdminFiltered(groups, activeJenis, cmp) <==>
      g in groups && (activeJenis == All || g.jenis == activeJenis)
  {
    if activeJenis != All {
      var f := Filter(InJenis(activeJenis), groups);
      FilterKeepsSorted(ByNama(cmp), InJenis(activeJenis), groups);
      SortOfSorted(ByNama(cmp), f);
      forall g ensures g in f <==> g in groups && g.jenis == activeJenis {
        FilterMembership(InJenis(activeJenis), groups, g);
      }
    }
  }

  // --------------------------------------------------------- tallies

  /** `groups.filter((g) => g.status === s).length`. */
  function Tally(groups: seq<Row>, status: string): nat
  {
    |Filter((g: Row) => g.status == status, groups)|
  }

  predicate KnownStatus(g: Row)
  {
    g.status == "AKTIF" || g.status == "NONAKTIF"
  }

  /** The two header tallies never exceed the total, and reach it exactly when every status is one of the two. */
  lemma {:induction false} TalliesBounded(groups: seq<Row>)
    ensures Tally(groups, "AKTIF") + Tally(groups, "NONAKTIF") <= |groups|
    ensures Tally(groups, "AKTIF") + Tally(groups, "NONAKTIF") == |groups| <==>
      forall i :: 0 <= i < |groups| ==> KnownStatus(groups[i])
  {
    if groups != [] {
      TalliesBounded(groups[1..]);
      if !KnownStatus(groups[0]) {
        assert !(forall i :: 0 <= i < |groups| ==> KnownStatus(groups[i]));
      } else {
        assert (forall i :: 0 <= i < |groups| ==> KnownStatus(groups[i])) <==>
          (forall i :: 0 <= i < |groups[1..]| ==> KnownStatus(groups[1..][i]));
      }
    }
  }

  /** The count on a tab: every row under "Semua", else the rows of the category. */
  function TabCount(groups: seq<Row>, jenis: string): nat
  {
    if jenis == All then |groups| else |Filter(InJenis(jenis), groups)|
  }

  /** The number on a tab is the number of rows shown when that tab is active. */
  lemma TabCountIsShownLength(groups: seq<Row>, jenis: string, cmp: (string, string) -> bool)
    ensures TabCount(groups, jenis) == |AdminFiltered(groups, jenis, cmp)|
  {
  }
  /** The sum of the counts on the tabs after "Semua". */
  function SumTabCounts(groups: seq<Row>, tabs: seq<string>): nat
  {
    if tabs == [] then 0 else TabCount(groups, tabs[0]) + SumTabCounts(groups, tabs[1..])
  }

  lemma TabCountCons(g: Row, rest: seq<Row>, jenis: string)
    ensures TabCount([g] + rest, jenis) ==
      TabCount(rest, jenis) + (if jenis == All || g.jenis == jenis then 1 else 0)
  {
    assert ([g] + rest)[1..] == rest;
  }

  lemma {:induction false} SumTabCountsCons(g: Row, rest: seq<Row>, tabs: seq<string>)
    requires NoDup(tabs) && All !in tabs
    ensures SumTabCounts([g] + rest, tabs) ==
      SumTabCounts(rest, tabs) + (if g.jenis in tabs then 1 else 0)
  {
    if tabs != [] {
      SumTabCountsCons(g, rest, tabs[1..]);
      TabCountCons(g, rest, tabs[0]);
      assert g.jenis in tabs <==> g.jenis == tabs[0] || g.jenis in tabs[1..];
      assert tabs[0] !in tabs[1..];
    }
  }

  lemma {:induction false} SumTabCountsEmpty(tabs: seq<string>)
    ensures SumTabCounts([], tabs) == 0
  {
    if tabs != [] {
      SumTabCountsEmpty(tabs[1..]);
    }
  }

  lemma {:induction false} SumTabCountsCover(groups: seq<Row>, tabs: seq<string>)
    requires NoDup(tabs) && All !in tabs
    requires forall i :: 0 <= i < |groups| ==> groups[i].jenis in tabs
    ensures SumTabCounts(groups, tabs) == |groups|
  {
    if groups == [] {
      SumTabCountsEmpty(tabs);
    } else {
      var g, rest := groups[0], groups[1..];
      assert groups == [g] + rest;
      SumTabCountsCover(rest, tabs);
      SumTabCountsCons(g, rest, tabs);
    }
  }

  /** With no category named "Semua", the category tabs' counts add up to the "Semua" count, the total. */
  lemma AdminTabCountsAddUp(groups: seq<Row>)
    requires forall i :: 0 <= i < |groups| ==> groups[i].jenis != All
    ensures SumTabCounts(groups, AdminJenisTabs(groups)[1..]) == TabCount(groups, All) == |groups|
  {
    var sorted := SortedJenis(groups);
    assert AdminJenisTabs(groups)[1..] == sorted;
    SortedJenisStrict(groups);
    NoSemuaTab(groups);
    SortedJenisSameElements(groups, All);
    JenisTabsCover(groups);
    forall i | 0 <= i < |groups| ensures groups[i].jenis in sorted {
      SortedJenisSameElements(groups, groups[i].jenis);
    }
    SumTabCountsCover(groups, sorted);
  }
}
