/**
 * The `Group` type the client pages declare for what GET /groups returns.
 * On the client the status is a plain string.
 */
module ClientRows {
  import opened Seqs

  datatype Row = Row(id: int, nama: string, link: string, jenis: string, status: string)

  /** The tab that stands for every category. */
  const All := "Semua"

  /** `rows.map((g) => g.jenis)`. */
  function JenisOf(rows: seq<Row>): (js: seq<string>)
    ensures |js| == |rows|
    ensures forall i :: 0 <= i < |rows| ==> js[i] == rows[i].jenis
  {
    seq(|rows|, i requires 0 <= i < |rows| => rows[i].jenis)
  }

  predicate IsAktif(g: Row)
  {
    g.status == "AKTIF"
  }

  /** Every row's category is among the distinct categories. */
  lemma JenisTabsCover(groups: seq<Row>)
    ensures forall i :: 0 <= i < |groups| ==> groups[i].jenis in Distinct(JenisOf(groups))
  {
    var js := JenisOf(groups);
    forall i | 0 <= i < |groups| ensures groups[i].jenis in Distinct(js) {
      assert js[i] == groups[i].jenis;
    }
  }

  /** Every distinct category is some row's category. */
  lemma JenisTabFromGroup(groups: seq<Row>, t: string)
    requires t in Distinct(JenisOf(groups))
    ensures exists i :: 0 <= i < |groups| && groups[i].jenis == t
  {
    var js := JenisOf(groups);
    var d := Distinct(js);
    var k :| 0 <= k < |d| && d[k] == t;
    assert d[k] in js;
    var i :| 0 <= i < |js| && js[i] == t;
    assert groups[i].jenis == t;
  }

  /** With no row in a category named "Semua", no distinct category is "Semua". */
  lemma NoSemuaTab(groups: seq<Row>)
    requires forall i :: 0 <= i < |groups| ==> groups[i].jenis != All
    ensures All !in Distinct(JenisOf(groups))
  {
    if All in Distinct(JenisOf(groups)) {
      JenisTabFromGroup(groups, All);
    }
  }
}
