/**
 * The group handlers of server/src/api.ts (getGroups, createGroup,
 * updateGroup, deleteGroup, changeGroupStatus) over an in-memory table that
 * stands for the persisted `Group` table.
 */
module GroupStore {
  import opened Wrappers
  import opened ApiTypes
  import Seqs

  const MissingFields := "Nama, link, jenis wajib diisi"
  const InvalidStatus := "Status harus AKTIF atau NONAKTIF"
  /** The message of the error the store throws when no row has the id. */
  const RecordNotFound := "Record not found"
  /** The message of the error the store throws for a status filter that is not a `GroupStatus`. */
  const InvalidStatusFilter := "Invalid value for argument `status`"

  // ------------------------------------------------------------ path ids

  predicate IsDigit(c: char)
  {
    '0' <= c <= '9'
  }

  predicate AllDigits(s: string)
  {
    forall i :: 0 <= i < |s| ==> IsDigit(s[i])
  }

  function DigitsValue(s: string): nat
    requires AllDigits(s)
  {
    if s == [] then 0
    else DigitsValue(s[..|s| - 1]) * 10 + (s[|s| - 1] as int - '0' as int)
  }

  /**
   * `Number(id)` on the `:id` path segment, as far as the store can use it:
   * a decimal numeral names a row id; anything else is not an integer and
   * makes the store throw.
   */
  function ParseId(s: string): (r: Option<nat>)
    ensures r.Some? <==> s != [] && AllDigits(s)
  {
    if s != [] && AllDigits(s) then Some(DigitsValue(s)) else None
  }

  /** The decimal numeral of `n`, as a template literal `${id}` writes it. */
  function Decimal(n: nat): (s: string)
    ensures s != [] && AllDigits(s)
  {
    var d := [(n % 10 + '0' as int) as char];
    if n < 10 then d else Decimal(n / 10) + d
  }

  /** The client's request path for a row reaches that row's id. */
  lemma {:induction false} ParseDecimal(n: nat)
    ensures ParseId(Decimal(n)) == Some(n)
  {
    var s := Decimal(n);
    assert s[|s| - 1] as int - '0' as int == n % 10;
    if n >= 10 {
      ParseDecimal(n / 10);
      assert s[..|s| - 1] == Decimal(n / 10);
    } else {
      assert s[..|s| - 1] == [];
      assert DigitsValue(s) == DigitsValue([]) * 10 + n % 10;
    }
  }

  /** Position of the row with id `id`, if there is one. */
  function IndexOfId(rows: seq<Group>, id: nat): (k: Option<nat>)
    ensures k.Some? ==> k.value < |rows| && rows[k.value].id == id
    ensures k.None? ==> forall i :: 0 <= i < |rows| ==> rows[i].id != id
  {
    if rows == [] then None
    else if rows[0].id == id then Some(0)
    else match IndexOfId(rows[1..], id)
      case None => None
      case Some(k) => Some(k + 1)
  }

  // -------------------------------------------------------------- update

  /** The `data` object updateGroup passes to the store: the fields to write. */
  datatype Patch = Patch(
    nama: Option<string>,
    link: Option<string>,
    jenis: Option<string>,
    status: Option<Status>)

  /** The fields of an update body that are written: truthy ones, and a status only when it is valid. */
  function PatchOf(nama: Option<string>, link: Option<string>, jenis: Option<string>,
                   status: Option<string>): Patch
  {
    Patch(
      if Truthy(nama) then nama else None,
      if Truthy(link) then link else None,
      if Truthy(jenis) then jenis else None,
      if Truthy(status) then ParseStatus(status) else None)
  }

  /** A row after the store writes the fields of `p`. */
  function Merge(g: Group, p: Patch): Group
  {
    g.(nama := p.nama.GetOr(g.nama),
       link := p.link.GetOr(g.link),
       jenis := p.jenis.GetOr(g.jenis),
       status := p.status.GetOr(g.status))
  }

  // ------------------------------------------------------------- listing

  /** The `where` object of getGroups: one optional constraint per filter. */
  datatype Where = Where(search: Option<string>, jenis: Option<string>, status: Option<Status>)

  /**
   * The filter getGroups builds from its query: each truthy parameter adds
   * a constraint. A truthy status that is not a `GroupStatus` is passed to
   * the store as it is, which rejects it (None here).
   */
  function WhereOf(search: Option<string>, jenis: Option<string>, status: Option<string>): (w: Option<Where>)
    ensures w.None? <==> Truthy(status) && ParseStatus(status).None?
    ensures w.Some? ==> (w.value.search.Some? <==> Truthy(search)) && (w.value.jenis.Some? <==> Truthy(jenis))
    ensures w.Some? ==> (w.value.status.Some? <==> Truthy(status))
    ensures w.Some? && Truthy(search) ==> w.value.search == search
    ensures w.Some? && Truthy(jenis) ==> w.value.jenis == jenis
    ensures w.Some? && Truthy(status) ==> w.value.status == ParseStatus(status)
  {
    if Truthy(status) && ParseStatus(status).None? then None
    else Some(Where(
      if Truthy(search) then search else None,
      if Truthy(jenis) then jenis else None,
      if Truthy(status) then ParseStatus(status) else None))
  }

  /**
   * A row satisfies a `where` when it meets every constraint present.
   * `contains(nama, needle)` is the store's substring match, whose case
   * rules belong to the database collation.
   */
  predicate Satisfies(w: Where, contains: (string, string) -> bool, g: Group)
  {
    && (w.search.Some? ==> contains(g.nama, w.search.value))
    && (w.jenis.Some? ==> g.jenis == w.jenis.value)
    && (w.status.Some? ==> g.status == w.status.value)
  }

  function Matcher(w: Where, contains: (string, string) -> bool): Group -> bool
  {
    g => Satisfies(w, contains, g)
  }

  function Reverse<T>(s: seq<T>): (r: seq<T>)
    ensures |r| == |s|
    ensures forall i :: 0 <= i < |s| ==> r[i] == s[|s| - 1 - i]
  {
    if s == [] then [] else Reverse(s[1..]) + [s[0]]
  }

  predicate OlderFirst(a: Group, b: Group)
  {
    a.createdAt < b.createdAt
  }

  /** The table keeps its rows in creation order, so newest first is the reverse. */
  function NewestFirst(rows: seq<Group>, w: Where, contains: (string, string) -> bool): seq<Group>
  {
    Reverse(Seqs.Filter(Matcher(w, contains), rows))
  }

  lemma NewestFirstSpec(rows: seq<Group>, w: Where, contains: (string, string) -> bool)
    requires Seqs.Sorted(OlderFirst, rows)
    ensures forall g :: g in NewestFirst(rows, w, contains) <==> g in rows && Satisfies(w, contains, g)
    ensures forall i, j :: 0 <= i < j < |NewestFirst(rows, w, contains)| ==>
      NewestFirst(rows, w, contains)[i].createdAt > NewestFirst(rows, w, contains)[j].createdAt
  {
    var f := Seqs.Filter(Matcher(w, contains), rows);
    Seqs.FilterKeepsSorted(OlderFirst, Matcher(w, contains), rows);
    ReverseNewestFirst(f);
    forall g ensures g in NewestFirst(rows, w, contains) <==> g in rows && Satisfies(w, contains, g) {
      Seqs.FilterMembership(Matcher(w, contains), rows, g);
      ReverseSameElements(f, g);
    }
  }

  lemma ReverseSameElements<T>(s: seq<T>, x: T)
    ensures x in Reverse(s) <==> x in s
  {
    if x in s {
      var i :| 0 <= i < |s| && s[i] == x;
      assert Reverse(s)[|s| - 1 - i] == x;
    }
  }

  /** Reversing rows in creation order lists them with strictly decreasing stamps. */
  lemma ReverseNewestFirst(f: seq<Group>)
    requires Seqs.Sorted(OlderFirst, f)
    ensures forall i, j :: 0 <= i < j < |Reverse(f)| ==> Reverse(f)[i].createdAt > Reverse(f)[j].createdAt
  {
    forall i, j | 0 <= i < j < |Reverse(f)| ensures Reverse(f)[i].createdAt > Reverse(f)[j].createdAt {
      assert OlderFirst(f[|f| - 1 - j], f[|f| - 1 - i]);
    }
  }

  // --------------------------------------------------------------- table

  /** Ids are below the next id, stamps below the clock, and both increase along the rows. */
  ghost predicate ValidRows(rows: seq<Group>, nextId: nat, clock: nat)
  {
    && (forall i :: 0 <= i < |rows| ==> rows[i].id < nextId && rows[i].createdAt < clock)
    && (forall i, j :: 0 <= i < j < |rows| ==> rows[i].id < rows[j].id)
    && Seqs.Sorted(OlderFirst, rows)
  }

  /** Removing a row keeps the table valid and leaves no other row with its id. */
  lemma RemoveRow(rows: seq<Group>, k: nat, nextId: nat, clock: nat)
    requires ValidRows(rows, nextId, clock) && k < |rows|
    ensures ValidRows(rows[..k] + rows[k + 1..], nextId, clock)
    ensures forall g :: g in rows[..k] + rows[k + 1..] ==> g.id != rows[k].id
  {
    var rest := rows[..k] + rows[k + 1..];
    assert |rest| == |rows| - 1;
    assert forall i :: 0 <= i < |rest| ==> rest[i] == rows[if i < k then i else i + 1];
  }

  /** The group table, with the id sequence and the clock that stamp new rows. */
  class GroupTable {
    var rows: seq<Group>
    var nextId: nat
    var clock: nat
    /** The status a new row gets from the schema default. */
    const defaultStatus: Status

    ghost predicate Valid()
      reads this
    {
      ValidRows(rows, nextId, clock)
    }

    constructor (defaultStatus: Status)
      ensures Valid()
      ensures rows == [] && nextId == 1 && clock == 0
      ensures this.defaultStatus == defaultStatus
    {
      rows := [];
      nextId := 1;
      clock := 0;
      this.defaultStatus := defaultStatus;
    }

    /** Where the row named by the path id is, if the id is a number that some row has. */
    function Locate(id: string): (k: Option<nat>)
      reads this
      ensures k.Some? ==> k.value < |rows| && ParseId(id) == Some(rows[k.value].id)
      ensures k.None? ==> forall i :: 0 <= i < |rows| ==> ParseId(id) != Some(rows[i].id)
    {
      match ParseId(id)
      case None => None
      case Some(n) => IndexOfId(rows, n)
    }

    /** getGroups: the rows that satisfy every filter given, newest first. */
    function Listing(search: Option<string>, jenis: Option<string>, status: Option<string>,
                     contains: (string, string) -> bool): (r: Reply)
      reads this
      requires Valid()
      ensures r.code == 200 || r == Reply(500, ErrorJson(InvalidStatusFilter))
      ensures r.code == 500 <==> Truthy(status) && ParseStatus(status).None?
      ensures r.code == 200 ==> r.body.GroupListJson?
      ensures r.code == 200 ==> forall g :: g in r.body.groups <==>
        && g in rows
        && (Truthy(search) ==> contains(g.nama, search.value))
        && (Truthy(jenis) ==> g.jenis == jenis.value)
        && (Truthy(status) ==> Some(g.status) == ParseStatus(status))
      ensures r.code == 200 ==> forall i, j :: 0 <= i < j < |r.body.groups| ==>
        r.body.groups[i].createdAt > r.body.groups[j].createdAt
    {
      match WhereOf(search, jenis, status)
      case None => Reply(500, ErrorJson(InvalidStatusFilter))
      case Some(w) =>
        NewestFirstSpec(rows, w, contains);
        Reply(200, GroupListJson(NewestFirst(rows, w, contains)))
    }

    /** createGroup. */
    method Create(nama: Option<string>, link: Option<string>, jenis: Option<string>) returns (r: Reply)
      requires Valid()
      modifies this
      ensures Valid()
      ensures !(Truthy(nama) && Truthy(link) && Truthy(jenis)) ==>
        && r == Reply(400, ErrorJson(MissingFields))
        && rows == old(rows) && nextId == old(nextId) && clock == old(clock)
      ensures Truthy(nama) && Truthy(link) && Truthy(jenis) ==>
        && r == Reply(201, GroupJson(Group(old(nextId), nama.value, link.value, jenis.value,
                                           defaultStatus, old(clock))))
        && rows == old(rows) + [r.body.group]
        && nextId == old(nextId) + 1 && clock == old(clock) + 1
      ensures r.code == 201 ==> forall g :: g in old(rows) ==> g.id != r.body.group.id
    {
      if !Truthy(nama) || !Truthy(link) || !Truthy(jenis) {
        r := Reply(400, ErrorJson(MissingFields));
        return;
      }
      var g := Group(nextId, nama.value, link.value, jenis.value, defaultStatus, clock);
      rows := rows + [g];
      nextId := nextId + 1;
      clock := clock + 1;
      r := Reply(201, GroupJson(g));
    }

    /** updateGroup: writes the truthy fields of the body, and a status only when it is valid. */
    method Update(id: string, nama: Option<string>, link: Option<string>, jenis: Option<string>,
                  status: Option<string>) returns (r: Reply)
      requires Valid()
      modifies this
      ensures Valid() && nextId == old(nextId) && clock == old(clock)
      ensures old(Locate(id)).None? ==> r == Reply(500, ErrorJson(RecordNotFound)) && rows == old(rows)
      ensures old(Locate(id)).Some? ==>
        var k := old(Locate(id)).value;
        var g := Merge(old(rows)[k], PatchOf(nama, link, jenis, status));
        r == Reply(200, GroupJson(g)) && rows == old(rows)[k := g]
    {
      var data := Patch(None, None, None, None);
      if Truthy(nama) { data := data.(nama := nama); }
      if Truthy(link) { data := data.(link := link); }
      if Truthy(jenis) { data := data.(jenis := jenis); }
      if Truthy(status) && ParseStatus(status).Some? {
        data := data.(status := ParseStatus(status));
      }
      var k := Locate(id);
      if k.None? {
        r := Reply(500, ErrorJson(RecordNotFound));
        return;
      }
      var g := Merge(rows[k.value], data);
      rows := rows[k.value := g];
      r := Reply(200, GroupJson(g));
    }

    /** deleteGroup. */
    method Delete(id: string) returns (r: Reply)
      requires Valid()
      modifies this
      ensures Valid() && nextId == old(nextId) && clock == old(clock)
      ensures old(Locate(id)).None? ==> r == Reply(500, ErrorJson(RecordNotFound)) && rows == old(rows)
      ensures old(Locate(id)).Some? ==>
        var k := old(Locate(id)).value;
        r == Reply(204, Empty) && rows == old(rows[..k] + rows[k + 1..])
      ensures Locate(id).None?
    {
      var k := Locate(id);
      if k.None? {
        r := Reply(500, ErrorJson(RecordNotFound));
        return;
      }
      RemoveRow(rows, k.value, nextId, clock);
      rows := rows[..k.value] + rows[k.value + 1..];
      r := Reply(204, Empty);
    }

    /** changeGroupStatus: the status is checked before the id. */
    method ChangeStatus(id: string, status: Option<string>) returns (r: Reply)
      requires Valid()
      modifies this
      ensures Valid() && nextId == old(nextId) && clock == old(clock)
      ensures ParseStatus(status).None? ==>
        r == Reply(400, ErrorJson(InvalidStatus)) && rows == old(rows)
      ensures ParseStatus(status).Some? && old(Locate(id)).None? ==>
        r == Reply(500, ErrorJson(RecordNotFound)) && rows == old(rows)
      ensures ParseStatus(status).Some? && old(Locate(id)).Some? ==>
        var k := old(Locate(id)).value;
        var g := old(rows)[k].(status := ParseStatus(status).value);
        r == Reply(200, GroupJson(g)) && rows == old(rows)[k := g]
    {
      var s := ParseStatus(status);
      if s.None? {
        r := Reply(400, ErrorJson(InvalidStatus));
        return;
      }
      var k := Locate(id);
      if k.None? {
        r := Reply(500, ErrorJson(RecordNotFound));
        return;
      }
      var g := rows[k.value].(status := s.value);
      rows := rows[k.value := g];
      r := Reply(200, GroupJson(g));
    }
  }

  // ------------------------------------------------------ update lemmas

  /** A field is written exactly when its incoming value is truthy; id and stamp never change. */
  lemma UpdateWritesOnlyTruthy(g: Group, nama: Option<string>, link: Option<string>,
                               jenis: Option<string>, status: Option<string>)
    ensures var h := Merge(g, PatchOf(nama, link, jenis, status));
      && h.id == g.id && h.createdAt == g.createdAt
      && h.nama == (if Truthy(nama) then nama.value else g.nama)
      && h.link == (if Truthy(link) then link.value else g.link)
      && h.jenis == (if Truthy(jenis) then jenis.value else g.jenis)
      && h.status == (if ParseStatus(status).Some? then ParseStatus(status).value else g.status)
  {
  }

  /** An invalid status is dropped; the other fields of the same body are still written. */
  lemma InvalidStatusDropped(g: Group, nama: Option<string>, link: Option<string>,
                             jenis: Option<string>, status: Option<string>)
    requires ParseStatus(status).None?
    ensures Merge(g, PatchOf(nama, link, jenis, status)) == Merge(g, PatchOf(nama, link, jenis, None))
    ensures Merge(g, PatchOf(nama, link, jenis, status)).status == g.status
  {
  }

  /** An update with no truthy field leaves the row as it is. */
  lemma EmptyUpdateIsIdentity(g: Group, nama: Option<string>, link: Option<string>,
                              jenis: Option<string>, status: Option<string>)
    requires !Truthy(nama) && !Truthy(link) && !Truthy(jenis) && ParseStatus(status).None?
    ensures Merge(g, PatchOf(nama, link, jenis, status)) == g
  {
  }

  /** Sending the same update twice has the effect of sending it once. */
  lemma UpdateIdempotent(g: Group, p: Patch)
    ensures Merge(Merge(g, p), p) == Merge(g, p)
  {
  }

  /** An update carrying only a valid status does what changeGroupStatus does. */
  lemma StatusOnlyUpdateIsStatusChange(g: Group, status: Option<string>)
    requires ParseStatus(status).Some?
    ensures Merge(g, PatchOf(None, None, None, status)) == g.(status := ParseStatus(status).value)
  {
  }

  // ----------------------------------------------------------- scenarios

  /** Deleting the same id twice: the second call always fails. */
  method DeleteTwice(t: GroupTable, id: string) returns (first: Reply, second: Reply)
    requires t.Valid()
    modifies t
    ensures t.Valid()
    ensures first.code == 204 <==> old(t.Locate(id)).Some?
    ensures second == Reply(500, ErrorJson(RecordNotFound))
  {
    first := t.Delete(id);
    second := t.Delete(id);
  }

  /**
   * Create a row, set its status, find it in the listing with the new
   * status, delete it, and fail to delete it again.
   */
  method Lifecycle(t: GroupTable, contains: (string, string) -> bool)
    returns (created: Reply, changed: Reply, listed: Reply, deleted: Reply, again: Reply)
    requires t.Valid()
    modifies t
    ensures created.code == 201 && created.body.GroupJson?
    ensures created.body.group.status == t.defaultStatus
    ensures changed.code == 200 && changed.body.GroupJson? && changed.body.group.status == NONAKTIF
    ensures changed.body.group.id == created.body.group.id
    ensures listed.code == 200 && listed.body.GroupListJson?
    ensures changed.body.group in listed.body.groups
    ensures deleted.code == 204 && again.code == 500
  {
    created := t.Create(Some("UT Manajemen"), Some("https://wa.link/xxx"), Some("MABA"));
    var id := Decimal(created.body.group.id);
    ParseDecimal(created.body.group.id);
    assert t.rows[|t.rows| - 1] == created.body.group;
    var k := t.Locate(id).value;
    changed := t.ChangeStatus(id, Some("NONAKTIF"));
    assert t.rows[k] == changed.body.group;
    listed := t.Listing(None, None, None, contains);
    deleted := t.Delete(id);
    again := t.Delete(id);
  }
}
