/**
 * The values the API handlers of server/src/api.ts exchange: the persisted
 * Group record, its status enumeration, and the HTTP replies (a status code
 * and a JSON body).
 */
module ApiTypes {
  import opened Wrappers

  /** The two values of the `GroupStatus` enumeration. */
  datatype Status = AKTIF | NONAKTIF

  /** A row of the group table. */
  datatype Group = Group(
    id: nat,
    nama: string,
    link: string,
    jenis: string,
    status: Status,
    createdAt: nat)

  /** The JSON bodies the handlers send. */
  datatype Json =
    | GroupJson(group: Group)
    | GroupListJson(groups: seq<Group>)
    | TokenJson(token: string)
    | TitleJson(title: string)
    | ErrorJson(error: string)
    | Empty

  datatype Reply = Reply(code: int, body: Json)

  /** JavaScript truthiness of a request field that is absent or a string. */
  predicate Truthy(v: Option<string>)
  {
    v.Some? && v.value != ""
  }

  /**
   * `["AKTIF", "NONAKTIF"].includes(v)`: the status a request field names,
   * if it names one.
   */
  function ParseStatus(v: Option<string>): (r: Option<Status>)
    ensures r.Some? <==> v == Some("AKTIF") || v == Some("NONAKTIF")
    ensures r == Some(AKTIF) <==> v == Some("AKTIF")
  {
    if v == Some("AKTIF") then Some(AKTIF)
    else if v == Some("NONAKTIF") then Some(NONAKTIF)
    else None
  }

  /** The name a status has on the wire. */
  function StatusName(s: Status): string
  {
    match s
    case AKTIF => "AKTIF"
    case NONAKTIF => "NONAKTIF"
  }

  /** A status written by its wire name reads back as itself. */
  lemma StatusRoundTrip(s: Status)
    ensures ParseStatus(Some(StatusName(s))) == Some(s)
  {
  }
}
