/**
 * The link store behind the five route handlers of functions/ExpressRoutes.js.
 *
 * The document database is modelled as two pieces of state:
 *  - `users`: the user documents of the "users" collection, in the order a
 *    listing of that collection returns them;
 *  - `links`: for each user id, that user's "ownerData" sub-collection of link
 *    records, in the order a listing or a query returns them. A user id with no
 *    entry has an empty sub-collection.
 * Both are kept apart because adding a record under users/<uid>/ownerData does
 * not create the user document: records of a user id that is not listed are
 * invisible to the scans that walk the user listing.
 */
module LinkStore {

  import opened Wrappers

  /** The prefix of every short link. */
  const Base: string := "https://swift-short.netlify.app/"

  type UserId = string

  /** One document of an ownerData sub-collection. */
  datatype Link = Link(originalUrl: string, urlCode: string, shortUrl: string, clicks: nat, date: string)

  /** A record's place: its owner's index in `users`, and its index in that owner's sub-collection. */
  datatype Position = Position(user: nat, index: nat)

  datatype UpdateError =
    | UserNotFound  // 404 "User not found"
    | UrlNotFound   // 404 "URL not found"
    | CodeTaken     // 400 "Custom code already exists."

  datatype UpdateResult = Updated(link: Link) | Rejected(error: UpdateError)

  // ---------------------------------------------------------------------------
  // The state, read through its sub-collections

  function Owned(links: map<UserId, seq<Link>>, uid: UserId): seq<Link> {
    if uid in links then links[uid] else []
  }

  predicate Distinct(users: seq<UserId>) {
    forall i, j | 0 <= i < j < |users| :: users[i] != users[j]
  }

  /** Every stored short link is the base followed by the record's code. */
  ghost predicate ShortUrlsMatch(links: map<UserId, seq<Link>>) {
    forall u, j | 0 <= j < |Owned(links, u)| :: Owned(links, u)[j].shortUrl == Base + Owned(links, u)[j].urlCode
  }

  predicate IsPosition(users: seq<UserId>, links: map<UserId, seq<Link>>, p: Position) {
    p.user < |users| && p.index < |Owned(links, users[p.user])|
  }

  function RecordAt(users: seq<UserId>, links: map<UserId, seq<Link>>, p: Position): Link
    requires IsPosition(users, links, p)
  {
    Owned(links, users[p.user])[p.index]
  }

  /** No two records of listed users share a code. */
  ghost predicate UniqueCodes(users: seq<UserId>, links: map<UserId, seq<Link>>) {
    forall p, q |
      && IsPosition(users, links, p) && IsPosition(users, links, q)
      && RecordAt(users, links, p).urlCode == RecordAt(users, links, q).urlCode
      :: p == q
  }

  /**
   * A query `where("urlCode", "==", code)` on one sub-collection is non-empty:
   * some record, in listing order, carries the code.
   */
  predicate HasCode(recs: seq<Link>, code: string): (b: bool)
    ensures b <==> exists j | 0 <= j < |recs| :: recs[j].urlCode == code
  {
    |recs| > 0 && (recs[0].urlCode == code || HasCode(recs[1..], code))
  }

  /**
   * The verdict of create's scan over the user listing: some listed user's
   * sub-collection holds a record with this code.
   */
  predicate InUse(users: seq<UserId>, links: map<UserId, seq<Link>>, code: string): (b: bool)
    ensures b <==> exists i | 0 <= i < |users| :: HasCode(Owned(links, users[i]), code)
  {
    |users| > 0 && (HasCode(Owned(links, users[0]), code) || InUse(users[1..], links, code))
  }

  /** The index of the first record with this code: the first document a query by code returns. */
  function FirstIndex(recs: seq<Link>, code: string): (r: Option<nat>)
    ensures r.None? <==> !HasCode(recs, code)
    ensures r.Some? ==> r.value < |recs| && recs[r.value].urlCode == code
    ensures r.Some? ==> forall j | 0 <= j < r.value :: recs[j].urlCode != code
  {
    if |recs| == 0 then None
    else if recs[0].urlCode == code then Some(0)
    else match FirstIndex(recs[1..], code)
      case None => None
      case Some(k) => Some(k + 1)
  }

  // ---------------------------------------------------------------------------
  // Create: drawing a code no listed user holds

  /**
   * The index of the first candidate, from `from` on, that no listed user's
   * sub-collection holds: every candidate before it is drawn and discarded.
   */
  function FirstFree(users: seq<UserId>, links: map<UserId, seq<Link>>, candidates: seq<string>, from: nat): (r: Option<nat>)
    requires from <= |candidates|
    ensures r.Some? ==> from <= r.value < |candidates| && !InUse(users, links, candidates[r.value])
    ensures r.Some? ==> forall j | from <= j < r.value :: InUse(users, links, candidates[j])
    ensures r.None? ==> forall j | from <= j < |candidates| :: InUse(users, links, candidates[j])
    decreases |candidates| - from
  {
    if from == |candidates| then None
    else if !InUse(users, links, candidates[from]) then Some(from)
    else FirstFree(users, links, candidates, from + 1)
  }

  /** The record a create writes: zero clicks and the short link built from the code. */
  function NewLink(originalUrl: string, code: string, date: string): (r: Link)
    ensures r.originalUrl == originalUrl && r.urlCode == code && r.date == date
    ensures r.clicks == 0 && r.shortUrl == Base + r.urlCode
  {
    Link(originalUrl, code, Base + code, 0, date)
  }

  /** `links` after one record is added at the end of `uid`'s sub-collection. */
  function Append(links: map<UserId, seq<Link>>, uid: UserId, link: Link): (r: map<UserId, seq<Link>>)
    ensures Owned(r, uid) == Owned(links, uid) + [link]
    ensures forall u | u != uid :: Owned(r, u) == Owned(links, u)
  {
    links[uid := Owned(links, uid) + [link]]
  }

  // ---------------------------------------------------------------------------
  // Details and resolve: the scan over users, then records

  /**
   * The details scan from user index `i` on: the first listed user whose
   * sub-collection holds the code, at that sub-collection's first such record.
   */
  function FindFrom(users: seq<UserId>, links: map<UserId, seq<Link>>, code: string, i: nat): (r: Option<Position>)
    requires i <= |users|
    ensures r.Some? ==> i <= r.value.user < |users|
    ensures r.Some? ==> FirstIndex(Owned(links, users[r.value.user]), code) == Some(r.value.index)
    ensures r.Some? ==> forall q | i <= q < r.value.user :: !HasCode(Owned(links, users[q]), code)
    ensures r.None? <==> forall q | i <= q < |users| :: !HasCode(Owned(links, users[q]), code)
    decreases |users| - i
  {
    if i == |users| then None
    else match FirstIndex(Owned(links, users[i]), code)
      case Some(k) => Some(Position(i, k))
      case None => FindFrom(users, links, code, i + 1)
  }

  /**
   * The resolve scan from user index `i` on. Each user's sub-collection is
   * searched up to its first record with the code; the scan stops at the first
   * such record whose original URL is non-empty. A record with an empty URL
   * does not stop it: the next users are searched.
   */
  function ResolveFrom(users: seq<UserId>, links: map<UserId, seq<Link>>, code: string, i: nat): (r: Option<Position>)
    requires i <= |users|
    ensures r.Some? ==> i <= r.value.user < |users|
    ensures r.Some? ==> FirstIndex(Owned(links, users[r.value.user]), code) == Some(r.value.index)
    ensures r.Some? ==> RecordAt(users, links, r.value).originalUrl != ""
    ensures forall q | i <= q < (if r.Some? then r.value.user else |users|) ::
              match FirstIndex(Owned(links, users[q]), code)
              case None => true
              case Some(k) => Owned(links, users[q])[k].originalUrl == ""
    decreases |users| - i
  {
    if i == |users| then None
    else match FirstIndex(Owned(links, users[i]), code)
      case Some(k) =>
        if Owned(links, users[i])[k].originalUrl != "" then Some(Position(i, k))
        else ResolveFrom(users, links, code, i + 1)
      case None => ResolveFrom(users, links, code, i + 1)
  }

  /** `links` after the record at index `k` of `uid`'s sub-collection gains one click. */
  function Bump(links: map<UserId, seq<Link>>, uid: UserId, k: nat): (r: map<UserId, seq<Link>>)
    requires k < |Owned(links, uid)|
    ensures |Owned(r, uid)| == |Owned(links, uid)|
    ensures Owned(r, uid)[k] == Owned(links, uid)[k].(clicks := Owned(links, uid)[k].clicks + 1)
    ensures forall j | 0 <= j < |Owned(r, uid)| && j != k :: Owned(r, uid)[j] == Owned(links, uid)[j]
    ensures forall u | u != uid :: Owned(r, u) == Owned(links, u)
  {
    var recs := Owned(links, uid);
    links[uid := recs[k := recs[k].(clicks := recs[k].clicks + 1)]]
  }

  // ---------------------------------------------------------------------------
  // Delete and update: queries on the caller's own sub-collection

  /** `links` after the record at index `k` of `uid`'s sub-collection is deleted. */
  function RemoveAt(links: map<UserId, seq<Link>>, uid: UserId, k: nat): (r: map<UserId, seq<Link>>)
    requires k < |Owned(links, uid)|
    ensures |Owned(r, uid)| == |Owned(links, uid)| - 1
    ensures forall j | 0 <= j < k :: Owned(r, uid)[j] == Owned(links, uid)[j]
    ensures forall j | k <= j < |Owned(r, uid)| :: Owned(r, uid)[j] == Owned(links, uid)[j + 1]
    ensures forall u | u != uid :: Owned(r, u) == Owned(links, u)
  {
    var recs := Owned(links, uid);
    links[uid := recs[..k] + recs[k + 1..]]
  }

  /** A record after its code is changed: the short link follows the code, the rest stays. */
  function Recoded(link: Link, newCode: string): (r: Link)
    ensures r.urlCode == newCode && r.shortUrl == Base + newCode
    ensures r.originalUrl == link.originalUrl && r.clicks == link.clicks && r.date == link.date
  {
    link.(urlCode := newCode, shortUrl := Base + newCode)
  }

  /** `links` after the record at index `k` of `uid`'s sub-collection gets a new code. */
  function Rename(links: map<UserId, seq<Link>>, uid: UserId, k: nat, newCode: string): (r: map<UserId, seq<Link>>)
    requires k < |Owned(links, uid)|
    ensures |Owned(r, uid)| == |Owned(links, uid)|
    ensures Owned(r, uid)[k] == Recoded(Owned(links, uid)[k], newCode)
    ensures forall j | 0 <= j < |Owned(r, uid)| && j != k :: Owned(r, uid)[j] == Owned(links, uid)[j]
    ensures forall u | u != uid :: Owned(r, u) == Owned(links, u)
  {
    var recs := Owned(links, uid);
    links[uid := recs[k := Recoded(recs[k], newCode)]]
  }

  /**
   * What an update answers, checking in order: the user document exists, the
   * caller has a record with `code`, and the caller has no record with
   * `newCode`. Only the caller's records are looked at.
   */
  function UpdateOutcome(users: seq<UserId>, links: map<UserId, seq<Link>>, uid: UserId, code: string, newCode: string): (r: UpdateResult)
    ensures r == Rejected(UserNotFound) <==> uid !in users
    ensures r == Rejected(UrlNotFound) <==> uid in users && !HasCode(Owned(links, uid), code)
    ensures r == Rejected(CodeTaken) <==>
              uid in users && HasCode(Owned(links, uid), code) && HasCode(Owned(links, uid), newCode)
    ensures r.Updated? ==>
              && HasCode(Owned(links, uid), code)
              && r.link == Recoded(Owned(links, uid)[FirstIndex(Owned(links, uid), code).value], newCode)
  {
    if uid !in users then Rejected(UserNotFound)
    else match FirstIndex(Owned(links, uid), code)
      case None => Rejected(UrlNotFound)
      case Some(k) =>
        if FirstIndex(Owned(links, uid), newCode).Some? then Rejected(CodeTaken)
        else Updated(Recoded(Owned(links, uid)[k], newCode))
  }
}
