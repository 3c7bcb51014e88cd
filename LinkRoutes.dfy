/**
 * The route handlers of functions/ExpressRoutes.js as methods of a store
 * object: POST /shortenurl (Create), GET /:urlCode (Resolve), GET
 * /details/:urlCode (Details), DELETE /deleteurl/:urlCode (Delete) and PUT
 * /updateurl/:urlCode (Update). The caller's user id is a parameter; the code
 * generator is a finite sequence of candidate codes; the date is the clock
 * reading's day, 0-based month and year.
 */
module LinkRoutes {

  import opened Wrappers
  import opened LinkStore
  import LinkProperties
  import DateFormat

  /**
   * The inner loop of the resolve and details scans: walks one user's records
   * and stops at the first with the code.
   */
  method ScanRecords(recs: seq<Link>, code: string) returns (k: Option<nat>)
    ensures k == FirstIndex(recs, code)
  {
    var j := 0;
    while j < |recs|
      invariant 0 <= j <= |recs|
      invariant forall j' | 0 <= j' < j :: recs[j'].urlCode != code
    {
      if recs[j].urlCode == code {
        return Some(j);
      }
      j := j + 1;
    }
    return None;
  }

  class Store {
    var users: seq<UserId>
    var links: map<UserId, seq<Link>>

    ghost predicate Valid()
      reads this
    {
      Distinct(users) && ShortUrlsMatch(links)
    }

    constructor (users: seq<UserId>, links: map<UserId, seq<Link>>)
      requires Distinct(users) && ShortUrlsMatch(links)
      ensures Valid() && this.users == users && this.links == links
    {
      this.users := users;
      this.links := links;
    }

    /**
     * The uniqueness check of POST /shortenurl for one drawn code: walks the
     * user listing and queries each user's records by the code, stopping at
     * the first user that holds it.
     */
    method IsUnique(urlCode: string) returns (isUnique: bool)
      ensures isUnique <==> !InUse(users, links, urlCode)
    {
      isUnique := true;
      var i := 0;
      while i < |users|
        invariant 0 <= i <= |users|
        invariant isUnique ==> forall q | 0 <= q < i :: !HasCode(Owned(links, users[q]), urlCode)
        invariant !isUnique ==> InUse(users, links, urlCode)
      {
        if HasCode(Owned(links, users[i]), urlCode) {
          isUnique := false;
          break;
        }
        i := i + 1;
      }
    }

    /**
     * The retry loop of POST /shortenurl: draws candidates in order until one
     * is held by no listed user. None when the candidates run out.
     */
    method DrawUniqueCode(candidates: seq<string>) returns (code: Option<string>)
      ensures match FirstFree(users, links, candidates, 0)
              case None => code.None?
              case Some(k) => code == Some(candidates[k])
    {
      var n := 0;
      var urlCode := "";
      var isUnique := false;
      while !isUnique
        invariant 0 <= n <= |candidates|
        invariant !isUnique ==> FirstFree(users, links, candidates, 0) == FirstFree(users, links, candidates, n)
        invariant isUnique ==> 0 < n && FirstFree(users, links, candidates, 0) == Some(n - 1) && urlCode == candidates[n - 1]
        decreases |candidates| - n
      {
        if n == |candidates| {
          return None;
        }
        urlCode := candidates[n];
        n := n + 1;
        isUnique := IsUnique(urlCode);
      }
      code := Some(urlCode);
    }

    /**
     * POST /shortenurl for user `uid`: draws a code held by no listed user and
     * adds a record for it at the end of the caller's sub-collection, stamped
     * with the given date. Answers the new short link.
     */
    method Create(uid: UserId, originalUrl: string, candidates: seq<string>, day: nat, month: nat, year: int)
      returns (shortUrl: Option<string>)
      requires Valid()
      modifies this
      ensures Valid() && users == old(users)
      ensures match FirstFree(old(users), old(links), candidates, 0)
              case None => shortUrl.None? && links == old(links)
              case Some(k) =>
                && shortUrl == Some(Base + candidates[k])
                && links == Append(old(links), uid, NewLink(originalUrl, candidates[k], DateFormat.FormatDate(day, month, year)))
      ensures old(UniqueCodes(users, links)) ==> UniqueCodes(users, links)
    {
      var code := DrawUniqueCode(candidates);
      if code.None? {
        return None;
      }
      var link := NewLink(originalUrl, code.value, DateFormat.FormatDate(day, month, year));
      LinkProperties.AppendKeepsShortUrls(links, uid, link);
      if UniqueCodes(users, links) {
        LinkProperties.CreateKeepsCodesUnique(users, links, uid, link);
      }
      links := Append(links, uid, link);
      shortUrl := Some(link.shortUrl);
    }

    /**
     * The scan of GET /:urlCode over users, then their records. Answers the
     * values its two variables end with: the original URL and the position of
     * the record the scan stopped at, or values whose URL is absent or empty.
     */
    method ResolveScan(code: string) returns (originalUrl: Option<string>, urlDocRef: Option<Position>)
      ensures match ResolveFrom(users, links, code, 0)
              case None => originalUrl.None? || originalUrl.value == ""
              case Some(p) => originalUrl == Some(RecordAt(users, links, p).originalUrl) && urlDocRef == Some(p)
    {
      originalUrl := None;
      urlDocRef := None;
      var i := 0;
      while i < |users|
        invariant 0 <= i <= |users|
        invariant originalUrl.None? || originalUrl.value == ""
        invariant ResolveFrom(users, links, code, 0) == ResolveFrom(users, links, code, i)
      {
        var recs := Owned(links, users[i]);
        var k := ScanRecords(recs, code);
        if k.Some? {
          originalUrl := Some(recs[k.value].originalUrl);
          urlDocRef := Some(Position(i, k.value));
        }
        if originalUrl.Some? && originalUrl.value != "" {
          break;
        }
        i := i + 1;
      }
    }

    /**
     * GET /:urlCode: adds one click to the record the scan stopped at and
     * answers its original URL; None is the 404.
     */
    method Resolve(code: string) returns (target: Option<string>)
      requires Valid()
      modifies this
      ensures Valid() && users == old(users)
      ensures match ResolveFrom(old(users), old(links), code, 0)
              case None => target.None? && links == old(links)
              case Some(p) =>
                && target == Some(RecordAt(old(users), old(links), p).originalUrl)
                && links == Bump(old(links), old(users)[p.user], p.index)
      ensures old(UniqueCodes(users, links)) ==> UniqueCodes(users, links)
    {
      var originalUrl, urlDocRef := ResolveScan(code);
      if originalUrl.Some? && originalUrl.value != "" && urlDocRef.Some? {
        var p := urlDocRef.value;
        LinkProperties.BumpKeepsShortUrls(links, users[p.user], p.index);
        if UniqueCodes(users, links) {
          LinkProperties.ResolveKeepsCodesUnique(users, links, users[p.user], p.index);
        }
        links := Bump(links, users[p.user], p.index);
        target := originalUrl;
      } else {
        target := None;
      }
    }

    /** GET /details/:urlCode: the first record with the code, or None (404). */
    method Details(code: string) returns (found: Option<Link>)
      ensures match FindFrom(users, links, code, 0)
              case None => found.None?
              case Some(p) => found == Some(RecordAt(users, links, p))
    {
      var foundUrl: Option<Link> := None;
      var i := 0;
      while i < |users|
        invariant 0 <= i <= |users|
        invariant foundUrl.None?
        invariant FindFrom(users, links, code, 0) == FindFrom(users, links, code, i)
      {
        var recs := Owned(links, users[i]);
        var k := ScanRecords(recs, code);
        if k.Some? {
          foundUrl := Some(recs[k.value]);
        }
        if foundUrl.Some? {
          break;
        }
        i := i + 1;
      }
      found := foundUrl;
    }

    /**
     * DELETE /deleteurl/:urlCode for user `uid`: removes the first record with
     * the code from the caller's own sub-collection; false is the 404.
     */
    method Delete(uid: UserId, code: string) returns (deleted: bool)
      requires Valid()
      modifies this
      ensures Valid() && users == old(users)
      ensures match FirstIndex(Owned(old(links), uid), code)
              case None => !deleted && links == old(links)
              case Some(k) => deleted && links == RemoveAt(old(links), uid, k)
      ensures old(UniqueCodes(users, links)) ==> UniqueCodes(users, links)
    {
      var k := FirstIndex(Owned(links, uid), code);
      if k.None? {
        return false;
      }
      LinkProperties.RemoveAtKeepsShortUrls(links, uid, k.value);
      if UniqueCodes(users, links) {
        LinkProperties.DeleteKeepsCodesUnique(users, links, uid, k.value);
      }
      links := RemoveAt(links, uid, k.value);
      deleted := true;
    }

    /**
     * PUT /updateurl/:urlCode for user `uid`: gives the caller's first record
     * with `code` the code `newCode` and the matching short link, and answers
     * that record as now stored.
     */
    method Update(uid: UserId, code: string, newCode: string) returns (r: UpdateResult)
      requires Valid()
      modifies this
      ensures Valid() && users == old(users)
      ensures r == UpdateOutcome(old(users), old(links), uid, code, newCode)
      ensures r.Rejected? ==> links == old(links)
      ensures r.Updated? ==>
                var k := FirstIndex(Owned(old(links), uid), code).value;
                && links == Rename(old(links), uid, k, newCode)
                && r.link == Owned(links, uid)[k]
    {
      if uid !in users {
        return Rejected(UserNotFound);
      }
      var k := FirstIndex(Owned(links, uid), code);
      if k.None? {
        return Rejected(UrlNotFound);
      }
      var taken := FirstIndex(Owned(links, uid), newCode);
      if taken.Some? {
        return Rejected(CodeTaken);
      }
      var stored := Owned(links, uid)[k.value];
      LinkProperties.RenameKeepsShortUrls(links, uid, k.value, newCode);
      links := Rename(links, uid, k.value, newCode);
      r := Updated(Recoded(stored, newCode));
    }
  }
}
