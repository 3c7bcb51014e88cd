/**
 * Properties of the link store that relate several operations: global code
 * uniqueness across users and which operations keep it, what details and
 * resolve see after a create, a delete or an update, and where resolve and
 * details part ways.
 */
module LinkProperties {

  import opened Wrappers
  import opened LinkStore

  /** Position `p` holds the record a create adds at the end of `uid`'s sub-collection. */
  predicate IsAppended(users: seq<UserId>, links: map<UserId, seq<Link>>, uid: UserId, p: Position) {
    p.user < |users| && users[p.user] == uid && p.index == |Owned(links, uid)|
  }

  lemma InUseAt(users: seq<UserId>, links: map<UserId, seq<Link>>, p: Position)
    requires IsPosition(users, links, p)
    ensures InUse(users, links, RecordAt(users, links, p).urlCode)
  {
    var recs := Owned(links, users[p.user]);
    assert recs[p.index].urlCode == RecordAt(users, links, p).urlCode;
    assert HasCode(recs, RecordAt(users, links, p).urlCode);
  }

  // ---------------------------------------------------------------------------
  // Every stored short link stays the base followed by the record's code

  lemma AppendKeepsShortUrls(links: map<UserId, seq<Link>>, uid: UserId, link: Link)
    requires ShortUrlsMatch(links) && link.shortUrl == Base + link.urlCode
    ensures ShortUrlsMatch(Append(links, uid, link))
  {
    var after := Append(links, uid, link);
    forall u, j | 0 <= j < |Owned(after, u)|
      ensures Owned(after, u)[j].shortUrl == Base + Owned(after, u)[j].urlCode
    {
      if u == uid && j < |Owned(links, uid)| {
        assert Owned(after, u)[j] == Owned(links, u)[j];
      }
    }
  }

  lemma BumpKeepsShortUrls(links: map<UserId, seq<Link>>, uid: UserId, k: nat)
    requires ShortUrlsMatch(links) && k < |Owned(links, uid)|
    ensures ShortUrlsMatch(Bump(links, uid, k))
  {
    var after := Bump(links, uid, k);
    forall u, j | 0 <= j < |Owned(after, u)|
      ensures Owned(after, u)[j].shortUrl == Base + Owned(after, u)[j].urlCode
    {
      assert Owned(after, u)[j].shortUrl == Owned(links, u)[j].shortUrl;
      assert Owned(after, u)[j].urlCode == Owned(links, u)[j].urlCode;
    }
  }

  lemma RemoveAtKeepsShortUrls(links: map<UserId, seq<Link>>, uid: UserId, k: nat)
    requires ShortUrlsMatch(links) && k < |Owned(links, uid)|
    ensures ShortUrlsMatch(RemoveAt(links, uid, k))
  {
    var after := RemoveAt(links, uid, k);
    forall u, j | 0 <= j < |Owned(after, u)|
      ensures Owned(after, u)[j].shortUrl == Base + Owned(after, u)[j].urlCode
    {
      if u == uid && j >= k {
        assert Owned(after, u)[j] == Owned(links, u)[j + 1];
      } else {
        assert Owned(after, u)[j] == Owned(links, u)[j];
      }
    }
  }

  lemma RenameKeepsShortUrls(links: map<UserId, seq<Link>>, uid: UserId, k: nat, newCode: string)
    requires ShortUrlsMatch(links) && k < |Owned(links, uid)|
    ensures ShortUrlsMatch(Rename(links, uid, k, newCode))
  {
    var after := Rename(links, uid, k, newCode);
    forall u, j | 0 <= j < |Owned(after, u)|
      ensures Owned(after, u)[j].shortUrl == Base + Owned(after, u)[j].urlCode
    {
      if u != uid || j != k {
        assert Owned(after, u)[j] == Owned(links, u)[j];
      }
    }
  }

  // ---------------------------------------------------------------------------
  // Create

  /** A record of the state after a create is the added one, or one that was there before. */
  lemma AppendedRecord(users: seq<UserId>, links: map<UserId, seq<Link>>, uid: UserId, link: Link, p: Position)
    requires IsPosition(users, Append(links, uid, link), p)
    ensures IsAppended(users, links, uid, p) ==> RecordAt(users, Append(links, uid, link), p) == link
    ensures !IsAppended(users, links, uid, p) ==>
              && IsPosition(users, links, p)
              && RecordAt(users, Append(links, uid, link), p) == RecordAt(users, links, p)
              && InUse(users, links, RecordAt(users, links, p).urlCode)
  {
    if !IsAppended(users, links, uid, p) {
      InUseAt(users, links, p);
    }
  }

  /** Adding a record whose code no listed user holds keeps codes unique across listed users. */
  lemma CreateKeepsCodesUnique(users: seq<UserId>, links: map<UserId, seq<Link>>, uid: UserId, link: Link)
    requires Distinct(users) && UniqueCodes(users, links)
    requires !InUse(users, links, link.urlCode)
    ensures UniqueCodes(users, Append(links, uid, link))
  {
    var after := Append(links, uid, link);
    forall p, q |
      && IsPosition(users, after, p) && IsPosition(users, after, q)
      && RecordAt(users, after, p).urlCode == RecordAt(users, after, q).urlCode
      ensures p == q
    {
      AppendedRecord(users, links, uid, link, p);
      AppendedRecord(users, links, uid, link, q);
    }
  }

  /**
   * After a create by a listed user, the details scan for the new code finds
   * exactly the record the create wrote.
   */
  lemma CreatedLinkIsFound(users: seq<UserId>, links: map<UserId, seq<Link>>, uid: UserId, link: Link)
    requires uid in users
    requires !InUse(users, links, link.urlCode)
    ensures var after := Append(links, uid, link);
            var r := FindFrom(users, after, link.urlCode, 0);
            r.Some? && RecordAt(users, after, r.value) == link
  {
    var after := Append(links, uid, link);
    var u :| 0 <= u < |users| && users[u] == uid;
    assert Owned(after, uid)[|Owned(links, uid)|].urlCode == link.urlCode;
    assert HasCode(Owned(after, users[u]), link.urlCode);
    var r := FindFrom(users, after, link.urlCode, 0);
    AppendedRecord(users, links, uid, link, r.value);
  }

  // ---------------------------------------------------------------------------
  // Resolve

  /** A resolve changes no code, so codes stay unique. */
  lemma ResolveKeepsCodesUnique(users: seq<UserId>, links: map<UserId, seq<Link>>, uid: UserId, k: nat)
    requires k < |Owned(links, uid)|
    requires UniqueCodes(users, links)
    ensures UniqueCodes(users, Bump(links, uid, k))
  {
    var after := Bump(links, uid, k);
    forall p, q |
      && IsPosition(users, after, p) && IsPosition(users, after, q)
      && RecordAt(users, after, p).urlCode == RecordAt(users, after, q).urlCode
      ensures p == q
    {
      assert IsPosition(users, links, p) && RecordAt(users, after, p).urlCode == RecordAt(users, links, p).urlCode;
      assert IsPosition(users, links, q) && RecordAt(users, after, q).urlCode == RecordAt(users, links, q).urlCode;
    }
  }

  /**
   * While codes are unique, resolve stops at the record details reports, and
   * it reports not-found exactly when details does or that record's original
   * URL is empty.
   */
  lemma ResolveAgreesWithDetails(users: seq<UserId>, links: map<UserId, seq<Link>>, code: string)
    requires UniqueCodes(users, links)
    ensures ResolveFrom(users, links, code, 0) ==
              match FindFrom(users, links, code, 0)
              case None => None
              case Some(p) => if RecordAt(users, links, p).originalUrl != "" then Some(p) else None
  {
    var found := FindFrom(users, links, code, 0);
    var resolved := ResolveFrom(users, links, code, 0);
    if resolved.Some? {
      var r := resolved.value;
      assert HasCode(Owned(links, users[r.user]), code);
      var p := found.value;
      assert RecordAt(users, links, r).urlCode == RecordAt(users, links, p).urlCode;
    } else if found.Some? {
      var p := found.value;
      assert FirstIndex(Owned(links, users[p.user]), code) == Some(p.index);
    }
  }

  /**
   * Without unique codes the two scans can part: an empty original URL under
   * the first user lets resolve go on to a second user holding the same code,
   * while details stops at the first.
   */
  lemma ResolveSkipsEmptyUrl()
    ensures var users := ["a", "b"];
            var links := map["a" := [NewLink("", "c", "d")], "b" := [NewLink("x", "c", "d")]];
            && FindFrom(users, links, "c", 0) == Some(Position(0, 0))
            && ResolveFrom(users, links, "c", 0) == Some(Position(1, 0))
  {
    var users := ["a", "b"];
    var links := map["a" := [NewLink("", "c", "d")], "b" := [NewLink("x", "c", "d")]];
    assert FirstIndex(Owned(links, users[0]), "c") == Some(0);
    assert FirstIndex(Owned(links, users[1]), "c") == Some(0);
  }

  // ---------------------------------------------------------------------------
  // Delete

  /** Removing a record keeps codes unique. */
  lemma DeleteKeepsCodesUnique(users: seq<UserId>, links: map<UserId, seq<Link>>, uid: UserId, k: nat)
    requires k < |Owned(links, uid)|
    requires UniqueCodes(users, links)
    ensures UniqueCodes(users, RemoveAt(links, uid, k))
  {
    var after := RemoveAt(links, uid, k);
    forall p, q |
      && IsPosition(users, after, p) && IsPosition(users, after, q)
      && RecordAt(users, after, p).urlCode == RecordAt(users, after, q).urlCode
      ensures p == q
    {
      var p' := Before(users, links, uid, k, p);
      var q' := Before(users, links, uid, k, q);
      assert RecordAt(users, links, p').urlCode == RecordAt(users, links, q').urlCode;
    }
  }

  /** Where a record of the state after a delete stood before it. */
  lemma Before(users: seq<UserId>, links: map<UserId, seq<Link>>, uid: UserId, k: nat, p: Position) returns (p': Position)
    requires k < |Owned(links, uid)|
    requires IsPosition(users, RemoveAt(links, uid, k), p)
    ensures IsPosition(users, links, p') && p'.user == p.user
    ensures RecordAt(users, links, p') == RecordAt(users, RemoveAt(links, uid, k), p)
    ensures users[p.user] == uid ==> p'.index != k && p'.index == if p.index < k then p.index else p.index + 1
    ensures users[p.user] != uid ==> p' == p
  {
    if users[p.user] == uid && p.index >= k {
      p' := Position(p.user, p.index + 1);
    } else {
      p' := p;
    }
  }

  /**
   * After a listed user deletes their record with a code, and while codes are
   * unique, details and resolve find that code nowhere.
   */
  lemma DeletedCodeIsGone(users: seq<UserId>, links: map<UserId, seq<Link>>, uid: UserId, code: string)
    requires Distinct(users) && UniqueCodes(users, links)
    requires uid in users
    requires FirstIndex(Owned(links, uid), code).Some?
    ensures var after := RemoveAt(links, uid, FirstIndex(Owned(links, uid), code).value);
            FindFrom(users, after, code, 0).None? && ResolveFrom(users, after, code, 0).None?
  {
    var k := FirstIndex(Owned(links, uid), code).value;
    var after := RemoveAt(links, uid, k);
    var u :| 0 <= u < |users| && users[u] == uid;
    assert RecordAt(users, links, Position(u, k)).urlCode == code;
    forall q, j | 0 <= q < |users| && 0 <= j < |Owned(after, users[q])|
      ensures Owned(after, users[q])[j].urlCode != code
    {
      var p' := Before(users, links, uid, k, Position(q, j));
    }
  }

  // ---------------------------------------------------------------------------
  // Update

  /** Asking to change a record's code to the code it already has is a conflict. */
  lemma UpdateToSameCodeConflicts(users: seq<UserId>, links: map<UserId, seq<Link>>, uid: UserId, code: string)
    requires uid in users && HasCode(Owned(links, uid), code)
    ensures UpdateOutcome(users, links, uid, code, code) == Rejected(CodeTaken)
  {
  }

  /** A record of the state after a code change is the changed one, or one that was there before. */
  lemma RenamedRecord(users: seq<UserId>, links: map<UserId, seq<Link>>, uid: UserId, k: nat, newCode: string, p: Position)
    requires k < |Owned(links, uid)|
    requires IsPosition(users, Rename(links, uid, k, newCode), p)
    ensures IsPosition(users, links, p)
    ensures users[p.user] == uid && p.index == k ==> RecordAt(users, Rename(links, uid, k, newCode), p).urlCode == newCode
    ensures users[p.user] != uid || p.index != k ==>
              && RecordAt(users, Rename(links, uid, k, newCode), p) == RecordAt(users, links, p)
              && InUse(users, links, RecordAt(users, links, p).urlCode)
  {
    InUseAt(users, links, p);
  }

  /** Changing a code to one no listed user holds keeps codes unique. */
  lemma RenameToUnusedKeepsCodesUnique(users: seq<UserId>, links: map<UserId, seq<Link>>, uid: UserId, k: nat, newCode: string)
    requires Distinct(users) && UniqueCodes(users, links)
    requires k < |Owned(links, uid)|
    requires !InUse(users, links, newCode)
    ensures UniqueCodes(users, Rename(links, uid, k, newCode))
  {
    var after := Rename(links, uid, k, newCode);
    forall p, q |
      && IsPosition(users, after, p) && IsPosition(users, after, q)
      && RecordAt(users, after, p).urlCode == RecordAt(users, after, q).urlCode
      ensures p == q
    {
      RenamedRecord(users, links, uid, k, newCode, p);
      RenamedRecord(users, links, uid, k, newCode, q);
    }
  }

  /**
   * The update checks the new code against the caller's records only, so it
   * accepts a code another user holds, and two records then share it.
   */
  lemma UpdateCanDuplicateCode()
    ensures var users := ["a", "b"];
            var links := map["a" := [NewLink("x", "c1", "d")], "b" := [NewLink("y", "c2", "d")]];
            && UniqueCodes(users, links)
            && UpdateOutcome(users, links, "a", "c1", "c2").Updated?
            && !UniqueCodes(users, Rename(links, "a", 0, "c2"))
  {
    var users := ["a", "b"];
    var links := map["a" := [NewLink("x", "c1", "d")], "b" := [NewLink("y", "c2", "d")]];
    forall p, q |
      && IsPosition(users, links, p) && IsPosition(users, links, q)
      && RecordAt(users, links, p).urlCode == RecordAt(users, links, q).urlCode
      ensures p == q
    {
      assert p.index == 0 && q.index == 0;
      assert RecordAt(users, links, p).urlCode == if p.user == 0 then "c1" else "c2";
      assert RecordAt(users, links, q).urlCode == if q.user == 0 then "c1" else "c2";
    }
    assert !HasCode(Owned(links, "a"), "c2");
    var after := Rename(links, "a", 0, "c2");
    assert RecordAt(users, after, Position(0, 0)).urlCode == RecordAt(users, after, Position(1, 0)).urlCode;
  }

  /**
   * After a listed user changes a code to one no listed user holds, details
   * finds the changed record under the new code.
   */
  lemma UpdatedCodeIsFound(users: seq<UserId>, links: map<UserId, seq<Link>>, uid: UserId, code: string, newCode: string)
    requires uid in users && HasCode(Owned(links, uid), code)
    requires !InUse(users, links, newCode)
    ensures var k := FirstIndex(Owned(links, uid), code).value;
            var after := Rename(links, uid, k, newCode);
            var r := FindFrom(users, after, newCode, 0);
            r.Some? && RecordAt(users, after, r.value) == Recoded(Owned(links, uid)[k], newCode)
  {
    var k := FirstIndex(Owned(links, uid), code).value;
    var after := Rename(links, uid, k, newCode);
    var u :| 0 <= u < |users| && users[u] == uid;
    assert HasCode(Owned(after, users[u]), newCode) by {
      assert Owned(after, uid)[k].urlCode == newCode;
    }
    var r := FindFrom(users, after, newCode, 0);
    RenamedRecord(users, links, uid, k, newCode, r.value);
  }

  /**
   * While codes are unique, after a listed user changes a code to one no
   * listed user holds, details finds nothing under the old code.
   */
  lemma UpdatedOldCodeIsGone(users: seq<UserId>, links: map<UserId, seq<Link>>, uid: UserId, code: string, newCode: string)
    requires Distinct(users) && UniqueCodes(users, links)
    requires uid in users && HasCode(Owned(links, uid), code)
    requires !InUse(users, links, newCode)
    ensures var k := FirstIndex(Owned(links, uid), code).value;
            FindFrom(users, Rename(links, uid, k, newCode), code, 0).None?
  {
    var k := FirstIndex(Owned(links, uid), code).value;
    var after := Rename(links, uid, k, newCode);
    var u :| 0 <= u < |users| && users[u] == uid;
    var moved := Position(u, k);
    InUseAt(users, links, moved);
    assert code != newCode;
    forall q | 0 <= q < |users|
      ensures !HasCode(Owned(after, users[q]), code)
    {
      forall j | 0 <= j < |Owned(after, users[q])|
        ensures Owned(after, users[q])[j].urlCode != code
      {
        RenamedRecord(users, links, uid, k, newCode, Position(q, j));
        if users[q] == uid {
          assert q == u;
        }
      }
    }
  }
}
