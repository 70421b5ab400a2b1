/** Properties of the bookmark service that relate several calls or that say
    what an operation leaves alone: other users never see or lose anything,
    ids stay a key, owners never change, edits are idempotent, and a deleted
    bookmark cannot be deleted again. */
module BookmarkProperties {
  import opened Common
  import opened Dto
  import opened Bookmarks

  // ---------------------------------------------------------------------------
  // The owner filter
  // ---------------------------------------------------------------------------

  /** Filtering by owner keeps storage order: it distributes over concatenation. */
  lemma {:induction false} OwnedAppend(a: Store, b: Store, u: string)
    ensures Owned(a + b, u) == Owned(a, u) + Owned(b, u)
  {
    if a == [] {
      assert a + b == b;
    } else {
      assert (a + b)[1..] == a[1..] + b;
      OwnedAppend(a[1..], b, u);
    }
  }

  /** Replacing a row that neither before nor after belongs to `v` leaves
      `v`'s rows as they were. */
  lemma OwnedReplaceOther(s: Store, i: nat, x: Bookmark, v: string)
    requires i < |s| && s[i].userId != v && x.userId != v
    ensures Owned(s[i := x], v) == Owned(s, v)
  {
    assert s == s[..i] + [s[i]] + s[i + 1..];
    assert s[i := x] == s[..i] + [x] + s[i + 1..];
    OwnedAppend(s[..i] + [s[i]], s[i + 1..], v);
    OwnedAppend(s[..i], [s[i]], v);
    OwnedAppend(s[..i] + [x], s[i + 1..], v);
    OwnedAppend(s[..i], [x], v);
  }

  /** Removing a row that does not belong to `v` leaves `v`'s rows as they were. */
  lemma OwnedRemoveOther(s: Store, i: nat, v: string)
    requires i < |s| && s[i].userId != v
    ensures Owned(s[..i] + s[i + 1..], v) == Owned(s, v)
  {
    var pre, post := s[..i], s[i + 1..];
    calc {
      Owned(s, v);
      { assert s == (pre + [s[i]]) + post; }
      Owned((pre + [s[i]]) + post, v);
      { OwnedAppend(pre + [s[i]], post, v); }
      Owned(pre + [s[i]], v) + Owned(post, v);
      { OwnedAppend(pre, [s[i]], v); OwnedSingle(s[i], v); }
      Owned(pre, v) + Owned(post, v);
      { OwnedAppend(pre, post, v); }
      Owned(pre + post, v);
    }
  }

  /** A one-row table filtered by owner. */
  lemma OwnedSingle(b: Bookmark, v: string)
    ensures Owned([b], v) == if b.userId == v then [b] else []
  {
  }

  // ---------------------------------------------------------------------------
  // list
  // ---------------------------------------------------------------------------

  /** A user without bookmarks gets an empty list, not an error. */
  lemma ListEmptyForUserWithoutBookmarks(s: Store, u: string, sign: string -> Option<string>)
    requires forall i :: 0 <= i < |s| ==> s[i].userId != u
    ensures List(s, u, None, sign).result == Ok([])
  {
  }

  /** The returned views are exactly the caller's rows: with the link as
      stored when no truthy file key is set, with a signed link otherwise,
      and every other field as stored. */
  lemma ListViews(s: Store, u: string, sign: string -> Option<string>, i: nat)
    requires List(s, u, None, sign).result.Ok?
    requires i < |Owned(s, u)|
    ensures var b := Owned(s, u)[i];
      var v := List(s, u, None, sign).result.value[i];
      && v.id == b.id && v.userId == u && v.title == b.title
      && v.description == b.description && v.fileKey == b.fileKey
      && v.link == (if Truthy(b.fileKey) then sign(b.fileKey.value) else b.link)
  {
  }

  // ---------------------------------------------------------------------------
  // create
  // ---------------------------------------------------------------------------

  /** A created bookmark appears at the end of its owner's list and nowhere
      else: every other user's rows are unchanged. */
  lemma CreateVisibleOnlyToOwner(s: Store, u: string, body: BookmarkDto, newId: string, v: string)
    requires ValidBookmarkDto(body)
    requires Create(s, u, body, newId, None).result.Ok?
    ensures var r := Create(s, u, body, newId, None);
      Owned(r.store, u) == Owned(s, u) + [r.result.value]
    ensures v != u ==> Owned(Create(s, u, body, newId, None).store, v) == Owned(s, v)
  {
    var r := Create(s, u, body, newId, None);
    OwnedAppend(s, [r.result.value], u);
    OwnedAppend(s, [r.result.value], v);
  }

  /** A file key chosen by the client is kept by `create` and signed by the
      next `list`: the new bookmark is listed with the signed URL as its link. */
  lemma CreatedFileKeyIsSignedOnList(s: Store, u: string, body: BookmarkDto, newId: string,
                                      sign: string -> Option<string>)
    requires ValidBookmarkDto(body) && Truthy(body.fileKey)
    requires Create(s, u, body, newId, None).result.Ok?
    requires List(Create(s, u, body, newId, None).store, u, None, sign).result.Ok?
    ensures var s' := Create(s, u, body, newId, None).store;
      var vs := List(s', u, None, sign).result.value;
      |vs| > 0 && vs[|vs| - 1].id == newId && vs[|vs| - 1].link == sign(body.fileKey.value)
  {
    var s' := Create(s, u, body, newId, None).store;
    CreateVisibleOnlyToOwner(s, u, body, newId, u);
    ListViews(s', u, sign, |Owned(s', u)| - 1);
  }

  /** Create keeps ids a key: a taken id makes the insert fail. */
  lemma CreatePreservesUniqueIds(s: Store, u: string, body: BookmarkDto, newId: string,
                                 fault: Option<StorageError>)
    requires ValidBookmarkDto(body) && IdsUnique(s)
    ensures IdsUnique(Create(s, u, body, newId, fault).store)
  {
  }

  // ---------------------------------------------------------------------------
  // update
  // ---------------------------------------------------------------------------

  /** No update, successful or not, changes any row's id or owner; the
      payload cannot reassign a bookmark. */
  lemma UpdateKeepsIdsAndOwners(s: Store, u: string, body: BookmarkEditDto,
                                fault: Option<StorageError>, j: nat)
    requires j < |s|
    ensures var s' := Update(s, u, body, fault).store;
      s'[j].id == s[j].id && s'[j].userId == s[j].userId
  {
  }

  /** An update leaves every other user's rows exactly as they were. */
  lemma UpdateLeavesOthersAlone(s: Store, u: string, body: BookmarkEditDto,
                                fault: Option<StorageError>, v: string)
    requires v != u
    ensures Owned(Update(s, u, body, fault).store, v) == Owned(s, v)
  {
    var r := Update(s, u, body, fault);
    if r.result.Ok? {
      var i :| 0 <= i < |s| && OwnedMatch(s[i], u, body.id)
        && r.result.value == Patch(s[i], body) && r.store == s[i := r.result.value];
      OwnedReplaceOther(s, i, r.result.value, v);
    }
  }

  /** An edit naming another user's bookmark is refused as not found, and
      nothing changes. */
  lemma UpdateOfForeignBookmarkFails(s: Store, u: string, body: BookmarkEditDto, k: nat)
    requires IdsUnique(s)
    requires k < |s| && s[k].id == body.id && s[k].userId != u
    ensures Update(s, u, body, None) == Step(Err(Error(CouldNotFind)), s)
  {
  }

  /** Update keeps ids a key. */
  lemma UpdatePreservesUniqueIds(s: Store, u: string, body: BookmarkEditDto, fault: Option<StorageError>)
    requires IdsUnique(s)
    ensures IdsUnique(Update(s, u, body, fault).store)
  {
  }

  /** Applying the same edit twice is the same as applying it once. */
  lemma PatchIdempotent(b: Bookmark, e: BookmarkEditDto)
    ensures Patch(Patch(b, e), e) == Patch(b, e)
  {
  }

  /** Repeating a successful update returns the same row and changes nothing more. */
  lemma UpdateIdempotent(s: Store, u: string, body: BookmarkEditDto)
    requires Update(s, u, body, None).result.Ok?
    ensures var r := Update(s, u, body, None);
      Update(r.store, u, body, None) == r
  {
    var r := Update(s, u, body, None);
    var s' := r.store;
    var i := FindOwned(s, u, body.id).value;
    var p := (b: Bookmark) => OwnedMatch(b, u, body.id);
    assert forall j :: 0 <= j < i ==> !p(s[j]);
    assert s' == s[i := Patch(s[i], body)];
    assert forall j :: 0 <= j < i ==> s'[j] == s[j];
    assert p(s'[i]);
    PatchIdempotent(s[i], body);
  }

  // ---------------------------------------------------------------------------
  // delete
  // ---------------------------------------------------------------------------

  /** A delete leaves every other user's rows exactly as they were. */
  lemma DeleteLeavesOthersAlone(s: Store, u: string, id: string,
                                fault: Option<StorageError>, v: string)
    requires v != u
    ensures Owned(Delete(s, u, id, fault).store, v) == Owned(s, v)
  {
    var r := Delete(s, u, id, fault);
    if r.result.Ok? {
      var i :| 0 <= i < |s| && OwnedMatch(s[i], u, id)
        && r.result.value == s[i] && r.store == s[..i] + s[i + 1..];
      OwnedRemoveOther(s, i, v);
    }
  }

  /** Delete keeps ids a key. */
  lemma DeletePreservesUniqueIds(s: Store, u: string, id: string, fault: Option<StorageError>)
    requires IdsUnique(s)
    ensures IdsUnique(Delete(s, u, id, fault).store)
  {
  }

  /** A successful delete removes the only row with that id, so deleting the
      same id again is refused as not found. */
  lemma DeleteTwiceFails(s: Store, u: string, id: string)
    requires IdsUnique(s)
    requires Delete(s, u, id, None).result.Ok?
    ensures var s' := Delete(s, u, id, None).store;
      Delete(s', u, id, None) == Step(Err(Error(CouldNotFind)), s')
  {
  }
}
