/** The bookmark service: list, create, update and delete over the bookmark
    table, every operation scoped to the authenticated caller's user id.

    The table is a sequence of rows in storage order. Each operation is a pure
    function from the table (plus the caller, the payload and the behaviour of
    the collaborators for this call) to a `Step`: what the call returns or
    throws, and the table afterwards. */
module Bookmarks {
  import opened Common
  import opened Dto

  /** A row of the bookmark table. */
  datatype Bookmark = Bookmark(
    id: string,
    userId: string,
    title: string,
    link: Option<string>,
    description: Option<string>,
    fileKey: Option<string>)

  type Store = seq<Bookmark>

  /** What a bookmark operation throws: an `Error` with a fixed message, or a
      storage error passed through unchanged. */
  datatype BookmarkError = Error(message: string) | Storage(cause: StorageError)

  const SomethingWentWrong: string := "Something went wrong..."
  const CouldNotFind: string := "Could not find the bookmark"

  /** The result of one call, and the table after it. */
  datatype Step<+T> = Step(result: Result<T, BookmarkError>, store: Store)

  /** Ids are the table's primary key. */
  ghost predicate IdsUnique(s: Store) {
    forall i, j :: 0 <= i < j < |s| ==> s[i].id != s[j].id
  }

  predicate HasId(s: Store, id: string) {
    exists i :: 0 <= i < |s| && s[i].id == id
  }

  /** JavaScript truthiness of an optional string column: present and non-empty. */
  predicate Truthy(v: Option<string>) {
    v.Some? && v.value != ""
  }

  /** The row matches the lookup `{ userId, id }`. */
  predicate OwnedMatch(b: Bookmark, userId: string, id: string) {
    b.id == id && b.userId == userId
  }

  /** The rows of user `u`, in storage order (`findMany` filtered by owner). */
  function Owned(s: Store, u: string): (r: seq<Bookmark>)
    ensures forall b :: b in r <==> b in s && b.userId == u
    ensures |r| <= |s|
  {
    if s == [] then []
    else (if s[0].userId == u then [s[0]] else []) + Owned(s[1..], u)
  }

  /** The first row matching `{ userId, id }` (`findFirst`): a row with that
      id and owner, or nothing when the caller owns no such row. */
  function FindOwned(s: Store, u: string, id: string): (r: Option<nat>)
    ensures r.None? <==> forall j :: 0 <= j < |s| ==> !OwnedMatch(s[j], u, id)
    ensures r.Some? ==> r.value < |s| && OwnedMatch(s[r.value], u, id)
    ensures r.Some? ==> forall j :: 0 <= j < r.value ==> !OwnedMatch(s[j], u, id)
  {
    FirstIndex(s, (b: Bookmark) => OwnedMatch(b, u, id))
  }

  // ---------------------------------------------------------------------------
  // list
  // ---------------------------------------------------------------------------

  /** One row as `list` returns it: a row with a truthy file key gets a freshly
      signed URL for that key as its link; any other row comes back as stored.
      `None` means the object store failed to sign. */
  function Resolve(b: Bookmark, sign: string -> Option<string>): (r: Option<Bookmark>)
    ensures r.Some? ==> r.value == b.(link := r.value.link)
    ensures Truthy(b.fileKey) ==> (r.Some? <==> sign(b.fileKey.value).Some?)
    ensures Truthy(b.fileKey) && r.Some? ==> r.value.link == sign(b.fileKey.value)
    ensures !Truthy(b.fileKey) ==> r == Some(b)
  {
    if Truthy(b.fileKey) then
      match sign(b.fileKey.value)
      case None => None
      case Some(url) => Some(b.(link := Some(url)))
    else Some(b)
  }

  /** Resolves every row, keeping their order; one failed signing fails all
      of them. */
  function ResolveAll(bs: seq<Bookmark>, sign: string -> Option<string>): (r: Option<seq<Bookmark>>)
    ensures r.Some? <==> forall i :: 0 <= i < |bs| ==> Resolve(bs[i], sign).Some?
    ensures r.Some? ==> |r.value| == |bs|
    ensures r.Some? ==> forall i :: 0 <= i < |bs| ==> Resolve(bs[i], sign) == Some(r.value[i])
  {
    if bs == [] then Some([])
    else
      match Resolve(bs[0], sign)
      case None => None
      case Some(v) =>
        match ResolveAll(bs[1..], sign)
        case None =>
          assert forall i :: 1 <= i < |bs| ==> bs[i] == bs[1..][i - 1];
          None
        case Some(vs) =>
          assert forall i :: 1 <= i < |bs| ==> bs[i] == bs[1..][i - 1];
          Some([v] + vs)
  }

  /** `list(userId)`: the caller's bookmarks in storage order, file-backed
      ones carrying a signed link. Any failure of the store or of signing is
      reported as the same generic error. The table is only read. */
  function List(s: Store, u: string, fault: Option<StorageError>, sign: string -> Option<string>)
    : (r: Step<seq<Bookmark>>)
    ensures r.store == s
    ensures r.result.Err? ==> r.result.error == Error(SomethingWentWrong)
    ensures r.result.Ok? <==>
      fault.None? && forall b :: b in s && b.userId == u ==> Resolve(b, sign).Some?
    ensures r.result.Ok? ==> |r.result.value| == |Owned(s, u)|
    ensures r.result.Ok? ==> forall i :: 0 <= i < |Owned(s, u)| ==>
      Resolve(Owned(s, u)[i], sign) == Some(r.result.value[i])
    ensures r.result.Ok? ==> forall v :: v in r.result.value ==> v.userId == u
  {
    if fault.Some? then Step(Err(Error(SomethingWentWrong)), s)
    else
      var owned := Owned(s, u);
      match ResolveAll(owned, sign)
      case None =>
        assert exists i :: 0 <= i < |owned| && Resolve(owned[i], sign).None?;
        Step(Err(Error(SomethingWentWrong)), s)
      case Some(vs) =>
        assert forall b :: b in s && b.userId == u ==> Resolve(b, sign).Some? by {
          forall b | b in s && b.userId == u ensures Resolve(b, sign).Some? {
            var i :| 0 <= i < |owned| && owned[i] == b;
          }
        }
        assert forall v :: v in vs ==> v.userId == u by {
          forall v | v in vs ensures v.userId == u {
            var i :| 0 <= i < |vs| && vs[i] == v;
            assert owned[i] in owned;
          }
        }
        Step(Ok(vs), s)
  }

  // ---------------------------------------------------------------------------
  // create
  // ---------------------------------------------------------------------------

  /** Inserting a row: the store fails with the injected fault, or with a
      unique violation when the id is taken. */
  function Insert(s: Store, b: Bookmark, fault: Option<StorageError>): (r: Result<Store, StorageError>)
    ensures r.Ok? <==> fault.None? && !HasId(s, b.id)
    ensures r.Ok? ==> r.value == s + [b]
    ensures r.Err? && fault.None? ==> r.error == KnownRequestError(UniqueViolation)
  {
    if fault.Some? then Err(fault.value)
    else if HasId(s, b.id) then Err(KnownRequestError(UniqueViolation))
    else Ok(s + [b])
  }

  /** `create(userId, bmBody)`: stores a row owned by the caller holding the
      payload's fields under the store-generated id `newId`, and returns it.
      Every failure is reported as the same generic error. */
  function Create(s: Store, u: string, body: BookmarkDto, newId: string, fault: Option<StorageError>)
    : (r: Step<Bookmark>)
    requires ValidBookmarkDto(body)
    ensures r.result.Ok? <==> fault.None? && !HasId(s, newId)
    ensures r.result.Ok? ==> r.store == s + [r.result.value]
    ensures r.result.Ok? ==> var b := r.result.value;
      && b.id == newId && b.userId == u && b.title == body.title && b.title != ""
      && b.link == body.link && b.description == body.description && b.fileKey == body.fileKey
    ensures r.result.Err? ==> r.store == s && r.result.error == Error(SomethingWentWrong)
  {
    var row := Bookmark(newId, u, body.title, body.link, body.description, body.fileKey);
    match Insert(s, row, fault)
    case Ok(s') => Step(Ok(row), s')
    case Err(_) => Step(Err(Error(SomethingWentWrong)), s)
  }

  // ---------------------------------------------------------------------------
  // update
  // ---------------------------------------------------------------------------

  /** The row after an edit: each field present in the payload overwrites the
      stored one; the id in the payload only selects the row. */
  function Patch(b: Bookmark, e: BookmarkEditDto): (r: Bookmark)
    ensures r.id == b.id && r.userId == b.userId
    ensures e.title.None? ==> r.title == b.title
    ensures e.link.None? ==> r.link == b.link
    ensures e.description.None? ==> r.description == b.description
    ensures e.fileKey.None? ==> r.fileKey == b.fileKey
    ensures e.title.Some? ==> r.title == e.title.value
    ensures e.link.Some? ==> r.link == e.link
    ensures e.description.Some? ==> r.description == e.description
    ensures e.fileKey.Some? ==> r.fileKey == e.fileKey
  {
    b.(title := if e.title.Some? then e.title.value else b.title,
       link := if e.link.Some? then e.link else b.link,
       description := if e.description.Some? then e.description else b.description,
       fileKey := if e.fileKey.Some? then e.fileKey else b.fileKey)
  }

  /** `update(userId, bmBody)`: overwrites the present fields of the caller's
      row with id `bmBody.id` and returns the updated row. A missing or foreign
      row gives "Could not find the bookmark"; storage errors pass through. On
      any failure the table is unchanged. */
  function Update(s: Store, u: string, body: BookmarkEditDto, fault: Option<StorageError>)
    : (r: Step<Bookmark>)
    ensures |r.store| == |s|
    ensures r.result.Ok? <==>
      fault.None? && exists i :: 0 <= i < |s| && OwnedMatch(s[i], u, body.id)
    ensures r.result.Ok? ==>
      exists i :: 0 <= i < |s| && OwnedMatch(s[i], u, body.id)
        && r.result.value == Patch(s[i], body) && r.store == s[i := r.result.value]
    ensures r.result.Err? ==> r.store == s
    ensures r.result.Err? ==>
      r.result.error == if fault.Some? then Storage(fault.value) else Error(CouldNotFind)
  {
    if fault.Some? then Step(Err(Storage(fault.value)), s)
    else
      match FindOwned(s, u, body.id)
      case None => Step(Err(Error(CouldNotFind)), s)
      case Some(i) =>
        var b := Patch(s[i], body);
        Step(Ok(b), s[i := b])
  }

  // ---------------------------------------------------------------------------
  // delete
  // ---------------------------------------------------------------------------

  /** `delete(userId, bmId)`: removes the caller's row with id `bmId` and
      returns it. A missing or foreign row gives "Could not find the
      bookmark"; storage errors pass through. On any failure the table is
      unchanged. */
  function Delete(s: Store, u: string, id: string, fault: Option<StorageError>)
    : (r: Step<Bookmark>)
    ensures r.result.Ok? <==>
      fault.None? && exists i :: 0 <= i < |s| && OwnedMatch(s[i], u, id)
    ensures r.result.Ok? ==>
      exists i :: 0 <= i < |s| && OwnedMatch(s[i], u, id)
        && r.result.value == s[i] && r.store == s[..i] + s[i + 1..]
    ensures r.result.Err? ==> r.store == s
    ensures r.result.Err? ==>
      r.result.error == if fault.Some? then Storage(fault.value) else Error(CouldNotFind)
  {
    if fault.Some? then Step(Err(Storage(fault.value)), s)
    else
      match FindOwned(s, u, id)
      case None => Step(Err(Error(CouldNotFind)), s)
      case Some(i) => Step(Ok(s[i]), s[..i] + s[i + 1..])
  }
}
