/** Request shapes of the bookmark routes and the validation the global pipe
    applies to them: every declared field is checked by its decorators, and,
    because the pipe whitelists and forbids undeclared properties, a request
    naming any other property is rejected outright. */
module Dto {
  import opened Common

  /** A JSON value in a request body, as far as the field checks tell values
      apart: a string, or anything else (number, boolean, object, array). */
  datatype Json = JString(s: string) | JNonString

  /** A request body: property name to value. */
  type Request = map<string, Json>

  /** Payload of the create route. */
  datatype BookmarkDto = BookmarkDto(
    title: string,
    link: Option<string>,
    description: Option<string>,
    fileKey: Option<string>)

  /** Payload of the edit route: the target id, then the fields to overwrite. */
  datatype BookmarkEditDto = BookmarkEditDto(
    id: string,
    title: Option<string>,
    link: Option<string>,
    description: Option<string>,
    fileKey: Option<string>)

  /** The optional string fields the two payloads share. */
  const OptionalFields: set<string> := {"link", "description", "fileKey"}

  /** The properties each payload declares; the pipe's whitelist. */
  const CreateFields: set<string> := {"title"} + OptionalFields
  const EditFields: set<string> := {"id", "title"} + OptionalFields

  /** A create payload must carry a non-empty title. */
  predicate ValidBookmarkDto(d: BookmarkDto) {
    d.title != ""
  }

  /** An edit payload must carry a non-empty id that passes the UUID check;
      its title, when present, need only be a string. */
  predicate ValidEditDto(d: BookmarkEditDto, isUuid: string -> bool) {
    d.id != "" && isUuid(d.id)
  }

  /** Property `k` holds a string. */
  predicate HasString(req: Request, k: string) {
    k in req && req[k].JString?
  }

  /** An optional string property: absent, or a string. */
  predicate OptionalString(req: Request, k: string) {
    k !in req || req[k].JString?
  }

  /** The value of an optional string property. */
  function OptField(req: Request, k: string): Option<string> {
    if HasString(req, k) then Some(req[k].s) else None
  }

  /** Whether property `k` of a create request fails its checks: the title
      must be a non-empty string, the optional fields strings when present,
      and nothing outside the whitelist may appear. */
  predicate CreateViolation(req: Request, k: string) {
    if k == "title" then !(HasString(req, k) && req[k].s != "")
    else if k in OptionalFields then !OptionalString(req, k)
    else k in req
  }

  /** Whether property `k` of an edit request fails its checks: the id must be
      a non-empty string passing the UUID check, every other declared field a
      string when present, and nothing outside the whitelist may appear. */
  predicate EditViolation(req: Request, k: string, isUuid: string -> bool) {
    if k == "id" then !(HasString(req, k) && req[k].s != "" && isUuid(req[k].s))
    else if k in EditFields then !OptionalString(req, k)
    else k in req
  }

  /** The request body a client sends for a create payload. */
  function EncodeCreate(d: BookmarkDto): Request {
    map["title" := JString(d.title)]
      + Entry("link", d.link) + Entry("description", d.description) + Entry("fileKey", d.fileKey)
  }

  /** The request body a client sends for an edit payload. */
  function EncodeEdit(d: BookmarkEditDto): Request {
    map["id" := JString(d.id)] + Entry("title", d.title)
      + Entry("link", d.link) + Entry("description", d.description) + Entry("fileKey", d.fileKey)
  }

  function Entry(k: string, v: Option<string>): Request {
    if v.Some? then map[k := JString(v.value)] else map[]
  }

  /** The validation pipe for the create route: either the payload, or the set
      of properties that failed their checks. */
  function ValidateCreate(req: Request): (r: Result<BookmarkDto, set<string>>)
    ensures r.Ok? ==> ValidBookmarkDto(r.value) && req == EncodeCreate(r.value)
    ensures r.Ok? ==> forall k :: !CreateViolation(req, k)
    ensures r.Err? ==> r.error != {} && forall k :: k in r.error <==> CreateViolation(req, k)
  {
    var errors := set k | k in req.Keys + {"title"} && CreateViolation(req, k);
    if errors == {} then
      assert "title" !in errors;
      assert forall k :: k in req ==> k in CreateFields by {
        forall k | k in req ensures k in CreateFields {
          assert k !in errors;
        }
      }
      var d := BookmarkDto(req["title"].s, OptField(req, "link"),
                           OptField(req, "description"), OptField(req, "fileKey"));
      assert req == EncodeCreate(d) by {
        forall k | k in OptionalFields ensures OptionalString(req, k) {
          assert k !in errors;
        }
        EncodeCreateMatches(req, d);
      }
      Ok(d)
    else
      Err(errors)
  }

  /** The validation pipe for the edit route. */
  function ValidateEdit(req: Request, isUuid: string -> bool): (r: Result<BookmarkEditDto, set<string>>)
    ensures r.Ok? ==> ValidEditDto(r.value, isUuid) && req == EncodeEdit(r.value)
    ensures r.Ok? ==> forall k :: !EditViolation(req, k, isUuid)
    ensures r.Err? ==> r.error != {} && forall k :: k in r.error <==> EditViolation(req, k, isUuid)
  {
    var errors := set k | k in req.Keys + {"id"} && EditViolation(req, k, isUuid);
    if errors == {} then
      assert "id" !in errors;
      assert forall k :: k in req ==> k in EditFields by {
        forall k | k in req ensures k in EditFields {
          assert k !in errors;
        }
      }
      var d := BookmarkEditDto(req["id"].s, OptField(req, "title"), OptField(req, "link"),
                               OptField(req, "description"), OptField(req, "fileKey"));
      assert req == EncodeEdit(d) by {
        forall k | k in EditFields - {"id"} ensures OptionalString(req, k) {
          assert k !in errors;
        }
        EncodeEditMatches(req, d);
      }
      Ok(d)
    else
      Err(errors)
  }

  /** A request holding only declared properties, each well-typed, is the
      encoding of the payload read from it. */
  lemma EncodeCreateMatches(req: Request, d: BookmarkDto)
    requires forall k :: k in req ==> k in CreateFields
    requires HasString(req, "title") && d.title == req["title"].s
    requires forall k :: k in OptionalFields ==> OptionalString(req, k)
    requires d.link == OptField(req, "link") && d.description == OptField(req, "description")
    requires d.fileKey == OptField(req, "fileKey")
    ensures req == EncodeCreate(d)
  {
  }

  /** The same for edit requests. */
  lemma EncodeEditMatches(req: Request, d: BookmarkEditDto)
    requires forall k :: k in req ==> k in EditFields
    requires HasString(req, "id") && d.id == req["id"].s
    requires forall k :: k in EditFields - {"id"} ==> OptionalString(req, k)
    requires d.title == OptField(req, "title") && d.link == OptField(req, "link")
    requires d.description == OptField(req, "description") && d.fileKey == OptField(req, "fileKey")
    ensures req == EncodeEdit(d)
  {
    var e := EncodeEdit(d);
    assert "title" in EditFields - {"id"} && "link" in EditFields - {"id"};
    assert "description" in EditFields - {"id"} && "fileKey" in EditFields - {"id"};
    assert req.Keys == e.Keys;
  }

  /** Every valid create payload, sent as a request, passes the pipe unchanged. */
  lemma ValidateCreateAcceptsValid(d: BookmarkDto)
    requires ValidBookmarkDto(d)
    ensures ValidateCreate(EncodeCreate(d)) == Ok(d)
  {
  }

  /** Every valid edit payload, sent as a request, passes the pipe unchanged. */
  lemma ValidateEditAcceptsValid(d: BookmarkEditDto, isUuid: string -> bool)
    requires ValidEditDto(d, isUuid)
    ensures ValidateEdit(EncodeEdit(d), isUuid) == Ok(d)
  {
    var req := EncodeEdit(d);
    EncodeEditShape(d);
    var errors := set k | k in req.Keys + {"id"} && EditViolation(req, k, isUuid);
    assert errors == {} by {
      forall k | k in req.Keys + {"id"} ensures !EditViolation(req, k, isUuid) {
      }
    }
    assert OptField(req, "title") == d.title && OptField(req, "link") == d.link;
    assert OptField(req, "description") == d.description && OptField(req, "fileKey") == d.fileKey;
  }

  /** The encoded edit request holds exactly the payload's present fields, each as a string. */
  lemma EncodeEditShape(d: BookmarkEditDto)
    ensures var req := EncodeEdit(d);
      && (forall k :: k in req ==> k in EditFields && req[k].JString?)
      && req["id"] == JString(d.id)
      && (d.title.Some? <==> "title" in req) && (d.title.Some? ==> req["title"].s == d.title.value)
      && (d.link.Some? <==> "link" in req) && (d.link.Some? ==> req["link"].s == d.link.value)
      && (d.description.Some? <==> "description" in req)
      && (d.description.Some? ==> req["description"].s == d.description.value)
      && (d.fileKey.Some? <==> "fileKey" in req) && (d.fileKey.Some? ==> req["fileKey"].s == d.fileKey.value)
  {
  }

  /** No request can name an owner: a `userId` property is rejected by both
      pipes, whatever else the request holds. */
  lemma OwnerCannotBeNamed(req: Request, isUuid: string -> bool)
    requires "userId" in req
    ensures ValidateCreate(req).Err? && "userId" in ValidateCreate(req).error
    ensures ValidateEdit(req, isUuid).Err? && "userId" in ValidateEdit(req, isUuid).error
  {
  }

  /** The non-empty title rule applies to creation only: the same empty title
      that the create pipe rejects passes the edit pipe. */
  lemma EmptyTitleRejectedOnlyOnCreate(id: string, isUuid: string -> bool)
    requires id != "" && isUuid(id)
    ensures ValidateCreate(map["title" := JString("")]).Err?
    ensures ValidateEdit(map["id" := JString(id), "title" := JString("")], isUuid)
         == Ok(BookmarkEditDto(id, Some(""), None, None, None))
  {
  }
}
