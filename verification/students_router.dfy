/**
 * The request handlers of the students router, each a pure function from the
 * store and the request to the new store and the response.
 *
 * The collection route `/` lists and creates students; the item route `/:id`
 * first looks the record up (answering 404 when there is none) and then
 * reads, deletes or patches it. Every student in a response passes through
 * `serializeStudent`, which sanitizes both names with the `xss` library; that
 * library is a parameter here, since its escaping rules are not modelled.
 */
module StudentsRouter {
  import opened Wrappers
  import opened JsValues
  import opened Decimal
  import opened StudentsStore

  /** The HTML sanitizer `xss`: any value in, a string out. */
  type Sanitizer = JsVal -> string

  /** The object `serializeStudent` builds. */
  datatype StudentJson = StudentJson(firstName: string, lastName: string, id: JsVal, modified: JsVal, attendance: JsVal)

  datatype Body =
    | Empty                           // `res.status(204).end()`
    | ErrorMessage(message: string)   // `{ error: { message } }`
    | One(student: StudentJson)
    | Many(students: seq<StudentJson>)
    | ServerError                     // the application's error handler; its body is not modelled
    | NotRouted                       // the framework's default answer when no handler takes the verb

  datatype Response = Response(status: int, location: Option<string>, body: Body)

  /** What a handler leaves behind: the store after the request, and the response. */
  datatype Handled = Handled(store: Store, response: Response)

  const Ok := 200
  const Created := 201
  const NoContent := 204
  const BadRequest := 400
  const NotFound := 404
  const InternalError := 500

  const NotFoundMessage := "Student doesn't exist"
  const EmptyPatchMessage := "Request body must contain either 'first_name, last_name, id, modified, or attendance'"

  /** The 400 message for a missing create field; the stray closing quote is the router's own. */
  function MissingKeyMessage(key: string): string {
    "Missing '" + key + "' in request body'"
  }

  const StudentNotFound := Response(NotFound, None, ErrorMessage(NotFoundMessage))
  const Unrouted := Response(NotFound, None, NotRouted)

  /** The create fields, in the order the router checks them. */
  const CreateKeys: seq<string> := ["first_name", "last_name", "modified", "attendance"]

  /** The fields a patch may carry. */
  const PatchKeys: seq<string> := ["first_name", "last_name", "id", "modified", "attendance"]

  /** JavaScript's `v || fallback`. */
  function Or(v: JsVal, fallback: JsVal): JsVal {
    if Truthy(v) then v else fallback
  }

  /** `serializeStudent`: both names sanitized, id, modified and attendance copied. */
  function SerializeStudent(xss: Sanitizer, o: Obj): StudentJson {
    StudentJson(xss(Get(o, "first_name")), xss(Get(o, "last_name")), Get(o, "id"), Get(o, "modified"), Get(o, "attendance"))
  }

  /**
   * A stored row leaves the server with both names sanitized and its id,
   * `modified` and `attendance` as stored.
   */
  lemma SerializeRowFields(xss: Sanitizer, id: int, s: Student)
    ensures SerializeStudent(xss, Row(id, s))
            == StudentJson(xss(s.firstName), xss(s.lastName), Num(id), s.modified, s.attendance)
  {
  }

  /** `students.map(serializeStudent)` over the rows with the given ids. */
  function SerializeRows(xss: Sanitizer, store: Store, ids: seq<int>): (js: seq<StudentJson>)
    requires forall i :: 0 <= i < |ids| ==> ids[i] in store
    ensures |js| == |ids|
    ensures forall i :: 0 <= i < |ids| ==> js[i] == SerializeStudent(xss, Row(ids[i], store[ids[i]]))
  {
    if ids == [] then [] else [SerializeStudent(xss, Row(ids[0], store[ids[0]]))] + SerializeRows(xss, store, ids[1..])
  }

  /** GET `/`: every stored student, serialized, in the order the database lists them. */
  function ListStudents(xss: Sanitizer, store: Store, listing: seq<int>): (h: Handled)
    requires IsListing(store, listing)
    ensures h.store == store
    ensures h.response.status == Ok && h.response.location == None && h.response.body.Many?
    ensures |h.response.body.students| == |listing|
    ensures forall i :: 0 <= i < |listing| ==>
      var s := store[listing[i]];
      h.response.body.students[i] == StudentJson(xss(s.firstName), xss(s.lastName), Num(listing[i]), s.modified, s.attendance)
  {
    Handled(store, Response(Ok, None, Many(SerializeRows(xss, store, listing))))
  }

  /** The index of the first key whose value is null or undefined, checking keys in order. */
  function FirstNullish(o: Obj, keys: seq<string>): (r: Option<nat>)
    ensures r.Some? ==>
      && r.value < |keys|
      && Nullish(Get(o, keys[r.value]))
      && forall j :: 0 <= j < r.value ==> !Nullish(Get(o, keys[j]))
    ensures r.None? ==> forall j :: 0 <= j < |keys| ==> !Nullish(Get(o, keys[j]))
  {
    if keys == [] then
      None
    else if Nullish(Get(o, keys[0])) then
      Some(0)
    else
      match FirstNullish(o, keys[1..])
      case None => None
      case Some(i) => Some(i + 1)
  }

  /** The record a create request asks for: exactly the four create fields of the body. */
  function NewStudent(body: Obj): Student {
    Student(Get(body, "first_name"), Get(body, "last_name"), Get(body, "modified"), Get(body, "attendance"))
  }

  /**
   * POST `/`: reject the first missing create field with 400, or insert the
   * four fields under the database's fresh id and answer 201 with the
   * record's location.
   */
  function CreateStudent(xss: Sanitizer, store: Store, originalUrl: string, body: Obj, newId: int): (h: Handled)
    requires newId !in store
    ensures h.response.status == BadRequest || h.response.status == Created
    ensures h.response.status == BadRequest <==> exists j :: 0 <= j < |CreateKeys| && Nullish(Get(body, CreateKeys[j]))
    ensures h.response.status == BadRequest ==>
      && h.store == store
      && h.response.location == None
      && exists i :: 0 <= i < |CreateKeys|
           && Nullish(Get(body, CreateKeys[i]))
           && (forall j :: 0 <= j < i ==> !Nullish(Get(body, CreateKeys[j])))
           && h.response.body == ErrorMessage(MissingKeyMessage(CreateKeys[i]))
    ensures h.response.status == Created ==>
      && h.store.Keys == store.Keys + {newId}
      && h.store[newId] == Student(Get(body, "first_name"), Get(body, "last_name"), Get(body, "modified"), Get(body, "attendance"))
      && Complete(h.store[newId])
      && (forall id :: id in store ==> h.store[id] == store[id])
      && h.response.location == Some(originalUrl + "/" + IntToDecimal(newId))
      && h.response.body == One(StudentJson(xss(Get(body, "first_name")), xss(Get(body, "last_name")), Num(newId),
                                            Get(body, "modified"), Get(body, "attendance")))
  {
    match FirstNullish(body, CreateKeys)
    case Some(i) =>
      Handled(store, Response(BadRequest, None, ErrorMessage(MissingKeyMessage(CreateKeys[i]))))
    case None =>
      assert CreateKeys[1] == "last_name" && CreateKeys[2] == "modified" && CreateKeys[3] == "attendance";
      var s := NewStudent(body);
      Handled(Insert(store, newId, s),
              Response(Created, Some(originalUrl + "/" + IntToDecimal(newId)), One(SerializeStudent(xss, Row(newId, s)))))
  }

  /**
   * The `.all` step of `/:id`: the record for the path id, or the 404
   * response that ends the request before any handler runs.
   */
  function FindStudent(store: Store, pathId: Option<int>): (r: Result<(int, Student), Response>)
    ensures r.Success? <==> pathId.Some? && pathId.value in store
    ensures r.Success? ==> r.value == (pathId.value, store[pathId.value])
    ensures r.Failure? ==> r.error == StudentNotFound
  {
    if pathId.None? then
      Failure(StudentNotFound)
    else
      match Lookup(store, pathId.value)
      case None => Failure(StudentNotFound)
      case Some(s) => Success((pathId.value, s))
  }

  /** GET `/:id`: the found record, serialized. */
  function GetStudent(xss: Sanitizer, id: int, s: Student): (r: Response)
    ensures r == Response(Ok, None, One(StudentJson(xss(s.firstName), xss(s.lastName), Num(id), s.modified, s.attendance)))
  {
    Response(Ok, None, One(SerializeStudent(xss, Row(id, s))))
  }

  /** DELETE `/:id`: the found record is removed; 204 with no body. */
  function DeleteStudent(store: Store, id: int): (h: Handled)
    requires id in store
    ensures id !in h.store
    ensures h.store.Keys == store.Keys - {id}
    ensures forall other :: other in h.store ==> h.store[other] == store[other]
    ensures h.response == Response(NoContent, None, Empty)
  {
    Handled(Delete(store, id), Response(NoContent, None, Empty))
  }

  /** The update object of a patch: the patch keys whose body values are truthy. */
  function PickTruthy(body: Obj, keys: seq<string>): (u: Obj)
    ensures forall k :: k in u <==> k in keys && Truthy(Get(body, k))
    ensures forall k :: k in u ==> u[k] == Get(body, k)
  {
    if keys == [] then
      map[]
    else
      var rest := PickTruthy(body, keys[1..]);
      if Truthy(Get(body, keys[0])) then rest[keys[0] := Get(body, keys[0])] else rest
  }

  /** `Object.values(u).filter(Boolean).length`. */
  function NumberOfTruthyValues(u: Obj): nat {
    |set k | k in u && Truthy(u[k])|
  }

  /** An update object holds only truthy values, so the filter keeps every one of them. */
  lemma FilterKeepsAll(u: Obj)
    requires forall k :: k in u ==> Truthy(u[k])
    ensures NumberOfTruthyValues(u) == |u|
  {
    assert (set k | k in u && Truthy(u[k])) == u.Keys;
  }

  /** The key the patched record ends up at: a truthy integer `id` in the body re-keys it. */
  function PatchedKey(id: int, body: Obj): int {
    var bodyId := Get(body, "id");
    if Truthy(bodyId) && bodyId.Num? then bodyId.n else id
  }

  /** Whether the database accepts the `id` a patch body carries, if it carries one. */
  predicate PatchKeyAccepted(store: Store, id: int, body: Obj) {
    var bodyId := Get(body, "id");
    !Truthy(bodyId) || (bodyId.Num? && (bodyId.n == id || bodyId.n !in store))
  }

  /** The update object after `updatedStudent.modified = new Date()`. */
  function Stamped(body: Obj, now: int): Obj {
    PickTruthy(body, PatchKeys)["modified" := Date(now)]
  }

  /** The update object is empty exactly when no patch key of the body is truthy. */
  lemma EmptyUpdateObject(body: Obj)
    ensures |PickTruthy(body, PatchKeys)| == 0 <==> forall k :: k in PatchKeys ==> !Truthy(Get(body, k))
  {
    var u := PickTruthy(body, PatchKeys);
    if |u| == 0 {
      forall k | k in PatchKeys
        ensures !Truthy(Get(body, k))
      {
        assert k !in u;
      }
    } else {
      var k :| k in u;
      assert k in PatchKeys && Truthy(Get(body, k));
    }
  }

  /** Each patch key of the stamped update object holds the body's value when truthy, and `modified` holds the time. */
  lemma StampedFields(body: Obj, now: int)
    ensures var u := Stamped(body, now);
      && Get(u, "first_name") == Or(Get(body, "first_name"), Undefined)
      && Get(u, "last_name") == Or(Get(body, "last_name"), Undefined)
      && Get(u, "id") == Or(Get(body, "id"), Undefined)
      && Get(u, "attendance") == Or(Get(body, "attendance"), Undefined)
      && Get(u, "modified") == Date(now)
      && ("first_name" in u <==> Truthy(Get(body, "first_name")))
      && ("last_name" in u <==> Truthy(Get(body, "last_name")))
      && ("id" in u <==> Truthy(Get(body, "id")))
      && ("attendance" in u <==> Truthy(Get(body, "attendance")))
  {
    var u := PickTruthy(body, PatchKeys);
    assert "first_name" in PatchKeys && "last_name" in PatchKeys && "id" in PatchKeys && "attendance" in PatchKeys;
  }

  /** Writing the stamped update object to a record, and the database's verdict on its key. */
  lemma StampedUpdate(store: Store, id: int, body: Obj, now: int)
    requires id in store
    ensures var u := Stamped(body, now);
      var before := store[id];
      && (KeyAccepted(store, id, u) <==> PatchKeyAccepted(store, id, body))
      && TargetKey(id, u) == PatchedKey(id, body)
      && Overwrite(before, u) == Student(Or(Get(body, "first_name"), before.firstName), Or(Get(body, "last_name"), before.lastName),
                                        Date(now), Or(Get(body, "attendance"), before.attendance))
  {
    StampedFields(body, now);
  }

  /**
   * PATCH `/:id`: keep the truthy patch fields of the body, reject an empty
   * result with 400, stamp `modified` with the server time, write the
   * fields to the found record and answer with the update object itself.
   */
  function PatchStudent(xss: Sanitizer, store: Store, id: int, body: Obj, now: int): (h: Handled)
    requires id in store
    ensures h.response.status == Ok || h.response.status == BadRequest || h.response.status == InternalError
    ensures h.response.status == BadRequest <==> forall k :: k in PatchKeys ==> !Truthy(Get(body, k))
    ensures h.response.status == BadRequest ==> h == Handled(store, Response(BadRequest, None, ErrorMessage(EmptyPatchMessage)))
    ensures h.response.status == InternalError <==>
      (exists k :: k in PatchKeys && Truthy(Get(body, k))) && !PatchKeyAccepted(store, id, body)
    ensures h.response.status == InternalError ==> h == Handled(store, Response(InternalError, None, ServerError))
    ensures h.response.status == Ok ==>
      var before := store[id];
      var key := PatchedKey(id, body);
      && h.store.Keys == store.Keys - {id} + {key}
      && h.store[key] == Student(Or(Get(body, "first_name"), before.firstName), Or(Get(body, "last_name"), before.lastName),
                                 Date(now), Or(Get(body, "attendance"), before.attendance))
      && (forall other :: other in store && other != id ==> h.store[other] == store[other])
      && h.response == Response(Ok, None, One(StudentJson(
           xss(Or(Get(body, "first_name"), Undefined)), xss(Or(Get(body, "last_name"), Undefined)),
           Or(Get(body, "id"), Undefined), Date(now), Or(Get(body, "attendance"), Undefined))))
  {
    var update := PickTruthy(body, PatchKeys);
    FilterKeepsAll(update);
    EmptyUpdateObject(body);
    if NumberOfTruthyValues(update) == 0 then
      Handled(store, Response(BadRequest, None, ErrorMessage(EmptyPatchMessage)))
    else
      var stamped := update["modified" := Date(now)];
      StampedFields(body, now);
      StampedUpdate(store, id, body, now);
      match Update(store, id, stamped)
      case Failure(_) => Handled(store, Response(InternalError, None, ServerError))
      case Success(store') => Handled(store', Response(Ok, None, One(SerializeStudent(xss, stamped))))
  }

  /** The HTTP methods the router answers. */
  datatype Verb = GET | POST | PATCH | DELETE

  datatype Route =
    | Collection          // `/`
    | Item(param: string) // `/:id`, with the raw path segment

  datatype Request = Request(verb: Verb, route: Route, originalUrl: string, body: Obj)

  /**
   * What the database and the clock supply to one request: the order the
   * rows are listed in, the id an insert would be given, and the time.
   */
  datatype Context = Context(listing: seq<int>, freshId: int, now: int)

  predicate ValidContext(store: Store, ctx: Context) {
    IsListing(store, ctx.listing) && ctx.freshId !in store
  }

  /** The collection route `/`: GET lists, POST creates, other verbs are not routed. */
  function HandleCollection(xss: Sanitizer, store: Store, verb: Verb, originalUrl: string, body: Obj, ctx: Context): (h: Handled)
    requires ValidContext(store, ctx)
    ensures verb == GET ==> h.store == store
    ensures AllComplete(store) ==> AllComplete(h.store)
  {
    match verb
    case GET => ListStudents(xss, store, ctx.listing)
    case POST => CreateStudent(xss, store, originalUrl, body, ctx.freshId)
    case _ => Handled(store, Unrouted)
  }

  /**
   * The item route `/:id` with the path id already read by `Number`: the
   * lookup answers 404 for an unknown id before any verb's handler runs.
   */
  function HandleItem(xss: Sanitizer, store: Store, verb: Verb, pathId: Option<int>, body: Obj, now: int): (h: Handled)
    ensures !FindStudent(store, pathId).Success? ==> h == Handled(store, StudentNotFound)
    ensures verb == GET ==> h.store == store
    ensures AllComplete(store) ==> AllComplete(h.store)
  {
    match FindStudent(store, pathId)
    case Failure(notFound) => Handled(store, notFound)
    case Success((id, s)) =>
      match verb
      case GET => Handled(store, GetStudent(xss, id, s))
      case DELETE => DeleteStudent(store, id)
      case PATCH => PatchStudent(xss, store, id, body, now)
      case POST => Handled(store, Unrouted)
  }

  /** The router: a request is sent to its route's handler for the verb. */
  function Handle(xss: Sanitizer, store: Store, req: Request, ctx: Context): (h: Handled)
    requires ValidContext(store, ctx)
    ensures req.route.Item? && !FindStudent(store, ParseNumber(req.route.param)).Success? ==>
      h == Handled(store, StudentNotFound)
    ensures req.verb == GET ==> h.store == store
    ensures AllComplete(store) ==> AllComplete(h.store)
  {
    match req.route
    case Collection => HandleCollection(xss, store, req.verb, req.originalUrl, req.body, ctx)
    case Item(param) => HandleItem(xss, store, req.verb, ParseNumber(param), req.body, ctx.now)
  }
}
