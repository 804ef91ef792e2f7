/**
 * Properties of the students router that span requests or hold of every
 * response: what a client observes after a create or a delete, that error
 * responses never change the store, that the list shows each student once,
 * and that no name leaves the server unsanitized.
 */
module RouterProperties {
  import opened Wrappers
  import opened JsValues
  import opened Decimal
  import opened StudentsStore
  import opened StudentsRouter

  /** A string the sanitizer produced from some input. */
  ghost predicate Sanitized(xss: Sanitizer, text: string) {
    exists v :: xss(v) == text
  }

  ghost predicate JsonSanitized(xss: Sanitizer, j: StudentJson) {
    Sanitized(xss, j.firstName) && Sanitized(xss, j.lastName)
  }

  /** Every student a response body carries has both names sanitized. */
  ghost predicate BodySanitized(xss: Sanitizer, b: Body) {
    match b
    case One(j) => JsonSanitized(xss, j)
    case Many(js) => forall i :: 0 <= i < |js| ==> JsonSanitized(xss, js[i])
    case _ => true
  }

  /** No response of the router carries a name that did not pass through the sanitizer. */
  lemma ResponsesSanitized(xss: Sanitizer, store: Store, req: Request, ctx: Context)
    requires ValidContext(store, ctx)
    ensures BodySanitized(xss, Handle(xss, store, req, ctx).response.body)
  {
    var h := Handle(xss, store, req, ctx);
    match h.response.body
    case One(j) =>
      assert exists v :: xss(v) == j.firstName;
      assert exists v :: xss(v) == j.lastName;
    case Many(js) =>
      assert req.route.Collection? && req.verb == GET;
      forall i | 0 <= i < |js|
        ensures JsonSanitized(xss, js[i])
      {
        var s := store[ctx.listing[i]];
        assert xss(s.firstName) == js[i].firstName;
        assert xss(s.lastName) == js[i].lastName;
      }
    case _ =>
  }

  /** A request the router answers with an error status leaves the store as it was. */
  lemma ErrorsLeaveStoreUnchanged(xss: Sanitizer, store: Store, req: Request, ctx: Context)
    requires ValidContext(store, ctx)
    ensures Handle(xss, store, req, ctx).response.status >= 400 ==> Handle(xss, store, req, ctx).store == store
  {
  }

  /** GET `/` shows each stored student exactly once, serialized, and nothing else. */
  lemma ListShowsEachStudentOnce(xss: Sanitizer, store: Store, listing: seq<int>, id: int)
    requires IsListing(store, listing)
    ensures var js := ListStudents(xss, store, listing).response.body.students;
      && (forall i :: 0 <= i < |js| ==> js[i].id.Num? && js[i].id.n in store)
      && (id in store <==> exists i :: 0 <= i < |js| && js[i].id == Num(id))
      && (forall i, j :: 0 <= i < j < |js| ==> js[i].id != js[j].id)
      && (forall i :: 0 <= i < |js| && js[i].id == Num(id) ==>
            js[i] == StudentJson(xss(store[id].firstName), xss(store[id].lastName), Num(id), store[id].modified, store[id].attendance))
  {
    var js := ListStudents(xss, store, listing).response.body.students;
    if id in store {
      var i :| 0 <= i < |listing| && listing[i] == id;
      assert js[i].id == Num(id);
    }
  }

  /**
   * After a successful create, the `Location` header ends in the new id and
   * a GET on that path answers 200 with the same body the create answered.
   */
  lemma CreatedLocationResolves(xss: Sanitizer, store: Store, url: string, body: Obj, ctx: Context, ctx': Context)
    requires ValidContext(store, ctx)
    requires Handle(xss, store, Request(POST, Collection, url, body), ctx).response.status == Created
    requires ValidContext(Handle(xss, store, Request(POST, Collection, url, body), ctx).store, ctx')
    ensures var created := Handle(xss, store, Request(POST, Collection, url, body), ctx);
      var path := IntToDecimal(ctx.freshId);
      && created.response.location == Some(url + "/" + path)
      && Handle(xss, created.store, Request(GET, Item(path), url + "/" + path, map[]), ctx').response
         == Response(Ok, None, created.response.body)
  {
    ParseIntToDecimal(ctx.freshId);
  }

  /** Once a record is deleted, every verb on its path answers 404 "Student doesn't exist". */
  lemma DeleteThenNotFound(xss: Sanitizer, store: Store, param: string, body: Obj, ctx: Context,
                           verb: Verb, body': Obj, ctx': Context)
    requires ValidContext(store, ctx)
    requires Handle(xss, store, Request(DELETE, Item(param), "", body), ctx).response.status == NoContent
    requires ValidContext(Handle(xss, store, Request(DELETE, Item(param), "", body), ctx).store, ctx')
    ensures var deleted := Handle(xss, store, Request(DELETE, Item(param), "", body), ctx);
      && deleted.response == Response(NoContent, None, Empty)
      && Handle(xss, deleted.store, Request(verb, Item(param), "", body'), ctx') == Handled(deleted.store, StudentNotFound)
  {
  }

  /**
   * A patch whose only field is falsy, such as an attendance of 0, is
   * rejected as empty; beside a truthy field it is silently dropped.
   */
  lemma PatchDropsFalsyValues(xss: Sanitizer, store: Store, id: int, now: int)
    requires id in store
    ensures PatchStudent(xss, store, id, map["attendance" := Num(0)], now)
            == Handled(store, Response(BadRequest, None, ErrorMessage(EmptyPatchMessage)))
    ensures var h := PatchStudent(xss, store, id, map["attendance" := Num(0), "last_name" := Str("Lee")], now);
      && h.response.status == Ok
      && h.store[id].attendance == store[id].attendance
      && h.store[id].lastName == Str("Lee")
  {
    var zero: Obj := map["attendance" := Num(0)];
    forall k | k in PatchKeys
      ensures !Truthy(Get(zero, k))
    {
    }
    var mixed: Obj := map["attendance" := Num(0), "last_name" := Str("Lee")];
    assert "last_name" in PatchKeys && Truthy(Get(mixed, "last_name"));
    assert PatchKeyAccepted(store, id, mixed);
  }

  /**
   * A PATCH request the router answers with 200 has stamped the server time
   * on the stored record and in the response, whatever `modified` the body
   * sent, and it wrote to the record the path names.
   */
  lemma PatchStampsServerTime(xss: Sanitizer, store: Store, param: string, url: string, body: Obj, ctx: Context)
    requires ValidContext(store, ctx)
    ensures var patched := Handle(xss, store, Request(PATCH, Item(param), url, body), ctx);
      patched.response.status == Ok ==>
        && ParseNumber(param).Some? && ParseNumber(param).value in store
        && var key := PatchedKey(ParseNumber(param).value, body);
        && key in patched.store
        && patched.store[key].modified == Date(ctx.now)
        && patched.response.body.One?
        && patched.response.body.student.modified == Date(ctx.now)
  {
    var pathId := ParseNumber(param);
    var h := HandleItem(xss, store, PATCH, pathId, body, ctx.now);
    if h.response.status == Ok {
      assert FindStudent(store, pathId).Success?;
    }
  }
}
