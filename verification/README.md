# Students API request handling, modelled in Dafny

This project models the request handling of the students router of a small
REST API for student attendance records. The router lists, creates, reads,
patches and deletes students, and it sanitizes names against cross-site
scripting. The model is functional. The `students` table is an abstract store
`map<int, Student>` keyed by record id, and each handler is a pure function
from the store and the request to a `Handled`: the new store plus a
`Response` (status, optional `Location` header, body).

Modules, following the program's structure:

- `Wrappers`: the `Option` and `Result` types.
- `JsValues`: the JavaScript values the router handles (`JsVal`), with
  truthiness (`Truthy`), `== null` (`Nullish`) and property reads on plain
  objects (`Get`).
- `Decimal`: `${id}`, which builds the `Location` header, and
  `Number(req.params.id)`, which reads the path id back.
- `StudentsStore`: the table and the query-builder operations the router's
  data-access service stands for (lookup, insert, update, delete).
- `StudentsRouter`: `serializeStudent`, the handlers for `/` (GET, POST) and
  `/:id` (the lookup step every verb goes through, then GET, DELETE, PATCH),
  and `Handle`, which sends a request to its handler.
- `RouterProperties`: properties that span requests or hold for every
  response.

The sanitizer (the `xss` library) is a parameter of type `JsVal -> string`.
The server clock is the `now` field of a `Context`. The database supplies
the rest of the `Context`: the id an insert receives (`freshId`, which no
stored record has) and the order `getAllStudents` lists rows in (`listing`,
each stored id exactly once).

The `Location` header is built from `req.originalUrl`, which keeps any query
string, so it is "the collection path plus `/<id>`" only for a create request
without a query. The model follows the code: `Location` is
`originalUrl + "/" + id`.

## Model

| member | source | states |
|---|---|---|
| Decimal.NatToDecimal | src/students/students-router.js:44 | The text of a record id in `Location` is non-empty, all digits, has no leading zero, and denotes exactly that id |
| Decimal.IntToDecimal | src/students/students-router.js:44 | `${id}` is non-empty, starts with a minus sign exactly when the id is negative, never with a plus, and its digits are the canonical spelling of the id's magnitude |
| Decimal.LeadingZeroValue | src/students/students-router.js:55 | A leading zero digit does not change the number a run of digits denotes |
| Decimal.CanonicalDigits | src/students/students-router.js:55 | A run of digits without a superfluous leading zero is the canonical spelling of its value |
| Decimal.DigitsSpelling | src/students/students-router.js:55 | Every run of digits is some zeros followed by the canonical spelling of its value |
| Decimal.ParseNumber | src/students/students-router.js:55 | The path segment yields an id exactly when it is an optionally signed run of digits. The value is the one those digits spell, leading zeros aside, so "007" and "+7" read as 7. A `-` makes it non-positive, otherwise it is non-negative |
| Decimal.ParseIntToDecimal | src/students/students-router.js:44 | Reading the id text of a `Location` back as `Number` gives the same integer id |
| Decimal.IntToDecimalInjective | src/students/students-router.js:44 | Two different ids never produce the same `Location` suffix |
| StudentsStore.Insert | src/students/students-router.js:40 | The insert adds exactly the fresh id, which holds the given record, and leaves every existing record as it was |
| StudentsStore.Delete | src/students/students-router.js:76 | The delete removes exactly that id and leaves every other record as it was |
| StudentsStore.Update | src/students/students-router.js:104 | The update succeeds exactly when the database accepts the key column: no `id` field, the same id, or an integer not already used. On success the record moves to its target key with only the supplied columns overwritten, and every other record is kept. A refused update is a duplicate key exactly when the new `id` is an integer already used by another record, and an invalid key otherwise |
| StudentsRouter.SerializeRowFields | src/students/students-router.js:8-14 | A serialized row carries both names through the sanitizer and the id, `modified` and `attendance` unchanged |
| StudentsRouter.SerializeRows | src/students/students-router.js:23 | Serializing the listed rows gives one entry per row, in the same order |
| StudentsRouter.ListStudents | src/students/students-router.js:19-24 | GET `/` answers 200 with one entry per listed row, in listing order. Each entry has sanitized names and the id, `modified` and `attendance` passed through. The store is unchanged |
| StudentsRouter.FirstNullish | src/students/students-router.js:32-38 | The first key, in key order, whose value is null or undefined; none found means every key has a value |
| StudentsRouter.CreateStudent | src/students/students-router.js:26-48 | POST answers 400 exactly when one of the four create fields is null or absent. The message names the first such field in the order first_name, last_name, modified, attendance, and the store is unchanged. Otherwise only the fresh id is added, holding exactly the four body fields, a record with no null column. The answer is 201 with `Location` = `originalUrl/id` and the serialized new record |
| StudentsRouter.FindStudent | src/students/students-router.js:53-68 | The item lookup succeeds exactly when the path id parsed and is stored, yielding that id and record. Otherwise it yields the 404 "Student doesn't exist" response |
| StudentsRouter.GetStudent | src/students/students-router.js:69-71 | GET `/:id` answers 200 with the found record, names sanitized and the other fields passed through |
| StudentsRouter.DeleteStudent | src/students/students-router.js:72-79 | DELETE `/:id` removes only the found record and answers 204 with an empty body and no `Location` |
| StudentsRouter.PickTruthy | src/students/students-router.js:85-90 | The update object holds exactly the listed keys whose body values are truthy, each with the body's value |
| StudentsRouter.FilterKeepsAll | src/students/students-router.js:93 | When every value is truthy, `filter(Boolean)` keeps every value, so the count is the number of fields |
| StudentsRouter.EmptyUpdateObject | src/students/students-router.js:85-94 | The update object is empty exactly when none of the five patch fields is truthy in the body |
| StudentsRouter.StampedFields | src/students/students-router.js:85-102 | After stamping, each patch field holds the body's value when truthy and is absent otherwise, and `modified` holds the server time |
| StudentsRouter.StampedUpdate | src/students/students-router.js:102-104 | Writing the stamped update object keeps old values for falsy fields and sets `modified` to the server time. Its key is accepted and its target derived from the body's `id` alone |
| StudentsRouter.PatchStudent | src/students/students-router.js:80-107 | PATCH answers 400 exactly when no patch field is truthy, leaving the store unchanged. It answers 500 with the store unchanged exactly when the database refuses the body's `id`. Otherwise it answers 200 and overwrites only the truthy fields of the path's record, `modified` always getting the server time; no other record changes. The 200 response echoes the update object, not the stored record: absent fields read as undefined and `modified` is the server time |
| StudentsRouter.HandleCollection | src/students/students-router.js:17-48 | On `/`, GET never changes the store, and neither GET nor POST leaves a record with a null or undefined column |
| StudentsRouter.HandleItem | src/students/students-router.js:51-107 | On `/:id`, an id with no record answers 404 "Student doesn't exist" before any verb's handler runs, with the store unchanged. GET never changes the store, and no verb leaves a record with a null or undefined column |
| StudentsRouter.Handle | src/students/students-router.js:51-68 | Every verb on `/:id` whose id is unknown or not a number answers 404 "Student doesn't exist" with the store unchanged. GET never changes the store, and no request leaves a record with a null or undefined column |
| RouterProperties.ResponsesSanitized | src/students/students-router.js:8-14 | Every student in every response has both names produced by the sanitizer |
| RouterProperties.ErrorsLeaveStoreUnchanged | src/students/students-router.js:31-100 | Any response with status 400 or above comes with the store unchanged |
| RouterProperties.ListShowsEachStudentOnce | src/students/students-router.js:19-24 | The GET `/` list shows every stored student exactly once and nothing else, each as its serialized record |
| RouterProperties.CreatedLocationResolves | src/students/students-router.js:40-45 | After a 201, `Location` ends in the new id, and a GET on that id answers 200 with the body the create returned |
| RouterProperties.DeleteThenNotFound | src/students/students-router.js:72-79 | After a 204 delete, any verb on the same path answers 404 "Student doesn't exist" |
| RouterProperties.PatchDropsFalsyValues | src/students/students-router.js:86-100 | A patch of only `attendance: 0` is rejected as empty. Sent beside a truthy field, the 0 is dropped and the stored attendance is kept |
| RouterProperties.PatchStampsServerTime | src/students/students-router.js:102 | A PATCH request answered 200 named a stored record by its path id. The record at the patched key and the response both carry the server time as `modified`, whatever the body sent |

## Left out

- Express wiring, `express.json()`, `req.app.get('db')`, `next` chaining and the request-body logging: transport plumbing with no decision content.
- The data-access service (students-services.js) is not part of this model. Its operations are modelled as the plain query-builder calls they stand for, and the `id` a create receives is a parameter.
- StudentsStore.Update: an `id` in a patch body rewrites the key column. The model accepts only an integer `id` (equal to the path id, or unused). Any other value is a storage failure, and the database's text-to-integer coercion is not modelled.
- Column types are not checked: every value is stored as sent, and a type mismatch the database would reject is not modelled.
- Database failures of the list, lookup, insert and delete calls are not modelled. Only the patch's key conflict reaches the 500 path.
- The application's 500 error handler (src/app.js:36-45) is not modelled. Its body, which depends on the environment, is the abstract `ServerError`.
- The rest of src/app.js (logging, security and CORS middleware, the hello-world route, the broken `/students` route) is not modelled: it is configuration with no logic about students.
- The `xss` library's escaping rules are not modelled: the sanitizer is an arbitrary function parameter.
- `new Date()` is the `now` parameter; the clock is not modelled.
- Decimal.ParseNumber: `Number` also accepts surrounding whitespace, hexadecimal, exponent and fractional forms such as `1.0` or `1e2`. The model reads only optionally signed digit runs; every other segment finds no record. What the database does with `NaN` is not modelled.
- JavaScript numbers are modelled as integers: fractions, `NaN`, `-0` and precision loss beyond 2^53 are not modelled.
- JSON encoding of responses is not modelled. A field that is undefined, which JSON output omits, stays as `Undefined` in the response body.
- Percent-decoding of path segments and encoding of the `Location` header by the framework are not modelled.
- Verbs other than GET, POST, PATCH and DELETE are not modelled. A verb a route does not handle gets the framework's default 404, modelled as the `NotRouted` body.
