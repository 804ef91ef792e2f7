/**
 * The `students` table as the router sees it through its data-access
 * service: a map from record id to the four stored columns. The service
 * itself (students-services.js) is not part of this model; its operations are
 * written here as the plain query-builder calls they stand for.
 */
module StudentsStore {
  import opened Wrappers
  import opened JsValues

  /** One row of the `students` table, less its id, which is the row's key in the store. */
  datatype Student = Student(firstName: JsVal, lastName: JsVal, modified: JsVal, attendance: JsVal)

  type Store = map<int, Student>

  /** A row with every column populated: no column is null or undefined. */
  predicate Complete(s: Student) {
    !Nullish(s.firstName) && !Nullish(s.lastName) && !Nullish(s.modified) && !Nullish(s.attendance)
  }

  /** The table keeps no partial records. */
  predicate AllComplete(store: Store) {
    forall id :: id in store ==> Complete(store[id])
  }

  /** A row as the query builder returns it: a plain object with the id and the four columns. */
  function Row(id: int, s: Student): Obj {
    map["id" := Num(id), "first_name" := s.firstName, "last_name" := s.lastName,
        "modified" := s.modified, "attendance" := s.attendance]
  }

  /**
   * The order `getAllStudents` returns the rows in: every stored id exactly
   * once. Which order that is belongs to the database.
   */
  predicate IsListing(store: Store, listing: seq<int>) {
    && (forall i :: 0 <= i < |listing| ==> listing[i] in store)
    && (forall id :: id in store ==> id in listing)
    && (forall i, j :: 0 <= i < j < |listing| ==> listing[i] != listing[j])
  }

  /** `getStudentById`: the row with that id, if any. */
  function Lookup(store: Store, id: int): Option<Student> {
    if id in store then Some(store[id]) else None
  }

  /** `insertStudent`: the database assigns `newId`, which no stored row has. */
  function Insert(store: Store, newId: int, s: Student): (store': Store)
    requires newId !in store
    ensures store'.Keys == store.Keys + {newId}
    ensures store'[newId] == s
    ensures forall id :: id in store ==> store'[id] == store[id]
  {
    store[newId := s]
  }

  /** `deleteStudent`: removes the row with that id. */
  function Delete(store: Store, id: int): (store': Store)
    ensures store'.Keys == store.Keys - {id}
    ensures forall other :: other in store' ==> store'[other] == store[other]
  {
    store - {id}
  }

  /** Why an update was refused by the database. */
  datatype StorageError =
    | DuplicateKey   // the new `id` is already some other row's id
    | InvalidKey     // the new `id` is not an integer

  /** The columns of `s` that `fields` supplies are overwritten; the others are kept. */
  function Overwrite(s: Student, fields: Obj): Student {
    Student(
      if "first_name" in fields then fields["first_name"] else s.firstName,
      if "last_name" in fields then fields["last_name"] else s.lastName,
      if "modified" in fields then fields["modified"] else s.modified,
      if "attendance" in fields then fields["attendance"] else s.attendance)
  }

  /** The id the row has after the update: a supplied integer `id` rewrites the key column. */
  function TargetKey(id: int, fields: Obj): int {
    if "id" in fields && fields["id"].Num? then fields["id"].n else id
  }

  /** Whether the database accepts the update's `id` column, if it has one. */
  predicate KeyAccepted(store: Store, id: int, fields: Obj) {
    "id" !in fields || (fields["id"].Num? && (fields["id"].n == id || fields["id"].n !in store))
  }

  /**
   * `updateStudent(id, fields)`: `UPDATE students SET <fields> WHERE id = <id>`.
   * Only the supplied columns change; an `id` among the fields re-keys the
   * row, and the database refuses a key that is taken or not an integer.
   */
  function Update(store: Store, id: int, fields: Obj): (r: Result<Store, StorageError>)
    requires id in store
    ensures r.Success? <==> KeyAccepted(store, id, fields)
    ensures r.Failure? ==> (r.error == DuplicateKey <==> fields["id"].Num?)
    ensures r.Failure? && r.error == DuplicateKey ==> fields["id"].n != id && fields["id"].n in store
    ensures r.Success? ==>
      && r.value.Keys == store.Keys - {id} + {TargetKey(id, fields)}
      && r.value[TargetKey(id, fields)] == Overwrite(store[id], fields)
      && forall other :: other in store && other != id ==> r.value[other] == store[other]
  {
    if !KeyAccepted(store, id, fields) then
      Failure(if fields["id"].Num? then DuplicateKey else InvalidKey)
    else
      Success((store - {id})[TargetKey(id, fields) := Overwrite(store[id], fields)])
  }
}
