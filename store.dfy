/**
 * The in-memory student store of main.go and the logic of its handlers
 * (list, get, create, update, delete, summary). The store is the global slice
 * `students`; here it is the field of a Store object, and every handler is a
 * method of that object. Routing and JSON (de)serialisation are not modelled:
 * a handler receives the path id already run through strconv.Atoi and the
 * request body already bound to a Student, and returns the status and payload
 * it would hand to c.JSON.
 */
module Students {
  import opened Wrappers
  import opened Http
  import opened SummaryClient

  datatype Student = Student(id: int, name: string, age: int, email: string)

  /** The ":id" path parameter after strconv.Atoi: a number, or a parse error. */
  datatype PathId = Parsed(value: int) | Unparsable

  /** What a handler passes to c.JSON as the body. */
  datatype Payload =
    | Text(message: string)
    | Record(student: Student)
    | Records(students: seq<Student>)
    | SummaryOf(summary: string)      // the object {"summary": ...}

  /** A handler either replies with a status and a payload, or returns the
      strconv.Atoi error to the framework unanswered. */
  datatype Response = Reply(status: int, payload: Payload) | IdParseError

  const NameRequired := "Name is required"
  const AgeNotPositive := "Age must be a positive integer"
  const InvalidEmail := "Invalid email format"
  const NotFound := "Student not found"
  const StudentUpdated := "student updated"
  const StudentDeleted := "student deleted"
  const SummaryFailed := "Failed to generate summary"

  /** The three records the process starts with. */
  function Seed(): seq<Student> {
    [ Student(1, "Rahul", 22, "rahul@gmail.com"),
      Student(2, "Alice", 23, "alice@gmail.com"),
      Student(3, "Rob", 24, "rob@gmail.com") ]
  }

  // ---------------------------------------------------------------------------
  // Validation. Whether an address parses (net/mail.ParseAddress) is a
  // parameter, `isValidEmail`, about which nothing is assumed.

  /** The message of the first check the body fails, in the handlers' order:
      name, then age, then email; None when the body passes all three. */
  function Rejection(body: Student, isValidEmail: string -> bool): (r: Option<string>)
    ensures r == Some(NameRequired) <==> body.name == ""
    ensures r == Some(AgeNotPositive) <==> body.name != "" && body.age <= 0
    ensures r == Some(InvalidEmail) <==> body.name != "" && body.age > 0 && !isValidEmail(body.email)
    ensures r == None <==> body.name != "" && body.age > 0 && isValidEmail(body.email)
  {
    if body.name == "" then Some(NameRequired)
    else if body.age <= 0 then Some(AgeNotPositive)
    else if !isValidEmail(body.email) then Some(InvalidEmail)
    else None
  }

  // ---------------------------------------------------------------------------
  // Lookup by id: every handler with an ":id" scans the slice from the front
  // and stops at the first record with that id.

  /** The position of the first record with the given id, if any. */
  function IndexOf(s: seq<Student>, id: int): (r: Option<nat>)
    ensures r.Some? ==> r.value < |s| && s[r.value].id == id
    ensures r.Some? ==> forall j :: 0 <= j < r.value ==> s[j].id != id
    ensures r.None? ==> forall j :: 0 <= j < |s| ==> s[j].id != id
  {
    if s == [] then None
    else if s[0].id == id then Some(0)
    else
      match IndexOf(s[1..], id)
      case Some(k) => Some(k + 1)
      case None => None
  }

  /** IndexOf finds a position exactly when it holds the first match. */
  lemma FirstMatch(s: seq<Student>, id: int, i: nat)
    requires i < |s| && s[i].id == id
    requires forall j :: 0 <= j < i ==> s[j].id != id
    ensures IndexOf(s, id) == Some(i)
  {
  }

  /** The search loop the handlers run over the slice. */
  method FindFirst(s: seq<Student>, id: int) returns (found: Option<nat>)
    ensures found.Some? ==> found.value < |s| && s[found.value].id == id
    ensures found.Some? ==> forall j :: 0 <= j < found.value ==> s[j].id != id
    ensures found.None? ==> forall j :: 0 <= j < |s| ==> s[j].id != id
    ensures found == IndexOf(s, id)
  {
    var i := 0;
    while i < |s|
      invariant 0 <= i <= |s|
      invariant forall j :: 0 <= j < i ==> s[j].id != id
    {
      if s[i].id == id {
        return Some(i);
      }
      i := i + 1;
    }
    return None;
  }

  /** The record at a position after an update: same id, the body's other fields. */
  function Overwritten(rec: Student, body: Student): Student {
    Student(rec.id, body.name, body.age, body.email)
  }

  /** The slice with position i cut out, as append(s[:i], s[i+1:]...) leaves it. */
  function Without(s: seq<Student>, i: nat): (r: seq<Student>)
    requires i < |s|
    ensures |r| == |s| - 1
    ensures forall j :: 0 <= j < i ==> r[j] == s[j]
    ensures forall j :: i <= j < |r| ==> r[j] == s[j + 1]
  {
    s[..i] + s[i + 1..]
  }

  // ---------------------------------------------------------------------------
  // Identifier discipline.

  /** The ids are exactly 1, 2, ..., n in order, as in the seed. */
  predicate SequentialIds(s: seq<Student>) {
    forall i :: 0 <= i < |s| ==> s[i].id == i + 1
  }

  /** No two records share an id. */
  predicate UniqueIds(s: seq<Student>) {
    forall i, j :: 0 <= i < j < |s| ==> s[i].id != s[j].id
  }

  /** The record Create appends: the body with the id len(students) + 1. */
  function Created(s: seq<Student>, body: Student): Student {
    body.(id := |s| + 1)
  }

  class Store {
    var students: seq<Student>

    constructor ()
      ensures students == Seed()
    {
      students := Seed();
    }

    /** GET /students: the whole slice, in order. */
    method List() returns (r: Response)
      ensures r == Reply(StatusOK, Records(students))
    {
      return Reply(StatusOK, Records(students));
    }

    /** GET /students/:id: the first record with that id, or 404. */
    method Get(id: PathId) returns (r: Response)
      ensures id.Unparsable? ==> r == IdParseError
      ensures id.Parsed? && IndexOf(students, id.value).None? ==> r == Reply(StatusNotFound, Text(NotFound))
      ensures id.Parsed? && IndexOf(students, id.value).Some? ==>
                r == Reply(StatusOK, Record(students[IndexOf(students, id.value).value]))
      ensures r.Reply? && r.status == StatusOK ==>
                r.payload.Record? && r.payload.student in students && r.payload.student.id == id.value
    {
      if id.Unparsable? {
        return IdParseError;
      }
      var found := FindFirst(students, id.value);
      if found.Some? {
        return Reply(StatusOK, Record(students[found.value]));
      }
      return Reply(StatusNotFound, Text(NotFound));
    }

    /** POST /students: validate, then append the body under id len + 1. */
    method Create(body: Student, isValidEmail: string -> bool) returns (r: Response)
      modifies this
      ensures Rejection(body, isValidEmail).Some? ==>
                r == Reply(StatusBadRequest, Text(Rejection(body, isValidEmail).value))
                && students == old(students)
      ensures Rejection(body, isValidEmail).None? ==>
                var created := Created(old(students), body);
                && created.id == |old(students)| + 1
                && created.name == body.name && created.age == body.age && created.email == body.email
                && students == old(students) + [created]
                && r == Reply(StatusCreated, Record(created))
    {
      if body.name == "" {
        return Reply(StatusBadRequest, Text(NameRequired));
      }
      if body.age <= 0 {
        return Reply(StatusBadRequest, Text(AgeNotPositive));
      }
      if !isValidEmail(body.email) {
        return Reply(StatusBadRequest, Text(InvalidEmail));
      }
      var created := body.(id := |students| + 1);
      students := students + [created];
      return Reply(StatusCreated, Record(created));
    }

    /** PUT /students/:id: find the record first, then validate the body,
        then overwrite name, age and email in place. */
    method Update(id: PathId, body: Student, isValidEmail: string -> bool) returns (r: Response)
      modifies this
      ensures id.Unparsable? ==> r == IdParseError && students == old(students)
      ensures id.Parsed? && IndexOf(old(students), id.value).None? ==>
                r == Reply(StatusNotFound, Text(NotFound)) && students == old(students)
      ensures id.Parsed? && IndexOf(old(students), id.value).Some? && Rejection(body, isValidEmail).Some? ==>
                r == Reply(StatusBadRequest, Text(Rejection(body, isValidEmail).value))
                && students == old(students)
      ensures id.Parsed? && IndexOf(old(students), id.value).Some? && Rejection(body, isValidEmail).None? ==>
                var i := IndexOf(old(students), id.value).value;
                && students == old(students)[i := Overwritten(old(students)[i], body)]
                && students[i].id == id.value
                && r == Reply(StatusOK, Text(StudentUpdated))
    {
      if id.Unparsable? {
        return IdParseError;
      }
      var found := FindFirst(students, id.value);
      if found.None? {
        return Reply(StatusNotFound, Text(NotFound));
      }
      if body.name == "" {
        return Reply(StatusBadRequest, Text(NameRequired));
      }
      if body.age <= 0 {
        return Reply(StatusBadRequest, Text(AgeNotPositive));
      }
      if !isValidEmail(body.email) {
        return Reply(StatusBadRequest, Text(InvalidEmail));
      }
      var i := found.value;
      students := students[i := students[i].(name := body.name, age := body.age, email := body.email)];
      return Reply(StatusOK, Text(StudentUpdated));
    }

    /** DELETE /students/:id: cut out the first record with that id. */
    method Delete(id: PathId) returns (r: Response)
      modifies this
      ensures id.Unparsable? ==> r == IdParseError && students == old(students)
      ensures id.Parsed? && IndexOf(old(students), id.value).None? ==>
                r == Reply(StatusNotFound, Text(NotFound)) && students == old(students)
      ensures id.Parsed? && IndexOf(old(students), id.value).Some? ==>
                var i := IndexOf(old(students), id.value).value;
                && students == Without(old(students), i)
                && |students| == |old(students)| - 1
                && r == Reply(StatusOK, Text(StudentDeleted))
    {
      if id.Unparsable? {
        return IdParseError;
      }
      var found := FindFirst(students, id.value);
      if found.None? {
        return Reply(StatusNotFound, Text(NotFound));
      }
      var index := found.value;
      students := students[..index] + students[index + 1..];
      return Reply(StatusOK, Text(StudentDeleted));
    }

    /** GET /students/:id/summary: find the record, ask the generation
        endpoint, and turn every failure into a generic 500. `generate` is how
        the endpoint answers the request built from a record. */
    method Summary(id: PathId, generate: Student -> Upstream) returns (r: Response)
      ensures id.Unparsable? ==> r == IdParseError
      ensures id.Parsed? && IndexOf(students, id.value).None? ==> r == Reply(StatusNotFound, Text(NotFound))
      ensures id.Parsed? && IndexOf(students, id.value).Some? ==>
                var outcome := Summarize(generate(students[IndexOf(students, id.value).value]));
                r == if outcome.Ok? then Reply(StatusOK, SummaryOf(outcome.value))
                     else Reply(StatusInternalServerError, Text(SummaryFailed))
      ensures r.Reply? && r.status == StatusOK ==> r.payload.SummaryOf? && r.payload.summary != ""
    {
      if id.Unparsable? {
        return IdParseError;
      }
      var found := FindFirst(students, id.value);
      if found.None? {
        return Reply(StatusNotFound, Text(NotFound));
      }
      var summary := GenerateStudentSummary(generate(students[found.value]));
      if summary.Err? {
        return Reply(StatusInternalServerError, Text(SummaryFailed));
      }
      return Reply(StatusOK, SummaryOf(summary.value));
    }
  }

  // ---------------------------------------------------------------------------
  // Properties of the store across requests.

  lemma SeedIsSequential()
    ensures SequentialIds(Seed()) && UniqueIds(Seed())
  {
  }

  lemma {:induction false} SequentialIdsAreUnique(s: seq<Student>)
    requires SequentialIds(s)
    ensures UniqueIds(s)
  {
    forall i, j | 0 <= i < j < |s| ensures s[i].id != s[j].id {
      assert s[i].id == i + 1 && s[j].id == j + 1;
    }
  }

  /** Without deletions, Create keeps the ids 1..n, so they stay unique. */
  lemma CreateKeepsSequential(s: seq<Student>, body: Student)
    requires SequentialIds(s)
    ensures SequentialIds(s + [Created(s, body)])
    ensures UniqueIds(s + [Created(s, body)])
  {
    var t := s + [Created(s, body)];
    assert forall i :: 0 <= i < |s| ==> t[i] == s[i];
    SequentialIdsAreUnique(t);
  }

  /** When no record holds the id len + 1 (as with ids 1..n), a GET of the id
      Create just assigned finds the created record. */
  lemma CreateThenGet(s: seq<Student>, body: Student)
    requires forall j :: 0 <= j < |s| ==> s[j].id != |s| + 1
    ensures IndexOf(s + [Created(s, body)], |s| + 1) == Some(|s|)
    ensures (s + [Created(s, body)])[|s|] == body.(id := |s| + 1)
  {
    var t := s + [Created(s, body)];
    forall j | 0 <= j < |s| ensures t[j].id != |s| + 1 {
      assert t[j] == s[j];
    }
    FirstMatch(t, |s| + 1, |s|);
  }

  /** With ids 1..n, no record holds the id the next Create assigns. */
  lemma SequentialIdsFresh(s: seq<Student>)
    requires SequentialIds(s)
    ensures forall j :: 0 <= j < |s| ==> s[j].id != |s| + 1
  {
  }

  /** The id quirk: once a record other than the last is deleted from a store
      with ids 1..n, the next Create reuses the id of the last record. */
  lemma DeleteThenCreateCollides(s: seq<Student>, i: nat, body: Student)
    requires SequentialIds(s) && i < |s| - 1
    ensures var t := Without(s, i);
            && Created(t, body).id == t[|t| - 1].id
            && !UniqueIds(t + [Created(t, body)])
  {
    var t := Without(s, i);
    assert t[|t| - 1] == s[|s| - 1];
    var u := t + [Created(t, body)];
    assert u[|t| - 1].id == u[|t|].id;
  }

  /** The same quirk on the seed: delete id 1, then create: the new record
      gets id 3, which Rob already has. */
  lemma SeedCollision(body: Student)
    ensures var t := Without(Seed(), 0);
            Created(t, body).id == 3 && t[1].id == 3 && t[1].name == "Rob"
  {
  }

  /** An update keeps every id where it was, so it keeps ids unique. */
  lemma UpdateKeepsIds(s: seq<Student>, i: nat, body: Student)
    requires i < |s|
    ensures var t := s[i := Overwritten(s[i], body)];
            && (forall j :: 0 <= j < |s| ==> t[j].id == s[j].id)
            && (UniqueIds(s) ==> UniqueIds(t))
            && (SequentialIds(s) ==> SequentialIds(t))
  {
  }

  /** After an update, a GET of the same id finds the updated record. */
  lemma {:induction false} UpdateThenGet(s: seq<Student>, id: int, body: Student)
    requires IndexOf(s, id).Some?
    ensures var i := IndexOf(s, id).value;
            IndexOf(s[i := Overwritten(s[i], body)], id) == Some(i)
  {
    var i := IndexOf(s, id).value;
    var t := s[i := Overwritten(s[i], body)];
    FirstMatch(t, id, i);
  }

  /** A deletion keeps the surviving ids unique. */
  lemma DeleteKeepsUnique(s: seq<Student>, i: nat)
    requires i < |s| && UniqueIds(s)
    ensures UniqueIds(Without(s, i))
  {
    var t := Without(s, i);
    forall a, b | 0 <= a < b < |t| ensures t[a].id != t[b].id {
      var a' := if a < i then a else a + 1;
      var b' := if b < i then b else b + 1;
      assert t[a] == s[a'] && t[b] == s[b'] && a' < b';
    }
  }

  /** With unique ids, deleting an id twice answers 404 the second time:
      the id is no longer found. */
  lemma DeleteTwice(s: seq<Student>, id: int)
    requires UniqueIds(s) && IndexOf(s, id).Some?
    ensures IndexOf(Without(s, IndexOf(s, id).value), id).None?
  {
    var i := IndexOf(s, id).value;
    var t := Without(s, i);
    forall k | 0 <= k < |t| ensures t[k].id != id {
      var k' := if k < i then k else k + 1;
      assert t[k] == s[k'] && k' != i;
    }
  }

  /** Without unique ids a second delete need not answer 404: when a later
      record shares the deleted id, the id is still found, now at the position
      just before that record's old one or earlier. */
  lemma {:induction false} DeleteLeavesDuplicate(s: seq<Student>, id: int, j: nat)
    requires IndexOf(s, id).Some? && IndexOf(s, id).value < j < |s| && s[j].id == id
    ensures var t := Without(s, IndexOf(s, id).value);
            IndexOf(t, id).Some? && IndexOf(t, id).value < j
  {
    var i := IndexOf(s, id).value;
    var t := Without(s, i);
    assert t[j - 1] == s[j];
  }

  /** The request sequence that shows it on the seed: DELETE 1, POST (id 3),
      DELETE 3 removes Rob, and id 3 is still found, now the new record. */
  lemma SeedDeleteTwice(body: Student)
    ensures var t := Without(Seed(), 0);
            var u := t + [Created(t, body)];
            && IndexOf(u, 3) == Some(1)
            && Without(u, 1) == [Seed()[1], Created(t, body)]
            && IndexOf(Without(u, 1), 3) == Some(1)
  {
    var t := Without(Seed(), 0);
    var u := t + [Created(t, body)];
    FirstMatch(u, 3, 1);
    FirstMatch(Without(u, 1), 3, 1);
  }
}
