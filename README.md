# Student service: store handlers and summary stream

This project models the core of a small Go HTTP service (`main.go`). The service keeps
student records in an in-memory slice. It exposes list, get, create, update and delete
handlers over that slice. A summary handler sends a record to a text-generation endpoint
and reads back a streamed answer.

Modules:

- `Wrappers` (`wrappers.dfy`): `Option` and `Result`.
- `Http` (`http.dfy`): the status codes used (200, 201, 400, 404, 500).
- `SummaryClient` (`summary.dfy`): the part of `generateStudentSummary` after the request is
  sent. The endpoint's behaviour is an `Upstream` value: either `Unreachable` (the POST
  failed) or `Answer(status, stream)`. The stream is the sequence of values the JSON stream
  decoder returns, each a `Frame(response, done)` or a `DecodeError`. Running off the end of
  the sequence is the decoder's `io.EOF`. `Collect` and `Summarize` give the loop's result
  frame by frame. `Concat`, `StopsAt` and `FailsAt` describe the same result independently:
  the text up to the first frame with `done == true`. Lemmas connect the two descriptions,
  and `GenerateStudentSummary` is the loop itself, proved equal to `Summarize`.
- `Students` (`store.dfy`): the `Student` record, the seed data, the validation order
  (`Rejection`) and the first-match search (`IndexOf`, and the loop `FindFirst`). The class
  `Store` owns the slice as a `seq<Student>` field. Each handler is a method that returns a
  `Response`: a status with a payload, or `IdParseError` when the path id did not parse.
  Lemmas state what holds across requests: ids stay 1..n under create, ids collide after a
  delete, update keeps ids, and, while ids are unique, a second delete of the same id gets
  404. Once ids are duplicated, a second delete removes the remaining duplicate instead.

Whether an e-mail address is valid (`net/mail.ParseAddress`) is a parameter of the handlers,
`isValidEmail: string -> bool`. Nothing is assumed about it. The summary handler takes
`generate: Student -> Upstream`, which is how the endpoint answers the request built from
a record.

Two behaviours of the code are worth knowing:

- Ids are `len(students) + 1` at creation, so a create after a delete can give the new
  record the id of a live one. `DeleteThenCreateCollides` proves it.
- A path id that is not a number makes the handler return the `strconv.Atoi` error to the
  framework; the handler sends no reply of its own. The model returns `IdParseError`.

## Model

| member | source | states |
|---|---|---|
| `Students.Rejection` | main.go:116-124 | The message is "Name is required" iff the name is empty; otherwise "Age must be a positive integer" iff age <= 0; otherwise "Invalid email format" iff the address is invalid; no message iff all three checks pass. |
| `Students.IndexOf` | main.go:102-106 | The result is the position of the first record with the id, if one exists. `None` means no record has that id. |
| `Students.FirstMatch` | main.go:137-143 | A position holding the id, with no earlier position holding it, is what the search finds. |
| `Students.FindFirst` | main.go:176-184 | The handlers' search loop returns the first position with the id, or `None` when no record has it, and agrees with `IndexOf`. |
| `Students.Without` | main.go:190 | The splice leaves one record fewer. Records before the cut keep their positions, and later ones move down by one, in order. |
| `Students.Store.constructor` | main.go:21-25 | The store starts with the three seed records, ids 1 to 3. |
| `Students.Store.List` | main.go:92-94 | Listing replies 200 with the whole slice in insertion order. |
| `Students.Store.Get` | main.go:96-108 | An unparsable id is returned as an error. An absent id gives 404 "Student not found". Otherwise the reply is 200 with the first record whose id matches. The store does not change. |
| `Students.Store.Create` | main.go:110-129 | A body failing validation gives 400 with the first failing check's message, and the store is unchanged. A valid body appends exactly one record: id = old length + 1, the body's name, age and email. Earlier records are unchanged, and the reply is 201 with the new record. |
| `Students.Store.Update` | main.go:131-168 | The id is looked up before the body is validated, so an unknown id gives 404 even for an invalid body. A rejected body gives 400 and changes nothing. Otherwise only the first matching record changes: it gets the body's name, age and email, and keeps its id and position. The reply is 200 "student updated". |
| `Students.Store.Delete` | main.go:170-192 | An unknown id gives 404 and changes nothing. Otherwise exactly the first matching record is removed, the length drops by one, the rest keep their order, and the reply is 200 "student deleted". |
| `Students.Store.Summary` | main.go:194-216 | An unknown id gives 404. Otherwise a successful generation gives 200 with `{summary: text}`, where the text is non-empty. Any failure of the generation call gives 500 "Failed to generate summary". |
| `Students.SeedIsSequential` | main.go:21-25 | The seed's ids are 1..3 in order and unique. |
| `Students.SequentialIdsAreUnique` | main.go:126 | Ids 1..n in order are pairwise distinct. |
| `Students.CreateKeepsSequential` | main.go:126-127 | If the ids are 1..n, a create keeps them 1..n+1 and unique. |
| `Students.CreateThenGet` | main.go:102-107 | If no record holds the id len + 1, a get of the id a create just assigned finds the created record, equal to the body with that id. |
| `Students.SequentialIdsFresh` | main.go:126 | With ids 1..n, no record holds the id the next create assigns. |
| `Students.DeleteThenCreateCollides` | main.go:126 | If the ids are 1..n, deleting any record but the last and then creating gives the new record the last record's id. Ids are then no longer unique. |
| `Students.SeedCollision` | main.go:190 | On the seed, deleting id 1 and then creating assigns id 3, which Rob already holds. |
| `Students.UpdateKeepsIds` | main.go:164-166 | An update keeps every id in place, so it keeps ids unique and keeps ids 1..n. |
| `Students.UpdateThenGet` | main.go:164-166 | After an update of an id, a get of that id finds the updated record at the same position. |
| `Students.DeleteKeepsUnique` | main.go:190 | Removing a record keeps the remaining ids unique. |
| `Students.DeleteTwice` | main.go:186-188 | With unique ids, the deleted id is no longer found, so a second delete answers 404. |
| `Students.DeleteLeavesDuplicate` | main.go:178-190 | When a later record shares the deleted id, that id is still found after the delete, so a second delete does not answer 404. |
| `Students.SeedDeleteTwice` | main.go:170-192 | On the seed, deleting id 1, creating (id 3) and deleting id 3 removes Rob, and id 3 is still found as the new record. |
| `SummaryClient.ConcatSnoc` | main.go:68-70 | Appending a frame adds its string `response` (or nothing) to the end of the accumulated text. |
| `SummaryClient.CollectStops` | main.go:62-75 | When the first `done == true` frame is at position k and every earlier value decoded, the loop yields the in-order concatenation of the string `response` fields of frames 0..k. |
| `SummaryClient.CollectFails` | main.go:64-66 | A decode error before any `done` frame fails the loop, whatever follows it. |
| `SummaryClient.CollectRunsOut` | main.go:64-66 | A stream that ends before any `done` frame and without a decode error fails with end of stream. |
| `SummaryClient.CollectOkStops` | main.go:62-75 | Every success has a first `done` frame, and the text is the concatenation up to and including it. |
| `SummaryClient.IgnoresTrailing` | main.go:72-74 | Frames after the first `done` frame are never read: replacing them does not change the result. |
| `SummaryClient.SummarizeStops` | main.go:55-82 | A 200 reply whose stream stops at k yields the text up to k. If that text is empty, the result is the empty-response error. |
| `SummaryClient.SummarizeOkStops` | main.go:55-82 | A success implies a 200 reply, a stream with a first `done` frame, and non-empty text equal to the concatenation up to that frame. |
| `SummaryClient.HiThere` | main.go:62-82 | A 200 stream of "Hi " then "there" with `done == true`, followed by anything, yields "Hi there". |
| `SummaryClient.GenerateStudentSummary` | main.go:49-82 | The request and read loop returns exactly `Summarize`. An unreachable endpoint, a non-200 status, a decode error, end of stream before `done`, or empty text each give an error. A success is never empty. |

## Left out

- Routing, `c.Bind` body decoding, `c.JSON`/`c.String` serialisation, the root route ("Well, hello there!") and server start. These are web framework plumbing. Handlers take an already-decoded `Student`, so a body that fails to bind is not modelled.
- `strconv.Atoi` is a library call. The path id arrives as `Parsed(n)` or `Unparsable`.
- `net/mail.ParseAddress` is a foreign library (the address syntax of section 3.4 of RFC 5322). It is the parameter `isValidEmail`. The `Printf` logging of invalid addresses is a side effect with no contract.
- Prompt formatting, `json.Marshal` of the payload, `http.Post` and the JSON stream decoder are formatting, JSON and network libraries. They are replaced by the abstract `Upstream` value. `json.Marshal` of a map of strings cannot fail, so its error branch is not modelled.
- `fmt.Println` of the generated text is output with no contract.
- Go's `int` is 64 bits wide. The model uses unbounded integers, so an id of `len + 1` overflowing is not modelled.
- Concurrency: the source accesses the global slice without locking. The model is a single-threaded store.
- Aliasing of the slice's backing array by `append(students[:index], students[index+1:]...)` is not observable through the handlers and is not modelled. The store is a value sequence that each handler reassigns.
