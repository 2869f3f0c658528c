/**
 * The client side of the summary endpoint (generateStudentSummary in main.go):
 * after the POST to the generation endpoint, the body is read as a stream of
 * JSON objects; the string "response" members are concatenated until the first
 * object whose "done" member is true.
 *
 * The request itself (prompt text, JSON payload, the HTTP call) is abstracted
 * into an Upstream value: either no HTTP response at all, or a status code and
 * the sequence of values the JSON stream decoder would return, in order. The
 * end of that sequence is the decoder's io.EOF.
 */
module SummaryClient {
  import opened Wrappers
  import opened Http

  /** One decoding step. For a decoded object, `response` is Some exactly when
      its "response" member is a JSON string and `done` is Some exactly when its
      "done" member is a JSON boolean; every other member is ignored.
      DecodeError is a value the decoder rejects. */
  datatype Item = Frame(response: Option<string>, done: Option<bool>) | DecodeError

  datatype Upstream = Unreachable | Answer(status: int, stream: seq<Item>)

  /** The ways generateStudentSummary returns a non-nil error. */
  datatype SummaryError =
    | RequestFailed        // http.Post returned an error
    | BadStatus(status: int)
    | DecodeFailed         // the decoder rejected a value before the end frame
    | EndOfStream          // io.EOF: the body ended before a frame with done == true
    | EmptyResponse

  /** The text a decoding step contributes: the "response" string, if any. */
  function Piece(item: Item): string {
    if item.Frame? && item.response.Some? then item.response.value else ""
  }

  /** A frame whose "done" member is the boolean true ends the loop. */
  predicate Ends(item: Item) {
    item.Frame? && item.done == Some(true)
  }

  /** The loop body, frame by frame: the accumulated text or the first error. */
  function Collect(items: seq<Item>): Result<string, SummaryError> {
    if items == [] then Err(EndOfStream)
    else if items[0].DecodeError? then Err(DecodeFailed)
    else if Ends(items[0]) then Ok(Piece(items[0]))
    else
      match Collect(items[1..])
      case Ok(rest) => Ok(Piece(items[0]) + rest)
      case Err(e) => Err(e)
  }

  /** What generateStudentSummary returns for a given upstream behaviour. */
  function Summarize(up: Upstream): Result<string, SummaryError> {
    match up
    case Unreachable => Err(RequestFailed)
    case Answer(status, stream) =>
      if status != StatusOK then Err(BadStatus(status))
      else
        match Collect(stream)
        case Err(e) => Err(e)
        case Ok(text) => if text == "" then Err(EmptyResponse) else Ok(text)
  }

  // ---------------------------------------------------------------------------
  // An independent description of the stream: where it stops, and the text of
  // a prefix.

  /** The concatenation, in order, of the text of every item of `items`. */
  function Concat(items: seq<Item>): string {
    if items == [] then "" else Piece(items[0]) + Concat(items[1..])
  }

  /** Every item before position k decoded and did not end the stream. */
  predicate Plain(items: seq<Item>, k: int)
    requires 0 <= k <= |items|
  {
    forall j :: 0 <= j < k ==> items[j].Frame? && !Ends(items[j])
  }

  /** The loop stops at position k: the first frame with done == true. */
  predicate StopsAt(items: seq<Item>, k: int) {
    0 <= k < |items| && Ends(items[k]) && Plain(items, k)
  }

  /** The decoder fails at position k, before any frame ended the stream. */
  predicate FailsAt(items: seq<Item>, k: int) {
    0 <= k < |items| && items[k].DecodeError? && Plain(items, k)
  }

  lemma {:induction false} ConcatSnoc(items: seq<Item>, item: Item)
    ensures Concat(items + [item]) == Concat(items) + Piece(item)
  {
    if items == [] {
      assert [item][1..] == [];
    } else {
      assert (items + [item])[1..] == items[1..] + [item];
      ConcatSnoc(items[1..], item);
    }
  }

  /** On a stream that stops at k, the loop yields exactly the text of the
      frames up to and including k. */
  lemma {:induction false} CollectStops(items: seq<Item>, k: int)
    requires StopsAt(items, k)
    ensures Collect(items) == Ok(Concat(items[..k + 1]))
  {
    if k == 0 {
      assert items[..1][1..] == [];
      assert Concat(items[..1]) == Piece(items[0]);
    } else {
      assert StopsAt(items[1..], k - 1);
      CollectStops(items[1..], k - 1);
      assert items[..k + 1][1..] == items[1..][..k];
    }
  }

  /** A decoding error before the end frame makes the loop fail, whatever follows. */
  lemma {:induction false} CollectFails(items: seq<Item>, k: int)
    requires FailsAt(items, k)
    ensures Collect(items) == Err(DecodeFailed)
  {
    if k > 0 {
      assert FailsAt(items[1..], k - 1);
      CollectFails(items[1..], k - 1);
    }
  }

  /** A stream that ends without a done frame and without a decoding error
      gives io.EOF. */
  lemma {:induction false} CollectRunsOut(items: seq<Item>)
    requires Plain(items, |items|)
    ensures Collect(items) == Err(EndOfStream)
  {
    if items != [] {
      assert Plain(items[1..], |items| - 1);
      CollectRunsOut(items[1..]);
    }
  }

  /** Conversely, whenever the loop yields text, there is a stopping frame and
      the text is that of the prefix ending there. */
  lemma {:induction false} CollectOkStops(items: seq<Item>)
    requires Collect(items).Ok?
    ensures exists k :: StopsAt(items, k) && Collect(items).value == Concat(items[..k + 1])
  {
    if Ends(items[0]) {
      assert StopsAt(items, 0);
      assert items[..1][1..] == [];
      assert Concat(items[..1]) == Piece(items[0]);
    } else {
      CollectOkStops(items[1..]);
      var k :| StopsAt(items[1..], k) && Collect(items[1..]).value == Concat(items[1..][..k + 1]);
      assert StopsAt(items, k + 1);
      assert items[..k + 2][1..] == items[1..][..k + 1];
    }
  }

  /** Frames after the end frame are never read: replacing them changes nothing. */
  lemma IgnoresTrailing(items: seq<Item>, k: int, rest: seq<Item>)
    requires StopsAt(items, k)
    ensures Collect(items[..k + 1] + rest) == Collect(items)
  {
    var cut := items[..k + 1] + rest;
    assert cut[..k + 1] == items[..k + 1];
    assert StopsAt(cut, k);
    CollectStops(cut, k);
    CollectStops(items, k);
  }

  /** Success of generateStudentSummary, in terms of the stopping frame: a 200
      reply whose stream stops at k yields the text up to k, unless it is empty. */
  lemma SummarizeStops(up: Upstream, k: int)
    requires up.Answer? && up.status == StatusOK && StopsAt(up.stream, k)
    ensures var text := Concat(up.stream[..k + 1]);
            Summarize(up) == if text == "" then Err(EmptyResponse) else Ok(text)
  {
    CollectStops(up.stream, k);
  }

  /** Any success comes from a 200 reply with a stopping frame, and its text
      is that of the frames up to the stop, which is never empty. */
  lemma SummarizeOkStops(up: Upstream)
    requires Summarize(up).Ok?
    ensures up.Answer? && up.status == StatusOK && Summarize(up).value != ""
    ensures exists k :: StopsAt(up.stream, k) && Summarize(up).value == Concat(up.stream[..k + 1])
  {
    CollectOkStops(up.stream);
  }

  /** The two-frame stream "Hi " then "there" with done == true, followed by
      anything, summarises to "Hi there". */
  lemma HiThere(rest: seq<Item>)
    ensures Summarize(Answer(StatusOK,
              [Frame(Some("Hi "), None), Frame(Some("there"), Some(true))] + rest))
            == Ok("Hi there")
  {
    var stream := [Frame(Some("Hi "), None), Frame(Some("there"), Some(true))] + rest;
    assert StopsAt(stream, 1);
    CollectStops(stream, 1);
    assert stream[..2][1..][1..] == [];
    assert Concat(stream[..2][1..]) == "there";
    assert Concat(stream[..2]) == "Hi " + "there" == "Hi there";
  }

  // ---------------------------------------------------------------------------

  /** generateStudentSummary after the request is sent: check the status, then
      decode frames one at a time until the end frame. */
  method GenerateStudentSummary(up: Upstream) returns (r: Result<string, SummaryError>)
    ensures r == Summarize(up)
    ensures r.Ok? ==> r.value != ""
  {
    if up.Unreachable? {
      return Err(RequestFailed);
    }
    if up.status != StatusOK {
      return Err(BadStatus(up.status));
    }
    var stream := up.stream;
    var accumulated := "";
    var i := 0;
    while true
      invariant 0 <= i <= |stream|
      invariant Plain(stream, i)
      invariant accumulated == Concat(stream[..i])
      decreases |stream| - i
    {
      if i == |stream| {
        assert stream[..i] == stream;
        CollectRunsOut(stream);
        return Err(EndOfStream);
      }
      var part := stream[i];
      ghost var before := accumulated;
      if part.DecodeError? {
        CollectFails(stream, i);
        return Err(DecodeFailed);
      }
      assert stream[..i + 1] == stream[..i] + [part];
      ConcatSnoc(stream[..i], part);
      if part.response.Some? {
        accumulated := accumulated + part.response.value;
      }
      if part.done == Some(true) {
        CollectStops(stream, i);
        assert accumulated == before + Piece(part);
        assert Concat(stream[..i + 1]) == before + Piece(part);
        assert Collect(stream) == Ok(accumulated);
        break;
      }
      i := i + 1;
    }
    if accumulated == "" {
      return Err(EmptyResponse);
    }
    return Ok(accumulated);
  }
}
