/** The control endpoint (`src/server/executor.rs`, `handle_connection`): one read of at
    most 2048 bytes is classified into an HTTP error response or one command for the
    scheduler, whose reply becomes the body of a 200 response. The HTTP request line
    parser and the JSON decoder are inputs: the method and path they report, and a
    partial decoding function. */
module Server {
  import opened Prelude
  import opened Text
  import Commands

  /** The size of the buffer one read fills. */
  const BufferSize := 2048
  /** The separator between the head of a request and its body. */
  const Separator := "\r\n\r\n"
  const CommandPath := "/command"
  const MethodNotAllowed := "HTTP/1.1 405 Method Not Allowed\r\n\r\n\r\n"
  const NotFound := "HTTP/1.1 404 Not Found\r\n\r\n\r\n"
  const BadRequest := "HTTP/1.1 400 Bad Request\r\n\r\n\r\n"
  const OkStatus := "HTTP/1.1 200 Ok\r\n\r\n"

  /** The outcome of classifying a request: an error response written straight back,
      or the command to send to the scheduler. */
  datatype Classification = Reject(response: string) | Forward(command: Commands.Manager)

  /** The text of the zero-filled buffer after one read of `received`: the first
      `BufferSize` characters that arrived, then NULs up to the buffer's size. */
  function BufferText(received: string): (r: string)
    ensures |r| == BufferSize
    ensures forall i :: 0 <= i < BufferSize ==> r[i] == if i < |received| then received[i] else '\0'
  {
    var n := if |received| < BufferSize then |received| else BufferSize;
    received[..n] + Nuls(BufferSize - n)
  }

  /** `n` NUL characters. */
  function Nuls(n: nat): (r: string)
    ensures |r| == n
    ensures forall i :: 0 <= i < n ==> r[i] == '\0'
  {
    seq(n, _ => '\0')
  }

  /** The body: the text after the last separator, or the whole text when it has none. */
  function Body(text: string): (body: string)
    ensures Absent(text, Separator) ==> body == text
    ensures !Absent(text, Separator) ==> AfterLast(text, Separator, body)
    ensures |body| <= |text| && text[|text| - |body|..] == body
  {
    match RSplitOnce(text, Separator)
    case Some((_, tail)) =>
      assert text[|text| - |tail| - |Separator|..][|Separator|..] == tail;
      tail
    case None => text
  }

  /** The body up to its first NUL, if it has one. */
  function BeforeNul(body: string): (r: Option<string>)
    ensures r.None? <==> '\0' !in body
    ensures r.Some? ==> |r.value| < |body| && '\0' !in r.value && body[..|r.value| + 1] == r.value + ['\0']
  {
    AbsentChar(body, '\0');
    match SplitOnce(body, ['\0'])
    case Some((head, _)) =>
      assert '\0' !in head by {
        forall k | 0 <= k < |head| ensures head[k] != '\0' {
          assert body[..|head| + 1][k] == head[k];
          assert body[k..k + 1] == [body[k]];
          assert !OccursAt(body, ['\0'], k);
        }
      }
      Some(head)
    case None => None
  }

  /** The checks of `handle_connection` in order: the method, the path, a NUL ending
      the body, and the decoding of the text before it. */
  function Classify(received: string, verb: Option<string>, path: Option<string>,
                    decode: string -> Option<Commands.Manager>): (r: Classification)
    ensures verb != Some("POST") ==> r == Reject(MethodNotAllowed)
    ensures verb == Some("POST") && path != Some(CommandPath) ==> r == Reject(NotFound)
    ensures r.Reject? ==> r.response in {MethodNotAllowed, NotFound, BadRequest}
    // past the method and path checks, every rejection is a bad request: no NUL, or no decode
    ensures verb == Some("POST") && path == Some(CommandPath) && r.Reject? ==> r.response == BadRequest
    ensures r.Forward? <==>
              && verb == Some("POST") && path == Some(CommandPath)
              && BeforeNul(Body(BufferText(received))).Some?
              && decode(BeforeNul(Body(BufferText(received))).value).Some?
    ensures r.Forward? ==> Some(r.command) == decode(BeforeNul(Body(BufferText(received))).value)
  {
    if verb != Some("POST") then Reject(MethodNotAllowed)
    else if path != Some(CommandPath) then Reject(NotFound)
    else
      match BeforeNul(Body(BufferText(received)))
      case None => Reject(BadRequest)
      case Some(payload) =>
        match decode(payload)
        case None => Reject(BadRequest)
        case Some(mngr) => Forward(mngr)
  }

  /** A read that does not fill the buffer always leaves a NUL in the body. */
  lemma ShortReadHasNul(received: string)
    requires |received| < BufferSize
    ensures BeforeNul(Body(BufferText(received))).Some?
  {
    var text := BufferText(received);
    var body := Body(text);
    assert text[BufferSize - 1] == '\0';
    assert |body| > 0;
    assert body[|body| - 1] == text[|text| - |body|..][|body| - 1];
  }

  /** A buffer filled by the read with no NUL among its characters is refused as bad. */
  lemma FullReadWithoutNulIsBad(received: string, verb: Option<string>, path: Option<string>,
                                decode: string -> Option<Commands.Manager>)
    requires |received| >= BufferSize && '\0' !in received[..BufferSize]
    requires verb == Some("POST") && path == Some(CommandPath)
    ensures Classify(received, verb, path, decode) == Reject(BadRequest)
  {
    assert BufferText(received) == received[..BufferSize];
  }

  /** NULs appended to a text create no separator. */
  lemma {:induction false} NulsAddNoSeparator(payload: string, n: nat)
    requires Absent(payload, Separator)
    ensures Absent(payload + Nuls(n), Separator)
  {
    var t := payload + Nuls(n);
    forall q: nat ensures !OccursAt(t, Separator, q) {
      if q + 4 > |t| {
      } else if q + 4 <= |payload| {
        assert t[q..q + 4] == payload[q..q + 4];
        assert !OccursAt(payload, Separator, q);
      } else {
        var m := if q < |payload| then |payload| else q;
        assert t[q..q + 4][m - q] == '\0' != Separator[m - q];
      }
    }
  }

  /** The separator after `head` is the last one when the text after it holds none and
      does not start with the separator's second half. */
  lemma {:induction false} LastSeparatorAfterHead(head: string, tail: string)
    requires Absent(tail, Separator) && (|tail| < 2 || tail[..2] != "\r\n")
    ensures AfterLast(head + Separator + tail, Separator, tail)
  {
    var text := head + Separator + tail;
    var p := |head|;
    assert text[p + 4..] == tail;
    forall j | p < j ensures !OccursAt(text, Separator, j) {
      if j + 4 > |text| {
      } else if j >= p + 4 {
        assert text[j..j + 4] == tail[j - p - 4..j - p];
        assert !OccursAt(tail, Separator, j - p - 4);
      } else if j == p + 2 {
        assert text[j..j + 4][2..] == text[p + 4..][..2] == tail[..2];
      } else {
        assert text[j..j + 4][0] == text[j] == '\n';
      }
    }
    assert text[|text| - |tail| - |Separator|..] == Separator + tail;
  }

  /** The text before the first NUL of a text that starts with `payload` and a NUL. */
  lemma {:induction false} BeforeFirstNul(payload: string, rest: string)
    requires '\0' !in payload
    ensures BeforeNul(payload + ['\0'] + rest) == Some(payload)
  {
    var body := payload + ['\0'] + rest;
    assert body[|payload|] == '\0';
    var r := BeforeNul(body).value;
    assert r == body[..|r| + 1][..|r|] == payload;
  }

  /** The buffer after reading `head + separator + payload` that fits: `payload` is
      followed by NULs, at least one, and the text after the separator holds no separator
      and does not start with a line break. */
  lemma {:induction false} ShortRequestBuffer(head: string, payload: string)
    requires |head| + |Separator| + |payload| < BufferSize
    requires Absent(payload, Separator)
    requires |payload| < 2 || payload[..2] != "\r\n"
    ensures var n := BufferSize - |head| - |Separator| - |payload|;
            var tail := payload + ['\0'] + Nuls(n - 1);
            && BufferText(head + Separator + payload) == head + Separator + tail
            && Absent(tail, Separator) && (|tail| < 2 || tail[..2] != "\r\n")
  {
    var received := head + Separator + payload;
    var n := BufferSize - |received|;
    var tail := payload + Nuls(n);
    assert tail == payload + ['\0'] + Nuls(n - 1);
    assert BufferText(received) == head + Separator + tail;
    NulsAddNoSeparator(payload, n);
    if |payload| < 2 && |tail| >= 2 {
      assert tail[1] == '\0';
    } else if |tail| >= 2 {
      assert tail[..2] == payload[..2];
    }
  }

  /** A request `head + separator + payload` that fits the buffer, whose payload holds
      neither a separator nor a NUL and does not start with a line break, has exactly
      that payload decoded. */
  lemma {:induction false} PayloadIsWhatFollowsTheHead(head: string, payload: string)
    requires |head| + |Separator| + |payload| < BufferSize
    requires Absent(payload, Separator) && '\0' !in payload
    requires |payload| < 2 || payload[..2] != "\r\n"
    ensures BeforeNul(Body(BufferText(head + Separator + payload))) == Some(payload)
  {
    var n := BufferSize - |head| - |Separator| - |payload|;
    var tail := payload + ['\0'] + Nuls(n - 1);
    ShortRequestBuffer(head, payload);
    var text := head + Separator + tail;
    LastSeparatorAfterHead(head, tail);
    assert OccursAt(text, Separator, |head|);
    AfterLastUnique(text, Separator, tail, Body(text));
    BeforeFirstNul(payload, Nuls(n - 1));
  }

  /** The response to a command: the status line, then the reply strings concatenated
      in order, as the `push_str` loop builds it. */
  method BuildResponse(reply: seq<string>) returns (response: string)
    ensures response == OkStatus + Concat(reply)
  {
    response := OkStatus;
    for i := 0 to |reply|
      invariant response == OkStatus + Concat(reply[..i])
    {
      assert reply[..i + 1][..i] == reply[..i];
      response := response + reply[i];
    }
    assert reply[..|reply|] == reply;
  }

  /** `handle_connection`: classify the request; a rejected one gets its error
      response and nothing is sent to the scheduler; otherwise exactly one command is
      sent, and the reply `answer` gives back is the body of the 200 response. */
  method HandleConnection(received: string, verb: Option<string>, path: Option<string>,
                          decode: string -> Option<Commands.Manager>,
                          answer: Commands.Manager -> seq<string>)
    returns (response: string, sent: seq<Commands.Manager>)
    ensures var c := Classify(received, verb, path, decode);
            && (c.Reject? ==> response == c.response && sent == [])
            && (c.Forward? ==> sent == [c.command] && response == OkStatus + Concat(answer(c.command)))
  {
    match Classify(received, verb, path, decode) {
      case Reject(r) =>
        return r, [];
      case Forward(mngr) =>
        sent := [mngr];
        response := BuildResponse(answer(mngr));
    }
  }
}
