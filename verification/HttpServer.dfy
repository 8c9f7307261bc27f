/** A server connection: what arrives is parsed line by line, and a completed head takes the rest as its body. */
module HttpServer {
  import opened Options
  import opened HttpNames
  import opened Query
  import opened HttpHead

  // ---------------------------------------------------------------- the body, and one delivery

  const FORM := "application/x-www-form-urlencoded"

  /** Asking for a header that is not there leaves an empty one behind. */
  function Probed(headers: map<Header, string>, h: Header): map<Header, string> {
    if h in headers then headers else headers[h := ""]
  }

  /** What a delivery comes to: bytes are awaited, a response is made, an error page is sent, an exception escapes. */
  datatype Reply = Waiting | Served | Refused | Escaped

  function ReplyOf(v: Verdict): Reply {
    match v
    case Good => Served
    case BadRequest => Refused
    case Throws => Escaped
  }

  datatype Delivery = Delivery(conn: Conn, reply: Reply)

  /** The request with its body: a posted form adds its parameters. */
  function TakeContent(req: Request, text: string): Taken {
    var filled := req.(content := text);
    if req.verb != Some(POST) then Taken(RequestLine, filled, Good) else
    var probed := filled.(headers := Probed(req.headers, Content_Type));
    if probed.headers[Content_Type] != FORM then Taken(RequestLine, probed, Good) else
    var r := AddPieces(req.params, Pieces(text));
    Taken(if r.verdict == Good then RequestLine else Body, probed.(params := r.params), r.verdict)
  }

  /** All the bytes buffered behind the head are its body; afterwards the connection awaits another request. */
  function TakeBody(c: Conn): Delivery {
    var t := TakeContent(c.req, c.buf);
    Delivery(Conn(t.phase, t.req, if t.verdict == Good then "" else c.buf), ReplyOf(t.verdict))
  }

  function Conclude(o: Outcome): Delivery {
    match o
    case NeedMore(c) => Delivery(c, Waiting)
    case HeadDone(c) => TakeBody(c)
    case Rejected(c, e) => Delivery(c, ReplyOf(e))
  }

  /** What one delivery does to a connection. */
  function Serve(c: Conn): Delivery {
    Conclude(Run(c))
  }

  /** A form submitted by POST. */
  predicate IsForm(req: Request) {
    && req.verb == Some(POST)
    && Content_Type in req.headers && req.headers[Content_Type] == "application/x-www-form-urlencoded"
  }

  /**
   * What the body does to a connection, for every request: the content is exactly the bytes behind the head, and only a
   * posted form changes the parameters or can be refused; any other request is served and the buffer is empty.
   */
  lemma BodyTaken(c: Conn)
    ensures var d, r := TakeBody(c), TakeBody(c).conn.req;
            && r.content == c.buf
            && r.verb == c.req.verb && r.url == c.req.url && r.version == c.req.version
            && r.queryString == c.req.queryString
            && (forall h | h in c.req.headers :: h in r.headers && r.headers[h] == c.req.headers[h])
            && (forall h | h in r.headers && h !in c.req.headers ::
                  h == Content_Type && c.req.verb == Some(POST) && r.headers[h] == "")
            && (!IsForm(c.req) ==> d.reply == Served && d.conn.phase == RequestLine && d.conn.buf == ""
                                   && r.params == c.req.params)
    ensures IsForm(c.req) ==>
              var a, d := AddPieces(c.req.params, Pieces(c.buf)), TakeBody(c);
              && d.conn.req.params == a.params
              && (a.verdict == Good ==> d.reply == Served && d.conn.phase == RequestLine && d.conn.buf == "")
              && (a.verdict == BadRequest ==> d.reply == Refused)
              && (a.verdict == Throws ==> d.reply == Escaped)
  {}

  /** What a delivery is answered with: nothing while bytes are missing, an error page or an exception for what the head
      or a form got wrong, and otherwise a response. */
  lemma ReplyMeaning(c: Conn)
    ensures var o, d := Run(c), Serve(c);
            && (d.reply == Waiting <==> o.NeedMore?)
            && (o.Rejected? ==> d.reply == if o.error == BadRequest then Refused else Escaped)
            && (o.HeadDone? && !IsForm(o.conn.req) ==> d.reply == Served)
            && (o.HeadDone? && IsForm(o.conn.req) ==>
                  (d.reply == Served <==> PiecesVerdict(Pieces(o.conn.buf)) == Good)
                  && (d.reply == Refused <==> PiecesVerdict(Pieces(o.conn.buf)) == BadRequest))
  {
    var o := Run(c);
    if o.HeadDone? {
      BodyTaken(o.conn);
      AddPiecesVerdict(o.conn.req.params, Pieces(o.conn.buf));
    }
  }

  /** Pieces delivered one by one, until one of them is answered. */
  function DeliverAll(c: Conn, chunks: seq<string>): Delivery
    requires |chunks| >= 1
    decreases |chunks|
  {
    var d := Serve(Feed(c, chunks[0]));
    if |chunks| == 1 || d.reply != Waiting then d else DeliverAll(d.conn, chunks[1..])
  }

  /** No piece but the last completes the head. */
  predicate HeadOnlyLast(c: Conn, chunks: seq<string>) {
    forall k | 1 <= k < |chunks| :: !Run(Feed(c, Concat(chunks[..k]))).HeadDone?
  }

  lemma ConcatCons(chunks: seq<string>, k: nat)
    requires 1 <= k <= |chunks|
    ensures Concat(chunks[..k]) == chunks[0] + Concat(chunks[1..][..k - 1])
  {
    assert chunks[..k][0] == chunks[0] && chunks[..k][1..] == chunks[1..][..k - 1];
  }

  lemma HeadOnlyLastStep(c: Conn, chunks: seq<string>)
    requires |chunks| >= 2 && HeadOnlyLast(c, chunks)
    requires Run(Feed(c, chunks[0])).NeedMore?
    ensures HeadOnlyLast(Run(Feed(c, chunks[0])).conn, chunks[1..])
  {
    var d := Run(Feed(c, chunks[0])).conn;
    var rest := chunks[1..];
    forall k | 1 <= k < |rest|
      ensures !Run(Feed(d, Concat(rest[..k]))).HeadDone?
    {
      ConcatCons(chunks, k + 1);
      ExtendIsRun(Feed(c, chunks[0]), Concat(rest[..k]));
      FeedTwice(c, chunks[0], Concat(rest[..k]));
      assert !Run(Feed(c, Concat(chunks[..k + 1]))).HeadDone?;
    }
  }

  lemma FirstNotDone(c: Conn, chunks: seq<string>)
    requires |chunks| >= 2 && HeadOnlyLast(c, chunks)
    ensures !Run(Feed(c, chunks[0])).HeadDone?
  {
    ConcatCons(chunks, 1);
    assert Concat(chunks[..1]) == chunks[0];
  }

  /**
   * Pieces of a request give the same answer, request and phase as the whole of it, as long as the head is
   * completed by the last of them; unless the request is refused, nothing at all depends on the cut.
   */
  lemma {:induction false} DeliveriesAgree(c: Conn, chunks: seq<string>)
    requires |chunks| >= 1 && HeadOnlyLast(c, chunks)
    ensures var d, e := DeliverAll(c, chunks), Serve(Feed(c, Concat(chunks)));
            && d.reply == e.reply && d.conn.phase == e.conn.phase && d.conn.req == e.conn.req
            && (d.reply in {Waiting, Served} ==> d == e)
    decreases |chunks|
  {
    var first, rest := chunks[0], chunks[1..];
    if |chunks| == 1 {
      assert Concat(chunks) == first + "" == first;
    } else {
      var now := Run(Feed(c, first));
      FirstNotDone(c, chunks);
      FeedTwice(c, first, Concat(rest));
      ExtendIsRun(Feed(c, first), Concat(rest));
      if now.NeedMore? {
        HeadOnlyLastStep(c, chunks);
        DeliveriesAgree(now.conn, rest);
      }
    }
  }

  // ---------------------------------------------------------------- the objects

  /** The request object of a connection, which the parser fills in field by field. */
  class HttpRequest {
    var verb: Option<Method>
    var version: Version
    var url: string
    var queryString: string
    var params: map<string, string>
    var headers: map<Header, string>
    var content: string

    constructor ()
      ensures Value() == Request(None, Unknown, "", "", map[], map[], "")
    {
      verb, version, url, queryString, params, headers, content := None, Unknown, "", "", map[], map[], "";
    }

    function Value(): Request
      reads this
    {
      Request(verb, version, url, queryString, params, headers, content)
    }

    /** Returns the value of a known header, which is entered as empty if it was missing, or a marker. */
    method GetHeader(name: string) returns (val: string)
      modifies this`headers
      ensures LookupHeader(name).None? ==> val == "UNKNOW" && headers == old(headers)
      ensures LookupHeader(name).Some? ==>
        var h := LookupHeader(name).value;
        headers == Probed(old(headers), h) && val == headers[h]
    {
      var h := LookupHeader(name);
      if h.None? {
        return "UNKNOW";
      }
      headers := Probed(headers, h.value);
      val := headers[h.value];
    }
  }

  class HttpConnection {
    var phase: Phase
    var buf: string
    const req: HttpRequest

    constructor ()
      ensures State() == Conn(RequestLine, Request(None, Unknown, "", "", map[], map[], ""), "")
      ensures fresh(req)
    {
      phase, buf := RequestLine, "";
      req := new HttpRequest();
    }

    function State(): Conn
      reads this, req
    {
      Conn(phase, req.Value(), buf)
    }

    /** Stores the query string as a whole and pair by pair. */
    method ReadQuery(raw: string) returns (v: Verdict)
      modifies req
      ensures var t := SetQuery(old(req.Value()), raw);
              req.Value() == t.req && v == t.verdict
    {
      var q := URLDecode(raw);
      if q.None? {
        return Throws;
      }
      req.queryString := q.value;
      var r := ParseParams(req.params, raw);
      req.params := r.params;
      v := r.verdict;
    }

    /** Stores the decoded path. */
    method ReadUrl(text: string) returns (ok: bool)
      modifies req
      ensures ok == Decoded(text).Some?
      ensures req.Value() == if ok then old(req.Value()).(url := Decoded(text).value) else old(req.Value())
    {
      var url := URLDecode(text);
      ok := url.Some?;
      if ok {
        req.url := url.value;
      }
    }

    method ReadTarget(line: string, first: nat, second: nat) returns (v: Verdict)
      requires first < second < |line| && line[second] == ' '
      modifies req
      ensures var t := SetTarget(old(req.Value()), line, first, second, IndexOf(line, '?', first + 1));
              req.Value() == t.req && v == t.verdict
    {
      var mark := IndexOf(line, '?', first + 1);
      var ok := ReadUrl(line[first + 1..if mark == |line| then second else mark]);
      if !ok {
        return Throws;
      }
      if mark == |line| {
        return Good;
      } else if mark > second {
        return Throws;
      }
      v := ReadQuery(line[mark + 1..second]);
    }

    method ReadRequestLine(end: nat) returns (v: Verdict)
      requires phase == RequestLine && ParseLine(buf) == Complete(end)
      modifies this, req
      ensures var t := TakeRequestLine(old(req.Value()), old(buf)[..end]);
              && v == t.verdict && req.Value() == t.req
              && phase == (if v == Good then HeaderLines else RequestLine)
              && buf == if v == Good then old(buf)[end + 2..] else old(buf)
    {
      var line := buf[..end];
      var first := IndexOf(line, ' ', 0);
      if first == |line| {
        return BadRequest;
      }
      var m := LookupMethod(line[..first]);
      if m.None? {
        return BadRequest;
      }
      req.verb := m;
      var second := IndexOf(line, ' ', first + 1);
      if second == |line| {
        return BadRequest;
      }
      v := ReadTarget(line, first, second);
      if v != Good {
        return;
      }
      if VersionOf(line) == Unknown {
        return BadRequest;
      }
      req.version := VersionOf(line);
      buf := buf[end + 2..];
      phase := HeaderLines;
    }

    method ReadHeaderLine(end: nat) returns (v: Verdict)
      requires phase == HeaderLines && ParseLine(buf) == Complete(end)
      modifies this, req
      ensures var t := TakeHeaderLine(old(req.Value()), old(buf)[..end]);
              && v == t.verdict && req.Value() == t.req && phase == t.phase
              && buf == if v == Good then old(buf)[end + 2..] else old(buf)
    {
      var line := buf[..end];
      var colon := IndexOf(line, ':', 0);
      if colon == |line| {
        if end != 0 {
          return BadRequest;
        }
        phase := Body;
      } else {
        var h := LookupHeader(line[..colon]);
        if h.None? {
          return BadRequest;
        }
        HeaderRoundTrip(h.value);
        var headers, _ := StoreHeader(req.headers, HeaderText(h.value), DropSpace(line[colon + 1..]));
        req.headers := headers;
      }
      buf := buf[end + 2..];
      v := Good;
    }

    /** The parameters of a posted form. */
    method ReadForm() returns (v: Verdict)
      requires req.verb == Some(POST)
      modifies req
      ensures var t := TakeContent(old(req.Value()), old(req.content));
              req.Value() == t.req && v == t.verdict
    {
      ContentTypeKnown();
      var kind := req.GetHeader("Content-Type");
      if kind != FORM {
        return Good;
      }
      var r := ParseParams(req.params, req.content);
      req.params := r.params;
      v := r.verdict;
    }

    method ReadContent() returns (v: Verdict)
      requires phase == Body
      modifies this, req
      ensures Delivery(State(), ReplyOf(v)) == TakeBody(old(State()))
    {
      req.content := buf;
      if req.verb == Some(POST) {
        v := ReadForm();
        if v != Good {
          return;
        }
      }
      buf := "";
      phase := RequestLine;
      v := Good;
    }

    /** One complete line, by phase; the loop's result is the same from behind an accepted line. */
    method ReadLine(end: nat) returns (v: Verdict)
      requires phase != Body && ParseLine(buf) == Complete(end)
      modifies this, req
      ensures v == Good ==> Run(State()) == Run(old(State())) && |buf| < |old(buf)|
      ensures v != Good ==> Rejected(State(), v) == Run(old(State()))
    {
      RunStep(State(), end, buf[..end], buf[end + 2..]);
      if phase == RequestLine {
        v := ReadRequestLine(end);
      } else {
        v := ReadHeaderLine(end);
      }
    }

    /** The parse loop; each turn consumes a line, or the body. */
    method OnMessage() returns (reply: Reply)
      modifies this, req
      ensures Delivery(State(), reply) == Serve(old(State()))
    {
      var line := ParseLine(buf);
      var done := false;
      while phase == Body || line.Complete?
        invariant phase != Body ==> line == ParseLine(buf)
        invariant !done ==> Run(State()) == Run(old(State()))
        invariant done ==> Delivery(State(), Served) == Serve(old(State())) && phase == RequestLine && buf == ""
        decreases 2 * |buf| + if phase == Body then 1 else 0
      {
        var v;
        if phase == Body {
          v := ReadContent();
          done := true;
        } else {
          v := ReadLine(line.end);
        }
        if v != Good {
          return ReplyOf(v);
        }
        if phase != Body {
          line := ParseLine(buf);
        }
      }
      if line.Broken? {
        return Refused;
      }
      reply := if done then Served else Waiting;
    }

    /** A piece arrives from the socket and is handed to the parser. */
    method Receive(piece: string) returns (reply: Reply)
      modifies this, req
      ensures Delivery(State(), reply) == Serve(Feed(old(State()), piece))
    {
      buf := buf + piece;
      reply := OnMessage();
    }
  }
}
