/** What the server hands to the PHP application for a parsed request, and what it says about the body. */
module PhpRequest {
  import opened Options
  import opened HttpNames
  import opened HttpHead
  import opened Decimals
  import Query
  import FastCgi
  import HttpServer
  import RequestText

  const WEB_ROOT := "/home/ubuntu/web_root"

  datatype Param = Param(name: string, value: string)

  // ---------------------------------------------------------------- parameters

  /** The parameters in the order they are sent; None if decoding the body throws, which it does before anything is sent.
      Every method but GET is announced as POST, and the length announced is that of the decoded body. */
  function Params(req: Request): Option<seq<Param>> {
    var body := Query.Decoded(req.content);
    if body.None? then None else
    Some([Param("SCRIPT_FILENAME", WEB_ROOT + req.url),
          Param("SERVER_PROTOCOL", if req.version == HTTP11 then "HTTP/1.1" else "HTTP/1.0"),
          Param("REQUEST_METHOD", if req.verb == Some(GET) then "GET" else "POST")]
         + if req.verb == Some(GET) then [Param("QUERY_STRING", req.queryString)]
           else [Param("CONTENT_LENGTH", Decimal(|body.value|)),
                 Param("CONTENT_TYPE", "application/x-www-form-urlencoded")])
  }

  /** The body sent, which is the content as it came. */
  function Body(req: Request): Option<string> {
    if req.verb == Some(POST) then Some(req.content) else None
  }

  lemma {:induction false} UnescapeLength(s: string)
    ensures Query.Unescape(s).Some? ==> |Query.Unescape(s).value| <= |s|
    ensures Query.Unescape(s).Some? && '%' in s ==> |Query.Unescape(s).value| < |s|
    ensures '%' !in s ==> Query.Unescape(s) == Some(s)
  {
    if s == "" {
    } else if s[0] != '%' {
      UnescapeLength(s[1..]);
      assert s == [s[0]] + s[1..];
    } else if |s| >= 3 {
      UnescapeLength(s[3..]);
    }
  }

  /** Decoding keeps the length exactly when there is nothing to decode and nothing to cut off. */
  lemma DecodedLength(s: string)
    ensures Query.Decoded(s).Some? && |Query.Decoded(s).value| == |s| <==> '%' !in s && '\0' !in s
  {
    UnescapeLength(s);
    IndexOfMeaning(s, '\0', 0);
    if '%' !in s && '\0' !in s {
      CStrWhole(s);
    }
  }

  /** For a posted request: the length announced is the length of the body sent if and only if the content holds neither
      a '%' nor a NUL. */
  lemma ContentLengthExact(req: Request)
    requires req.verb == Some(POST) && Params(req).Some?
    ensures Params(req).value[3].name == "CONTENT_LENGTH" && Body(req) == Some(req.content)
    ensures Number(Params(req).value[3].value) == |req.content| <==> '%' !in req.content && '\0' !in req.content
  {
    DecodedLength(req.content);
    DecimalNumber(|Query.Decoded(req.content).value|);
  }

  // ---------------------------------------------------------------- on the wire

  function ToBytes(s: string): (b: seq<FastCgi.byte>)
    requires Query.Bytes(s)
    ensures |b| == |s| && forall i | 0 <= i < |s| :: b[i] == s[i] as int
  {
    seq(|s|, i requires 0 <= i < |s| => s[i] as int)
  }

  predicate Plain(p: Param) {
    Query.Bytes(p.name) && Query.Bytes(p.value)
  }

  function ToPair(p: Param): FastCgi.Pair
    requires Plain(p)
  {
    FastCgi.Pair(ToBytes(p.name), ToBytes(p.value))
  }

  predicate AllPlain(ps: seq<Param>) {
    forall i | 0 <= i < |ps| :: Plain(ps[i])
  }

  function ToPairs(ps: seq<Param>): (qs: seq<FastCgi.Pair>)
    requires AllPlain(ps)
    ensures |qs| == |ps| && forall i | 0 <= i < |ps| :: qs[i] == ToPair(ps[i])
  {
    seq(|ps|, i requires 0 <= i < |ps| => ToPair(ps[i]))
  }

  /** Everything is bytes, and every parameter fits the buffer. */
  ghost predicate Ready(req: Request) {
    && Params(req).Some? && AllPlain(Params(req).value) && FastCgi.Fit(ToPairs(Params(req).value))
    && Query.Bytes(req.content)
  }

  /** The bytes that a request puts on the wire. */
  ghost function OnWire(id: nat, req: Request): seq<FastCgi.byte>
    requires Ready(req)
  {
    FastCgi.RequestBytes(id, ToPairs(Params(req).value), if Body(req).Some? then Some(ToBytes(req.content)) else None)
  }

  /** Sends a request to the application; false if an exception stops it before anything is sent. */
  method Forward(req: Request, conn: FastCgi.FcgiConnection) returns (sent: bool)
    requires conn.output == [] && (Params(req).Some? ==> Ready(req))
    modifies conn
    ensures sent == Params(req).Some?
    ensures sent ==> conn.wire == old(conn.wire) + OnWire(conn.Id(), req)
    ensures !sent ==> conn.wire == old(conn.wire)
  {
    var ps := Params(req);
    if ps.None? {
      return false;
    }
    conn.SendRequest(ToPairs(ps.value), if Body(req).Some? then Some(ToBytes(req.content)) else None);
    sent := true;
  }

  // ---------------------------------------------------------------- what the application gets of a message

  /** What the application is to be told of a GET; q is the query string of an earlier request on the connection. */
  function ToldGet(m: RequestText.Message, q: string): seq<Param> {
    [Param("SCRIPT_FILENAME", "/home/ubuntu/web_root" + m.path),
     Param("SERVER_PROTOCOL", if m.version == HTTP10 then "HTTP/1.0" else "HTTP/1.1"),
     Param("REQUEST_METHOD", "GET"),
     Param("QUERY_STRING", if m.pairs == [] then q else Query.QueryText(m.pairs))]
  }

  /** What it is told of a POST, and of every other method; n is the length of the decoded body. */
  function ToldPost(m: RequestText.Message, n: nat): seq<Param> {
    [Param("SCRIPT_FILENAME", "/home/ubuntu/web_root" + m.path),
     Param("SERVER_PROTOCOL", if m.version == HTTP10 then "HTTP/1.0" else "HTTP/1.1"),
     Param("REQUEST_METHOD", "POST"),
     Param("CONTENT_LENGTH", Decimal(n)),
     Param("CONTENT_TYPE", "application/x-www-form-urlencoded")]
  }

  lemma TellsGet(r: Request, req: Request, m: RequestText.Message)
    requires RequestText.Says(r, req, m) && m.verb == GET && m.version != Unknown && Params(r).Some?
    ensures Params(r).value == ToldGet(m, req.queryString) && Body(r) == None
  {}

  lemma TellsPost(r: Request, req: Request, m: RequestText.Message)
    requires RequestText.Says(r, req, m) && m.verb != GET && m.version != Unknown && Params(r).Some?
    ensures Query.Decoded(m.body).Some?
    ensures Params(r).value == ToldPost(m, |Query.Decoded(m.body).value|)
    ensures Body(r) == if m.verb == POST then Some(m.body) else None
  {}

  /**
   * From the socket to the application, for every GET message in any pieces: after it is served, what is forwarded is
   * decoded as exactly the script, the protocol, the method and the query of the message, without a body. A message
   * without a query carries the query string of the request before it on the connection.
   */
  lemma GetReceived(id: nat, req: Request, w: RequestText.Writing, m: RequestText.Message, chunks: seq<string>)
    requires RequestText.Delivered(req, w, m, chunks) && m.verb == GET && id < 0x1_0000
    requires Ready(HttpServer.DeliverAll(Conn(RequestLine, req, ""), chunks).conn.req)
    ensures AllPlain(ToldGet(m, req.queryString))
    ensures FastCgi.DecodeRequest(OnWire(id, HttpServer.DeliverAll(Conn(RequestLine, req, ""), chunks).conn.req))
         == Some(FastCgi.Request(id, 1, 0, ToPairs(ToldGet(m, req.queryString)), None))
  {
    RequestText.ServedAsWritten(req, w, m, chunks);
    var r := HttpServer.DeliverAll(Conn(RequestLine, req, ""), chunks).conn.req;
    TellsGet(r, req, m);
    FastCgi.RequestRoundTrip(id, ToPairs(Params(r).value));
  }

  /**
   * The same for every POST of 1 to 65535 bytes, whatever request r it was parsed into: script, protocol, method, type
   * and content are those of the message, and the length announced is that of the content if and only if the content
   * holds neither '%' nor NUL.
   */
  lemma PostReceived(id: nat, r: Request, req: Request, m: RequestText.Message)
    requires RequestText.Says(r, req, m) && m.verb == POST && m.version != Unknown && Ready(r)
    requires 1 <= |m.body| <= 0xffff && id < 0x1_0000
    ensures Query.Decoded(m.body).Some? && AllPlain(ToldPost(m, |Query.Decoded(m.body).value|)) && Query.Bytes(m.body)
    ensures FastCgi.DecodeRequest(OnWire(id, r))
         == Some(FastCgi.Request(id, 1, 0, ToPairs(ToldPost(m, |Query.Decoded(m.body).value|)), Some(ToBytes(m.body))))
    ensures |Query.Decoded(m.body).value| == |ToBytes(m.body)| <==> '%' !in m.body && '\0' !in m.body
  {
    TellsPost(r, req, m);
    FastCgi.BodyRoundTripIff(id, ToPairs(Params(r).value), ToBytes(m.body));
    DecodedLength(m.body);
  }

  /** From the socket: a POST that is not a form. */
  lemma PostDelivered(id: nat, req: Request, w: RequestText.Writing, m: RequestText.Message, chunks: seq<string>)
    requires RequestText.Delivered(req, w, m, chunks) && m.verb == POST && !RequestText.PostedForm(req, m)
    requires Ready(HttpServer.DeliverAll(Conn(RequestLine, req, ""), chunks).conn.req)
    requires 1 <= |m.body| <= 0xffff && id < 0x1_0000
    ensures Query.Decoded(m.body).Some? && AllPlain(ToldPost(m, |Query.Decoded(m.body).value|)) && Query.Bytes(m.body)
    ensures FastCgi.DecodeRequest(OnWire(id, HttpServer.DeliverAll(Conn(RequestLine, req, ""), chunks).conn.req))
         == Some(FastCgi.Request(id, 1, 0, ToPairs(ToldPost(m, |Query.Decoded(m.body).value|)), Some(ToBytes(m.body))))
  {
    RequestText.ServedAsWritten(req, w, m, chunks);
    PostReceived(id, HttpServer.DeliverAll(Conn(RequestLine, req, ""), chunks).conn.req, req, m);
  }

  /** The same for a submitted form. */
  lemma FormDelivered(id: nat, req: Request, w: RequestText.Writing, m: RequestText.Message, chunks: seq<string>,
                      es: seq<Query.Pair>, form: seq<Query.Pair>)
    requires RequestText.Delivered(req, w, m, chunks) && RequestText.PostedForm(req, m)
    requires |es| >= 1 && Query.EncodesPairs(es, form, {}) && m.body == Query.QueryText(es)
    requires forall p | p in form :: Query.NulFree(p)
    requires Ready(HttpServer.DeliverAll(Conn(RequestLine, req, ""), chunks).conn.req)
    requires 1 <= |m.body| <= 0xffff && id < 0x1_0000
    ensures Query.Decoded(m.body).Some? && AllPlain(ToldPost(m, |Query.Decoded(m.body).value|)) && Query.Bytes(m.body)
    ensures FastCgi.DecodeRequest(OnWire(id, HttpServer.DeliverAll(Conn(RequestLine, req, ""), chunks).conn.req))
         == Some(FastCgi.Request(id, 1, 0, ToPairs(ToldPost(m, |Query.Decoded(m.body).value|)), Some(ToBytes(m.body))))
  {
    RequestText.FormServed(req, w, m, chunks, es, form);
    PostReceived(id, HttpServer.DeliverAll(Conn(RequestLine, req, ""), chunks).conn.req, req, m);
  }
}
