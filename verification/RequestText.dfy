/** Requests written out as text, in any of the ways they can be written, and read back in any number of pieces. */
module RequestText {
  import opened Options
  import opened HttpNames
  import opened Query
  import opened HttpHead
  import HttpServer
  import HttpResponse

  /** What a client wants to say. */
  datatype Message = Message(
    verb: Method,
    path: string,
    pairs: seq<Pair>,
    version: Version,
    headers: map<Header, string>,
    body: string)

  /** How it is written: case of the method, choice of escapes, order of the headers. */
  datatype Writing = Writing(name: string, path: string, pairs: seq<Pair>, order: seq<Header>)

  predicate Writes(w: Writing, m: Message) {
    && Fold(w.name) == Fold(MethodText(m.verb)) && ' ' !in w.name && '\r' !in w.name
    && Encodes(w.path, m.path, {' ', '?', '\r'})
    && EncodesPairs(w.pairs, m.pairs, {' ', '\r'})
    && m.version != Unknown
    && HttpResponse.Walk(w.order, m.headers.Keys)
    && HttpResponse.CleanValues(m.headers)
  }

  predicate MessageNulFree(m: Message) {
    '\0' !in m.path && forall p | p in m.pairs :: NulFree(p)
  }

  function LineParts(w: Writing, m: Message): Parts {
    Parts(w.name, w.path, if w.pairs == [] then None else Some(QueryText(w.pairs)), HttpResponse.VersionText(m.version))
  }

  function Text(w: Writing, m: Message): string
    requires Writes(w, m)
  {
    PartsText(LineParts(w, m)) + "\r\n" + HttpResponse.BlockText(w.order, m.headers, m.body)
  }

  /** The request as the message leaves it; headers and parameters are added to those already there. */
  function Understood(req: Request, m: Message): Request {
    Addressed(req, m).(headers := req.headers + m.headers)
  }

  /** The same without the headers. */
  function Addressed(req: Request, m: Message): Request {
    req.(verb := Some(m.verb), url := m.path, version := m.version, params := LastWins(req.params, m.pairs),
         queryString := if m.pairs == [] then req.queryString else QueryText(m.pairs))
  }

  // ---------------------------------------------------------------- encodings of composite text

  lemma {:induction false} EncodesFewer(e: string, s: string, r: set<char>, fewer: set<char>)
    requires Encodes(e, s, r) && fewer <= r
    ensures Encodes(e, s, fewer)
    decreases |s|
  {
    if s == "" {
    } else {
      if e[0] != '%' {
        EncodesFewer(e[1..], s[1..], r, fewer);
      } else {
        EncodesFewer(e[3..], s[1..], r, fewer);
      }
    }
  }

  lemma {:induction false} EncodesConcat(e: string, s: string, f: string, t: string, r: set<char>)
    requires Encodes(e, s, r) && Encodes(f, t, r)
    ensures Encodes(e + f, s + t, r)
    decreases |s|
  {
    if s == "" {
      assert e + f == f && s + t == t;
    } else {
      assert (s + t)[1..] == s[1..] + t;
      if e[0] != '%' {
        EncodesConcat(e[1..], s[1..], f, t, r);
        assert (e + f)[1..] == e[1..] + f;
      } else {
        EncodesConcat(e[3..], s[1..], f, t, r);
        assert (e + f)[3..] == e[3..] + f;
      }
    }
  }

  lemma EncodesItself(c: char, r: set<char>)
    requires c != '%' && c !in r
    ensures Encodes([c], [c], r)
  {
    assert [c][1..] == "" && Encodes("", "", r);
  }

  lemma PairEncodes(e: Pair, p: Pair, r: set<char>)
    requires EncodesPair(e, p, r) && '=' !in r
    ensures Encodes(PairText(e), PairText(p), r)
  {
    EncodesFewer(e.key, p.key, r + {'&', '='}, r);
    EncodesFewer(e.val, p.val, r + {'&'}, r);
    EncodesItself('=', r);
    EncodesConcat(e.key, p.key, "=", "=", r);
    EncodesConcat(e.key + "=", p.key + "=", e.val, p.val, r);
  }

  /** A written query is an encoding of the plain one. */
  lemma {:induction false} QueryEncodes(es: seq<Pair>, ps: seq<Pair>, r: set<char>)
    requires |es| >= 1 && EncodesPairs(es, ps, r) && '=' !in r && '&' !in r
    ensures Encodes(QueryText(es), QueryText(ps), r)
    decreases |es|
  {
    PairEncodes(es[0], ps[0], r);
    if |es| == 1 {
    } else {
      QueryEncodes(es[1..], ps[1..], r);
      assert PairTexts(es)[1..] == PairTexts(es[1..]) && PairTexts(ps)[1..] == PairTexts(ps[1..]);
      EncodesItself('&', r);
      EncodesConcat(PairText(es[0]), PairText(ps[0]), "&", "&", r);
      EncodesConcat(PairText(es[0]) + "&", PairText(ps[0]) + "&", QueryText(es[1..]), QueryText(ps[1..]), r);
    }
  }

  // ---------------------------------------------------------------- the request line, read back

  lemma QueryAvoids(w: Writing, m: Message, c: char)
    requires Writes(w, m) && w.pairs != [] && c in {' ', '\r'}
    ensures c !in QueryText(w.pairs)
  {
    QueryEncodes(w.pairs, m.pairs, {' ', '\r'});
    EncodedAvoids(QueryText(w.pairs), QueryText(m.pairs), {' ', '\r'}, c);
  }

  lemma PathAvoids(w: Writing, m: Message, c: char)
    requires Writes(w, m) && c in {' ', '?', '\r'}
    ensures c !in w.path
  {
    EncodedAvoids(w.path, m.path, {' ', '?', '\r'}, c);
  }

  lemma VersionClean(v: Version)
    ensures var t := HttpResponse.VersionText(v); '?' !in t && '\r' !in t
  {}

  lemma PartsCrFree(p: Parts)
    requires '\r' !in p.name && '\r' !in p.path && '\r' !in p.tail && (p.query.Some? ==> '\r' !in p.query.value)
    ensures '\r' !in PartsText(p)
  {}

  lemma PartsWellCut(w: Writing, m: Message)
    requires Writes(w, m)
    ensures WellCut(LineParts(w, m)) && '\r' !in PartsText(LineParts(w, m))
  {
    PathAvoids(w, m, ' ');
    PathAvoids(w, m, '?');
    PathAvoids(w, m, '\r');
    if w.pairs != [] {
      QueryAvoids(w, m, ' ');
      QueryAvoids(w, m, '\r');
    }
    VersionClean(m.version);
    PartsCrFree(LineParts(w, m));
  }

  lemma VersionRead(head: string, v: Version)
    requires v != Unknown
    ensures VersionOf(head + HttpResponse.VersionText(v)) == v
  {
    var line, t := head + HttpResponse.VersionText(v), HttpResponse.VersionText(v);
    assert |t| == 8 && line[|line| - 1] == t[7] && line[|line| - 3] == t[5];
  }

  lemma {:induction false} QueryNulFree(ps: seq<Pair>)
    requires |ps| >= 1 && forall p | p in ps :: NulFree(p)
    ensures '\0' !in QueryText(ps)
    decreases |ps|
  {
    assert NulFree(ps[0]) && '\0' !in PairText(ps[0]);
    if |ps| == 1 {
    } else {
      QueryNulFree(ps[1..]);
      assert PairTexts(ps)[1..] == PairTexts(ps[1..]);
    }
  }

  lemma QueryRead(req: Request, w: Writing, m: Message)
    requires Writes(w, m) && MessageNulFree(m) && w.pairs != []
    ensures SetQuery(req, QueryText(w.pairs))
         == Taken(RequestLine,
                  req.(queryString := QueryText(m.pairs), params := LastWins(req.params, m.pairs)), Good)
  {
    QueryEncodes(w.pairs, m.pairs, {' ', '\r'});
    DecodeEncoded(QueryText(w.pairs), QueryText(m.pairs), {' ', '\r'});
    QueryNulFree(m.pairs);
    QueryRoundTrip(req.params, w.pairs, m.pairs, {' ', '\r'});
  }

  lemma RequestLineRead(req: Request, w: Writing, m: Message)
    requires Writes(w, m) && MessageNulFree(m)
    ensures TakeParts(req, LineParts(w, m)) == Taken(HeaderLines, Addressed(req, m), Good)
  {
    var p := LineParts(w, m);
    MethodMeaning(w.name, m.verb);
    DecodeEncoded(w.path, m.path, {' ', '?', '\r'});
    if w.pairs != [] {
      QueryRead(req.(verb := Some(m.verb), url := m.path), w, m);
    }
    VersionRead(p.name + " " + TargetText(p) + " ", m.version);
  }

  // ---------------------------------------------------------------- whole requests

  /** Every way of writing a message is understood: nothing is lost, and the body is left in the buffer. */
  lemma RequestRoundTrip(req: Request, w: Writing, m: Message)
    requires Writes(w, m) && MessageNulFree(m)
    ensures Run(Conn(RequestLine, req, Text(w, m))) == HeadDone(Conn(Body, Understood(req, m), m.body))
  {
    PartsWellCut(w, m);
    RequestLineRead(req, w, m);
    LineOfParts(req, LineParts(w, m));
    RunLine(RequestLine, req, PartsText(LineParts(w, m)), HttpResponse.BlockText(w.order, m.headers, m.body));
    HttpResponse.BlockParsed(Addressed(req, m), w.order, m.headers, m.body);
  }

  /** The same in any number of pieces. */
  lemma ChunkedRoundTrip(req: Request, w: Writing, m: Message, chunks: seq<string>)
    requires Writes(w, m) && MessageNulFree(m) && Concat(chunks) == Text(w, m)
    ensures ReceiveAll(Run(Conn(RequestLine, req, "")), chunks) == HeadDone(Conn(Body, Understood(req, m), m.body))
  {
    RequestRoundTrip(req, w, m);
    ChunkIndependence(Conn(RequestLine, req, ""), chunks);
    assert "" + Text(w, m) == Text(w, m);
  }

  /** The headers in force: those of the message, and those left from before. */
  function InForce(req: Request, m: Message): map<Header, string> {
    req.headers + m.headers
  }

  predicate PostedForm(req: Request, m: Message) {
    && m.verb == POST && Content_Type in InForce(req, m)
    && InForce(req, m)[Content_Type] == "application/x-www-form-urlencoded"
  }

  /** The request says what the message says: nothing but an empty Content-Type is added, and that only to a POST. */
  ghost predicate Says(r: Request, req: Request, m: Message) {
    && r.verb == Some(m.verb) && r.url == m.path && r.version == m.version && r.content == m.body
    && r.queryString == (if m.pairs == [] then req.queryString else QueryText(m.pairs))
    && (forall h | h in InForce(req, m) :: h in r.headers && r.headers[h] == InForce(req, m)[h])
    && (forall h | h in r.headers && h !in InForce(req, m) :: h == Content_Type && m.verb == POST && r.headers[h] == "")
  }

  /** A text delivered in pieces of which the last completes the head. */
  ghost predicate Delivered(req: Request, w: Writing, m: Message, chunks: seq<string>) {
    && Writes(w, m) && MessageNulFree(m) && Concat(chunks) == Text(w, m)
    && chunks != [] && HttpServer.HeadOnlyLast(Conn(RequestLine, req, ""), chunks)
  }

  lemma ReachesBody(req: Request, w: Writing, m: Message, chunks: seq<string>)
    requires Delivered(req, w, m, chunks)
    ensures var d, e := HttpServer.DeliverAll(Conn(RequestLine, req, ""), chunks),
                        HttpServer.TakeBody(Conn(Body, Understood(req, m), m.body));
            e.reply == HttpServer.Served ==> d == e
  {
    RequestRoundTrip(req, w, m);
    HttpServer.DeliveriesAgree(Conn(RequestLine, req, ""), chunks);
    assert "" + Text(w, m) == Text(w, m);
  }

  /** Unless it is a form, a message is served in any number of pieces, says what it says, and adds its query's pairs to
      the parameters; the connection is then ready for the next one. */
  lemma ServedAsWritten(req: Request, w: Writing, m: Message, chunks: seq<string>)
    requires Delivered(req, w, m, chunks) && !PostedForm(req, m)
    ensures var d := HttpServer.DeliverAll(Conn(RequestLine, req, ""), chunks);
            && d.reply == HttpServer.Served && d.conn.phase == RequestLine && d.conn.buf == ""
            && Says(d.conn.req, req, m) && d.conn.req.params == LastWins(req.params, m.pairs)
  {
    ReachesBody(req, w, m, chunks);
    HttpServer.BodyTaken(Conn(Body, Understood(req, m), m.body));
  }

  /** The same for a posted form whose body encodes some pairs: these are added after those of the query. */
  lemma FormServed(req: Request, w: Writing, m: Message, chunks: seq<string>, es: seq<Pair>, form: seq<Pair>)
    requires Delivered(req, w, m, chunks) && PostedForm(req, m)
    requires |es| >= 1 && EncodesPairs(es, form, {}) && m.body == QueryText(es)
    requires forall p | p in form :: NulFree(p)
    ensures var d := HttpServer.DeliverAll(Conn(RequestLine, req, ""), chunks);
            && d.reply == HttpServer.Served && d.conn.phase == RequestLine && d.conn.buf == ""
            && Says(d.conn.req, req, m) && d.conn.req.params == LastWins(LastWins(req.params, m.pairs), form)
  {
    QueryRoundTrip(Understood(req, m).params, es, form, {});
    ReachesBody(req, w, m, chunks);
    HttpServer.BodyTaken(Conn(Body, Understood(req, m), m.body));
  }
}
