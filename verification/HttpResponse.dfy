/** The printer of responses, and what the request parser makes of the header block it prints. */
module HttpResponse {
  import opened Options
  import opened Sequences
  import opened Decimals
  import opened HttpNames
  import opened Query
  import opened HttpHead

  // ---------------------------------------------------------------- the printer

  datatype Status =
    | NoStatus | Continue | OK | Not_Modified | Not_Found | Bad_Request | Forbidden
    | Internal_Server_Error | HTTP_Version_Not_Supported

  function VersionText(v: Version): string {
    match v
    case HTTP10 => "HTTP/1.0"
    case HTTP11 => "HTTP/1.1"
    case Unknown => ""
  }

  function Digits(s: Status): string {
    match s
    case NoStatus => ""
    case Continue => "100"
    case OK => "200"
    case Not_Modified => "304"
    case Not_Found => "404"
    case Bad_Request => "400"
    case Forbidden => "403"
    case Internal_Server_Error => "500"
    case HTTP_Version_Not_Supported => "505"
  }

  function Reason(s: Status): string {
    match s
    case NoStatus => ""
    case Continue => "Continue"
    case OK => "OK"
    case Not_Modified => "Not Modified"
    case Not_Found => "Not Found"
    case Bad_Request => "Bad Request"
    case Forbidden => "Forbidden"
    case Internal_Server_Error => "Internal Server Error"
    case HTTP_Version_Not_Supported => "HTTP Version Not Supported"
  }

  function StatusText(s: Status): string {
    if s == NoStatus then "" else Digits(s) + " " + Reason(s) + "\r\n"
  }

  function StatusLine(v: Version, s: Status): string {
    (if v == Unknown then "" else VersionText(v) + " ") + StatusText(s)
  }

  /** The order in which a map is walked: every key once. */
  predicate Walk(order: seq<Header>, keys: set<Header>) {
    && (forall h :: h in order <==> h in keys)
    && (forall i, j | 0 <= i < j < |order| :: order[i] != order[j])
  }

  function HeaderLine(headers: map<Header, string>, h: Header): string
    requires h in headers
  {
    HeaderText(h) + ": " + headers[h]
  }

  predicate Within(order: seq<Header>, headers: map<Header, string>) {
    forall h | h in order :: h in headers
  }

  function HeaderBlockLines(order: seq<Header>, headers: map<Header, string>): (lines: seq<string>)
    requires Within(order, headers)
    ensures |lines| == |order| && forall i | 0 <= i < |order| :: lines[i] == HeaderLine(headers, order[i])
  {
    seq(|order|, i requires 0 <= i < |order| => HeaderLine(headers, order[i]))
  }

  /** The printed headers, the blank line and the content. */
  function BlockText(order: seq<Header>, headers: map<Header, string>, content: string): string
    requires Within(order, headers)
  {
    LinesText(HeaderBlockLines(order, headers)) + ("\r\n" + content)
  }

  lemma {:induction false} LinesTextAppend(lines: seq<string>, line: string)
    ensures LinesText(lines + [line]) == LinesText(lines) + (line + "\r\n")
  {
    if lines == [] {
      LinesTextCons(line, []);
      assert [] + [line] == [line] + [];
      assert line + "\r\n" + "" == "" + (line + "\r\n");
    } else {
      LinesTextAppend(lines[1..], line);
      assert lines + [line] == [lines[0]] + (lines[1..] + [line]);
      LinesTextCons(lines[0], lines[1..] + [line]);
      Assoc(lines[0] + "\r\n", LinesText(lines[1..]), line + "\r\n");
    }
  }

  lemma NothingPrinted(start: string, lines: seq<string>)
    ensures start == start + LinesText(lines[..0])
  {
    assert lines[..0] == [] && start + "" == start;
  }

  lemma OnePrinted(start: string, lines: seq<string>, i: nat)
    requires i < |lines|
    ensures start + LinesText(lines[..i]) + (lines[i] + "\r\n") == start + LinesText(lines[..i + 1])
  {
    assert lines[..i + 1] == lines[..i] + [lines[i]];
    LinesTextAppend(lines[..i], lines[i]);
    Assoc(start, LinesText(lines[..i]), lines[i] + "\r\n");
  }

  class HttpResponse {
    var status: Status
    var version: Version
    var headers: map<Header, string>
    var content: string
    var len: nat

    constructor ()
      ensures status == NoStatus && version == Unknown && headers == map[] && content == ""
    {
      status, version, headers, content, len := NoStatus, Unknown, map[], "", 0;
    }

    method SetHeader(name: string, val: string) returns (known: bool)
      modifies this`headers
      ensures known == LookupHeader(name).Some? && headers == Put(old(headers), name, val)
    {
      headers, known := StoreHeader(headers, name, val);
    }

    method ToString(order: seq<Header>) returns (res: string)
      requires Walk(order, headers.Keys)
      modifies this`len
      ensures res == StatusLine(version, status) + BlockText(order, headers, content)
      ensures len == |res|
    {
      ghost var lines := HeaderBlockLines(order, headers);
      res := StatusLine(version, status);
      ghost var start := res;
      NothingPrinted(start, lines);
      for i := 0 to |order|
        invariant res == start + LinesText(lines[..i])
      {
        OnePrinted(start, lines, i);
        res := res + (HeaderLine(headers, order[i]) + "\r\n");
      }
      assert lines[..|order|] == lines;
      Assoc(start, LinesText(lines), "\r\n" + content);
      res := res + ("\r\n" + content);
      len := |res|;
    }
  }

  // ---------------------------------------------------------------- printed headers, parsed again

  lemma TokenLacks(s: string, c: char)
    requires Token(s) && !TokenChar(c)
    ensures c !in s
  {}

  lemma ColonAt(name: string, v: string)
    requires ':' !in name
    ensures var line := name + ": " + v;
            && IndexOf(line, ':', 0) == |name| < |line| && line[..|name|] == name
            && DropSpace(line[|name| + 1..]) == v
  {
    var line := name + ": " + v;
    assert forall j | 0 <= j < |name| :: line[j] == name[j];
    IndexOfIs(line, ':', 0, |name|);
    assert line[|name| + 1..] == " " + v;
  }

  lemma NamedLine(req: Request, name: string, v: string, h: Header)
    requires ':' !in name && LookupHeader(name) == Some(h)
    ensures TakeHeaderLine(req, name + ": " + v) == Taken(HeaderLines, SetHeader(req, h, v), Good)
  {
    ColonAt(name, v);
  }

  /** A printed header line is read as that header with that value, leading spaces of the value included. */
  lemma HeaderLineTaken(req: Request, headers: map<Header, string>, h: Header)
    requires h in headers
    ensures TakeHeaderLine(req, HeaderLine(headers, h)) == Taken(HeaderLines, SetHeader(req, h, headers[h]), Good)
  {
    HeaderToken(h);
    TokenLacks(HeaderText(h), ':');
    HeaderRoundTrip(h);
    NamedLine(req, HeaderText(h), headers[h], h);
  }

  predicate CleanValues(headers: map<Header, string>) {
    forall h | h in headers :: '\r' !in headers[h]
  }

  lemma HeaderLineCrFree(headers: map<Header, string>, h: Header)
    requires h in headers && '\r' !in headers[h]
    ensures '\r' !in HeaderLine(headers, h)
  {
    HeaderToken(h);
    TokenLacks(HeaderText(h), '\r');
  }

  function Restrict(headers: map<Header, string>, order: seq<Header>): map<Header, string> {
    map h | h in headers && h in order :: headers[h]
  }

  lemma RestrictCons(old_: map<Header, string>, headers: map<Header, string>, order: seq<Header>)
    requires order != [] && Within(order, headers)
    ensures old_[order[0] := headers[order[0]]] + Restrict(headers, order[1..]) == old_ + Restrict(headers, order)
  {
    assert forall h :: h in order <==> h == order[0] || h in order[1..];
  }

  lemma BlockLinesCons(order: seq<Header>, headers: map<Header, string>)
    requires order != [] && Within(order, headers)
    ensures HeaderBlockLines(order, headers) + [""]
         == [HeaderLine(headers, order[0])] + (HeaderBlockLines(order[1..], headers) + [""])
  {
    var lines := HeaderBlockLines(order, headers);
    assert lines[1..] == HeaderBlockLines(order[1..], headers);
    assert lines == [lines[0]] + lines[1..];
  }

  lemma HeaderThen(req: Request, headers: map<Header, string>, h: Header, lines: seq<string>)
    requires h in headers
    ensures TakeLines(Head(HeaderLines, req), [HeaderLine(headers, h)] + lines)
         == TakeLines(Head(HeaderLines, SetHeader(req, h, headers[h])), lines)
  {
    HeaderLineTaken(req, headers, h);
    TakeLinesCons(Head(HeaderLines, req), HeaderLine(headers, h), lines);
  }

  lemma BlankTaken(req: Request)
    ensures TakeLines(Head(HeaderLines, req), [""]) == Some(Head(Body, req))
  {
    TakeLinesCons(Head(HeaderLines, req), "", []);
    assert [""] + [] == [""];
  }

  lemma {:induction false} BlockTaken(req: Request, order: seq<Header>, headers: map<Header, string>)
    requires Within(order, headers)
    ensures TakeLines(Head(HeaderLines, req), HeaderBlockLines(order, headers) + [""])
         == Some(Head(Body, req.(headers := req.headers + Restrict(headers, order))))
    decreases |order|
  {
    if order == [] {
      BlankTaken(req);
      assert HeaderBlockLines(order, headers) + [""] == [""];
      assert req.headers + Restrict(headers, []) == req.headers;
    } else {
      BlockLinesCons(order, headers);
      HeaderThen(req, headers, order[0], HeaderBlockLines(order[1..], headers) + [""]);
      BlockTaken(SetHeader(req, order[0], headers[order[0]]), order[1..], headers);
      RestrictCons(req.headers, headers, order);
    }
  }

  lemma BlockTextLines(order: seq<Header>, headers: map<Header, string>, content: string)
    requires Within(order, headers)
    ensures BlockText(order, headers, content) == LinesText(HeaderBlockLines(order, headers) + [""]) + content
  {
    var lines := HeaderBlockLines(order, headers);
    LinesTextAppend(lines, "");
    assert "" + "\r\n" == "\r\n";
    Assoc(LinesText(lines), "\r\n", content);
  }

  /**
   * Parsing the printed block: for values without '\r' the loop adds exactly the printed headers, ends behind the
   * blank line and leaves exactly the content.
   */
  lemma BlockParsed(req: Request, order: seq<Header>, headers: map<Header, string>, content: string)
    requires Walk(order, headers.Keys) && CleanValues(headers)
    ensures Run(Conn(HeaderLines, req, BlockText(order, headers, content)))
         == HeadDone(Conn(Body, req.(headers := req.headers + headers), content))
  {
    BlockTextLines(order, headers, content);
    BlockTaken(req, order, headers);
    RestrictAll(order, headers);
    BlockCrFree(order, headers);
    RunLines(Head(HeaderLines, req), HeaderBlockLines(order, headers) + [""], content);
  }

  lemma RestrictAll(order: seq<Header>, headers: map<Header, string>)
    requires Walk(order, headers.Keys)
    ensures Restrict(headers, order) == headers
  {}

  lemma BlockCrFree(order: seq<Header>, headers: map<Header, string>)
    requires Within(order, headers) && CleanValues(headers)
    ensures CrFree(HeaderBlockLines(order, headers) + [""])
  {
    forall l | l in HeaderBlockLines(order, headers) + [""]
      ensures '\r' !in l
    {
      if l != "" {
        var i :| 0 <= i < |order| && l == HeaderLine(headers, order[i]);
        assert order[i] in order;
        HeaderLineCrFree(headers, order[i]);
      }
    }
  }

  // ---------------------------------------------------------------- when printing can be undone

  lemma ValueKeepsClean(req: Request, h: Option<Header>, v: string)
    requires CleanValues(req.headers) && '\r' !in v
    ensures CleanValues(TakeValue(req, h, v).req.headers)
  {}

  lemma ValueClean(line: string, colon: nat)
    requires colon < |line| && '\r' !in line
    ensures '\r' !in DropSpace(line[colon + 1..])
  {}

  lemma TakeKeepsClean(phase: Phase, req: Request, line: string)
    requires phase != Body && '\r' !in line && CleanValues(req.headers)
    ensures CleanValues(TakeLine(phase, req, line).req.headers)
  {
    var colon := IndexOf(line, ':', 0);
    if phase == HeaderLines && colon < |line| {
      ValueClean(line, colon);
      ValueKeepsClean(req, LookupHeader(line[..colon]), DropSpace(line[colon + 1..]));
    }
  }

  /** The parser never stores a '\r' in a header. */
  lemma {:induction false} RunKeepsClean(c: Conn)
    requires CleanValues(c.req.headers)
    ensures CleanValues(Run(c).conn.req.headers)
    decreases |c.buf|
  {
    if c.phase == Body || !ParseLine(c.buf).Complete? {
    } else {
      var end := ParseLine(c.buf).end;
      LineBack(c.buf, end);
      RunStep(c, end, c.buf[..end], c.buf[end + 2..]);
      TakeKeepsClean(c.phase, c.req, c.buf[..end]);
      var t := TakeLine(c.phase, c.req, c.buf[..end]);
      if t.verdict == Good {
        RunKeepsClean(Conn(t.phase, t.req, c.buf[end + 2..]));
      }
    }
  }

  lemma OntoNothing(req: Request, headers: map<Header, string>)
    requires req.headers == map[]
    ensures req.(headers := req.headers + headers) == req.(headers := headers)
  {
    assert req.headers + headers == headers;
  }

  lemma DirtyNeverParsed(c: Conn, d: Conn)
    requires CleanValues(c.req.headers) && !CleanValues(d.req.headers)
    ensures Run(c) != HeadDone(d)
  {
    RunKeepsClean(c);
  }

  /** Printer and parser are inverse on header maps exactly when no value holds a '\r'. */
  lemma PrinterParserInverse(req: Request, order: seq<Header>, headers: map<Header, string>, content: string)
    requires req.headers == map[] && Walk(order, headers.Keys)
    ensures Run(Conn(HeaderLines, req, BlockText(order, headers, content)))
         == HeadDone(Conn(Body, req.(headers := headers), content))
       <==> CleanValues(headers)
  {
    var text := BlockText(order, headers, content);
    if CleanValues(headers) {
      BlockParsed(req, order, headers, content);
      OntoNothing(req, headers);
    } else {
      DirtyNeverParsed(Conn(HeaderLines, req, text), Conn(Body, req.(headers := headers), content));
    }
  }

  // ---------------------------------------------------------------- a response, read by its receiver

  /** The numbers of the status codes. */
  function StatusCode(s: Status): nat {
    match s
    case NoStatus => 1
    case Continue => 100
    case OK => 200
    case Not_Modified => 304
    case Not_Found => 404
    case Bad_Request => 400
    case Forbidden => 403
    case Internal_Server_Error => 500
    case HTTP_Version_Not_Supported => 505
  }

  /** A three-digit number, a space, a reason and CRLF, with no other '\r'. */
  ghost predicate StatusForm(t: string, code: nat) {
    && |t| >= 6 && Number(t[..3]) == code && t[3] == ' '
    && t[|t| - 2..] == "\r\n" && '\r' !in t[..|t| - 2]
  }

  lemma DigitsRead(s: Status)
    requires s != NoStatus
    ensures |Digits(s)| == 3 && Number(Digits(s)) == StatusCode(s) && '\r' !in Digits(s)
  {
    ThreeDigits(Digits(s));
  }

  lemma ReasonClean(s: Status)
    ensures '\r' !in Reason(s)
  {}

  lemma FormOf(t: string, digits: string, reason: string, code: nat)
    requires |digits| == 3 && Number(digits) == code && '\r' !in digits && '\r' !in reason
    requires t == digits + " " + reason + "\r\n"
    ensures StatusForm(t, code)
  {
    assert t[..3] == digits && t[|t| - 2..] == "\r\n" && t[..|t| - 2] == digits + " " + reason;
  }

  lemma StatusTextForm(s: Status)
    requires s != NoStatus
    ensures StatusForm(StatusText(s), StatusCode(s))
  {
    DigitsRead(s);
    ReasonClean(s);
    FormOf(StatusText(s), Digits(s), Reason(s), StatusCode(s));
  }

  /** The version and the number stand where a receiver looks for them, by section 3.1.2 of RFC 7230. */
  lemma StatusRead(v: Version, s: Status)
    requires v != Unknown && s != NoStatus
    ensures var line := StatusLine(v, s);
            && |line| >= 15 && VersionOf(line[..8]) == v && line[8] == ' ' && Number(line[9..12]) == StatusCode(s)
            && line[12] == ' ' && line[|line| - 2..] == "\r\n" && '\r' !in line[..|line| - 2]
  {
    var a, t := VersionText(v), StatusText(s);
    assert |a| == 8 && '\r' !in a && VersionOf(a) == v;
    StatusTextForm(s);
    LineForm(a, t, StatusCode(s));
  }

  lemma LineForm(a: string, t: string, code: nat)
    requires |a| == 8 && '\r' !in a && StatusForm(t, code)
    ensures var line := a + " " + t;
            && |line| >= 15 && line[..8] == a && line[8] == ' ' && Number(line[9..12]) == code
            && line[12] == ' ' && line[|line| - 2..] == "\r\n" && '\r' !in line[..|line| - 2]
  {
    var line := a + " " + t;
    assert line[9..12] == t[..3];
    assert line[|line| - 2..] == t[|t| - 2..];
    assert line[..|line| - 2] == a + " " + t[..|t| - 2];
  }

  /**
   * Everything printed can be read back: the first line gives version and status, and behind it the header loop gives
   * the headers and leaves the content.
   */
  lemma ResponseRead(v: Version, s: Status, order: seq<Header>, headers: map<Header, string>, content: string, req: Request)
    requires v != Unknown && s != NoStatus && Walk(order, headers.Keys) && CleanValues(headers)
    ensures var text, n := StatusLine(v, s) + BlockText(order, headers, content), |StatusLine(v, s)|;
            && n >= 15 && ParseLine(text) == Complete(n - 2)
            && VersionOf(text[..8]) == v && Number(text[9..12]) == StatusCode(s)
            && Run(Conn(HeaderLines, req, text[n..])) == HeadDone(Conn(Body, req.(headers := req.headers + headers), content))
  {
    var line, block := StatusLine(v, s), BlockText(order, headers, content);
    StatusRead(v, s);
    LineThenBlock(line, block);
    BlockParsed(req, order, headers, content);
  }

  lemma LineThenBlock(line: string, block: string)
    requires |line| >= 15 && line[|line| - 2..] == "\r\n" && '\r' !in line[..|line| - 2]
    ensures var text, n := line + block, |line|;
            && ParseLine(text) == Complete(n - 2)
            && text[..8] == line[..8] && text[9..12] == line[9..12] && text[n..] == block
  {
    var first := line[..|line| - 2];
    assert line == first + "\r\n";
    ParseLineOf(first, block);
  }
}
