/** The request head as a function of the bytes received: what each line does, and what the line loop makes of them. */
module HttpHead {
  import opened Options
  import opened Sequences
  import opened HttpNames
  import opened Query

  datatype Phase = RequestLine | HeaderLines | Body

  datatype Version = Unknown | HTTP10 | HTTP11

  /** What has been read of a request; headers and parameters survive from one request to the next. */
  datatype Request = Request(
    verb: Option<Method>,
    version: Version,
    url: string,
    queryString: string,
    params: map<string, string>,
    headers: map<Header, string>,
    content: string)

  /** A connection: the parser's phase, the request so far and the bytes not yet consumed. */
  datatype Conn = Conn(phase: Phase, req: Request, buf: string)

  // ---------------------------------------------------------------- one line

  datatype Line = More | Broken | Complete(end: nat)

  /** Looks for the end of the first line; a '\r' must be followed by '\n'. */
  function ParseLine(buf: string): (l: Line)
    ensures l.Complete? ==> l.end + 1 < |buf|
  {
    var pos := IndexOf(buf, '\r', 0);
    if pos == |buf| || pos + 1 == |buf| then More
    else if buf[pos + 1] == '\n' then Complete(pos)
    else Broken
  }

  /** The three answers in terms of the text: no complete first line yet, a line closed by CRLF, or a '\r' that something
      else than '\n' follows. */
  lemma ParseLineMeaning(buf: string)
    ensures ParseLine(buf) == More <==> '\r' !in buf || exists a: string :: '\r' !in a && buf == a + "\r"
    ensures ParseLine(buf).Complete? <==> exists a: string, b: string :: '\r' !in a && buf == a + "\r\n" + b
    ensures ParseLine(buf) == Broken <==>
              exists a: string, c: char, b: string :: '\r' !in a && c != '\n' && buf == a + ['\r', c] + b
  {
    var pos := IndexOf(buf, '\r', 0);
    IndexOfMeaning(buf, '\r', 0);
    if pos < |buf| {
      var a := buf[..pos];
      if pos + 1 == |buf| {
        assert buf == a + "\r";
      } else {
        var c, b := buf[pos + 1], buf[pos + 2..];
        assert buf == a + ['\r', c] + b;
        assert c == '\n' ==> buf == a + "\r\n" + b;
      }
    }
    forall a: string, t: string | '\r' !in a && buf == a + "\r" + t
      ensures pos == |a|
    {
      assert forall j | 0 <= j < |a| :: buf[j] == a[j];
      IndexOfIs(buf, '\r', 0, |a|);
    }
    LineForms(buf, pos);
  }

  /** Each form of the text fixes where its first '\r' is. */
  lemma LineForms(buf: string, pos: nat)
    requires forall a: string, t: string | '\r' !in a && buf == a + "\r" + t :: pos == |a|
    ensures forall a: string | '\r' !in a && buf == a + "\r" :: pos == |a|
    ensures forall a: string, b: string | '\r' !in a && buf == a + "\r\n" + b :: pos == |a|
    ensures forall a: string, c: char, b: string | '\r' !in a && buf == a + ['\r', c] + b :: pos == |a|
  {
    forall a: string | '\r' !in a && buf == a + "\r" ensures pos == |a| {
      assert buf == a + "\r" + "";
    }
    forall a: string, b: string | '\r' !in a && buf == a + "\r\n" + b ensures pos == |a| {
      assert buf == a + "\r" + ("\n" + b);
    }
    forall a: string, c: char, b: string | '\r' !in a && buf == a + ['\r', c] + b ensures pos == |a| {
      assert buf == a + "\r" + ([c] + b);
    }
  }

  /** The request as a line leaves it, and what the line was worth; a refused line can leave its traces. */
  datatype Taken = Taken(phase: Phase, req: Request, verdict: Verdict)

  /** The version is judged by the last character of the line, and the last but two. */
  function VersionOf(line: string): Version {
    if |line| >= 1 && line[|line| - 1] == '1' then HTTP11
    else if |line| >= 3 && line[|line| - 1] == '0' && line[|line| - 3] == '1' then HTTP10
    else Unknown
  }

  /** A line that ends in 1 is HTTP/1.1; one that ends in 1, any character and 0 is HTTP/1.0; nothing else is accepted. */
  lemma VersionMeaning(line: string)
    ensures VersionOf(line) == HTTP11 <==> exists a: string :: line == a + "1"
    ensures VersionOf(line) == HTTP10 <==> exists a: string, c: char :: line == a + ['1', c, '0']
  {
    var n := |line|;
    if VersionOf(line) == HTTP11 {
      assert line == line[..n - 1] + "1";
    }
    if VersionOf(line) == HTTP10 {
      assert line == line[..n - 3] + ['1', line[n - 2], '0'];
    }
  }

  function SetVersion(req: Request, line: string): (t: Taken)
    ensures t.req.headers == req.headers
  {
    var v := VersionOf(line);
    if v == Unknown then Taken(RequestLine, req, BadRequest)
    else Taken(HeaderLines, req.(version := v), Good)
  }

  /** Stores the raw query string, decoded as a whole and pair by pair. */
  function SetQuery(req: Request, raw: string): (t: Taken)
    ensures t.req.headers == req.headers
  {
    var q := Decoded(raw);
    if q.None? then Taken(RequestLine, req, Throws) else
    var r := AddPieces(req.params, Pieces(raw));
    Taken(RequestLine, req.(queryString := q.value, params := r.params), r.verdict)
  }

  /** The target between the two spaces; mark is the first '?' after the first space, possibly after the second too. */
  function SetTarget(req: Request, line: string, first: nat, second: nat, mark: nat): (t: Taken)
    requires first < second < |line| && first < mark <= |line| && mark != second
    ensures t.req.headers == req.headers
  {
    var url := Decoded(line[first + 1..if mark == |line| then second else mark]);
    if url.None? then Taken(RequestLine, req, Throws) else
    var located := req.(url := url.value);
    if mark == |line| then Taken(RequestLine, located, Good)
    else if mark > second then Taken(RequestLine, located, Throws)
    else SetQuery(located, line[mark + 1..second])
  }

  /** What follows the method, which ends at the space at first. */
  function TakeTarget(req: Request, line: string, first: nat): (t: Taken)
    requires first < |line|
    ensures t.req.headers == req.headers
  {
    var second, mark := IndexOf(line, ' ', first + 1), IndexOf(line, '?', first + 1);
    if second == |line| then Taken(RequestLine, req, BadRequest) else
    var t := SetTarget(req, line, first, second, mark);
    if t.verdict == Good then SetVersion(t.req, line) else t
  }

  /** A request line leaves the headers alone. */
  function TakeRequestLine(req: Request, line: string): (t: Taken)
    ensures t.req.headers == req.headers
  {
    var first := IndexOf(line, ' ', 0);
    if first == |line| then Taken(RequestLine, req, BadRequest) else
    var m := LookupMethod(line[..first]);
    if m.None? then Taken(RequestLine, req, BadRequest) else TakeTarget(req.(verb := m), line, first)
  }

  function DropSpace(s: string): string {
    if |s| > 0 && s[0] == ' ' then s[1..] else s
  }

  function SetHeader(req: Request, h: Header, v: string): Request {
    req.(headers := req.headers[h := v])
  }

  /** Stores a value under a name, if the name is known. */
  function Put(headers: map<Header, string>, name: string, val: string): map<Header, string> {
    var h := LookupHeader(name);
    if h.Some? then headers[h.value := val] else headers
  }

  /** The value stored under a name. */
  function Got(headers: map<Header, string>, name: string): Option<string> {
    var h := LookupHeader(name);
    if h.Some? && h.value in headers then Some(headers[h.value]) else None
  }

  /** A value put under a known name is got under every name equal to it up to case, and under no other. */
  lemma PutGot(headers: map<Header, string>, name: string, val: string, other: string)
    ensures Got(Put(headers, name, val), other)
         == if LookupHeader(name).Some? && Fold(other) == Fold(name) then Some(val) else Got(headers, other)
  {
    var h, g := LookupHeader(name), LookupHeader(other);
    if h.Some? {
      LookupMeaning(name, h.value);
      LookupMeaning(other, h.value);
    }
  }

  /** What setHeader does, for requests and for responses. */
  method StoreHeader(headers: map<Header, string>, name: string, val: string)
    returns (stored: map<Header, string>, known: bool)
    ensures known == LookupHeader(name).Some? && stored == Put(headers, name, val)
    ensures forall other ::
              Got(stored, other) == if known && Fold(other) == Fold(name) then Some(val) else Got(headers, other)
  {
    var h := LookupHeader(name);
    stored, known := headers, h.Some?;
    if known {
      stored := headers[h.value := val];
    }
    forall other
      ensures Got(stored, other) == if known && Fold(other) == Fold(name) then Some(val) else Got(headers, other)
    {
      PutGot(headers, name, val, other);
    }
  }

  function TakeValue(req: Request, h: Option<Header>, v: string): Taken {
    if h.None? then Taken(HeaderLines, req, BadRequest) else Taken(HeaderLines, SetHeader(req, h.value, v), Good)
  }

  function TakeHeaderLine(req: Request, line: string): Taken {
    var colon := IndexOf(line, ':', 0);
    if colon == |line| then
      if line == "" then Taken(Body, req, Good) else Taken(HeaderLines, req, BadRequest)
    else
      TakeValue(req, LookupHeader(line[..colon]), DropSpace(line[colon + 1..]))
  }

  /** The line is name, its first colon, and v. */
  predicate ColonCut(line: string, name: string, v: string) {
    ':' !in name && line == name + ":" + v
  }

  /** The request with header h set to v, less one space in front. */
  function WithHeader(req: Request, h: Header, v: string): Request {
    req.(headers := req.headers[h := if v != "" && v[0] == ' ' then v[1..] else v])
  }

  /**
   * A header line is accepted exactly when it is blank, which ends the head, or has a known name before its first colon;
   * then that header gets what follows, less one space. Every other line is a bad request and changes nothing.
   */
  lemma HeaderLineVerdict(req: Request, line: string)
    ensures line == "" ==> TakeHeaderLine(req, line) == Taken(Body, req, Good)
    ensures line != "" && ':' !in line ==> TakeHeaderLine(req, line) == Taken(HeaderLines, req, BadRequest)
    ensures ':' in line ==> exists name, v :: ColonCut(line, name, v)
    ensures forall name, v, h | ColonCut(line, name, v) && HasName(h, name) ::
              TakeHeaderLine(req, line) == Taken(HeaderLines, WithHeader(req, h, v), Good)
    ensures forall name, v | ColonCut(line, name, v) && (forall h :: !HasName(h, name)) ::
              TakeHeaderLine(req, line) == Taken(HeaderLines, req, BadRequest)
  {
    var colon := IndexOf(line, ':', 0);
    IndexOfMeaning(line, ':', 0);
    if colon < |line| {
      assert line == line[..colon] + ":" + line[colon + 1..];
      assert ColonCut(line, line[..colon], line[colon + 1..]);
    }
    forall name, v, h | ColonCut(line, name, v) && HasName(h, name)
      ensures TakeHeaderLine(req, line) == Taken(HeaderLines, WithHeader(req, h, v), Good)
    {
      HeaderLineParts(req, name, v);
      LookupMeaning(name, h);
    }
    forall name, v | ColonCut(line, name, v) && (forall h :: !HasName(h, name))
      ensures TakeHeaderLine(req, line) == Taken(HeaderLines, req, BadRequest)
    {
      HeaderLineParts(req, name, v);
    }
  }

  lemma HeaderLineParts(req: Request, name: string, v: string)
    requires ':' !in name
    ensures TakeHeaderLine(req, name + ":" + v) == TakeValue(req, LookupHeader(name), DropSpace(v))
  {
    var line := name + ":" + v;
    assert forall j | 0 <= j < |name| :: line[j] == name[j];
    IndexOfIs(line, ':', 0, |name|);
    assert line[..|name|] == name && line[|name| + 1..] == v;
  }

  function TakeLine(phase: Phase, req: Request, line: string): Taken
    requires phase != Body
  {
    if phase == RequestLine then TakeRequestLine(req, line) else TakeHeaderLine(req, line)
  }

  // ---------------------------------------------------------------- the line loop

  datatype Outcome =
    | NeedMore(conn: Conn)
    | HeadDone(conn: Conn)
    | Rejected(conn: Conn, error: Verdict)

  /** Takes lines until the head is complete, a line is refused or the bytes run out. */
  function Run(c: Conn): (o: Outcome)
    ensures o.HeadDone? <==> o.conn.phase == Body
    ensures o.Rejected? ==> o.error != Good
    decreases |c.buf|, 2
  {
    if c.phase == Body then HeadDone(c) else NextLine(c)
  }

  function NextLine(c: Conn): (o: Outcome)
    requires c.phase != Body
    ensures o.HeadDone? <==> o.conn.phase == Body
    ensures o.Rejected? ==> o.error != Good
    decreases |c.buf|, 1
  {
    match ParseLine(c.buf)
    case More => NeedMore(c)
    case Broken => Rejected(c, BadRequest)
    case Complete(end) => OnLine(c, end)
  }

  function OnLine(c: Conn, end: nat): (o: Outcome)
    requires c.phase != Body && ParseLine(c.buf) == Complete(end)
    ensures o.HeadDone? <==> o.conn.phase == Body
    ensures o.Rejected? ==> o.error != Good
    decreases |c.buf|, 0
  {
    var t := TakeLine(c.phase, c.req, c.buf[..end]);
    if t.verdict == Good then Run(Conn(t.phase, t.req, c.buf[end + 2..]))
    else Rejected(Conn(c.phase, t.req, c.buf), t.verdict)
  }

  /** One turn of the loop on a complete line. */
  lemma RunStep(c: Conn, end: nat, line: string, rest: string)
    requires c.phase != Body && ParseLine(c.buf) == Complete(end)
    requires line == c.buf[..end] && rest == c.buf[end + 2..]
    ensures var t := TakeLine(c.phase, c.req, line);
            Run(c) == if t.verdict == Good then Run(Conn(t.phase, t.req, rest))
                      else Rejected(Conn(c.phase, t.req, c.buf), t.verdict)
  {
    assert Run(c) == NextLine(c) == OnLine(c, end);
  }

  function Feed(c: Conn, more: string): Conn {
    c.(buf := c.buf + more)
  }

  /** The outcome after more bytes: only a head that still waits for bytes has work left. */
  function Extend(o: Outcome, more: string): Outcome {
    match o
    case NeedMore(c) => Run(Feed(c, more))
    case HeadDone(c) => HeadDone(Feed(c, more))
    case Rejected(c, e) => Rejected(Feed(c, more), e)
  }

  lemma ParseLineStable(buf: string, more: string)
    requires ParseLine(buf) != More
    ensures ParseLine(buf + more) == ParseLine(buf)
  {
    IndexOfStable(buf, more, '\r', 0);
  }

  lemma LineStable(buf: string, more: string, end: nat)
    requires ParseLine(buf) == Complete(end)
    ensures ParseLine(buf + more) == Complete(end)
    ensures (buf + more)[..end] == buf[..end]
    ensures (buf + more)[end + 2..] == buf[end + 2..] + more
  {
    ParseLineStable(buf, more);
  }

  /** Bytes that arrive later could as well have arrived before. */
  lemma {:induction false} ExtendIsRun(c: Conn, more: string)
    ensures Extend(Run(c), more) == Run(Feed(c, more))
    decreases |c.buf|
  {
    if c.phase == Body || ParseLine(c.buf) == More {
    } else {
      ParseLineStable(c.buf, more);
      if ParseLine(c.buf).Complete? {
        var end := ParseLine(c.buf).end;
        var line, rest := c.buf[..end], c.buf[end + 2..];
        LineStable(c.buf, more, end);
        RunStep(c, end, line, rest);
        RunStep(Feed(c, more), end, line, rest + more);
        var t := TakeLine(c.phase, c.req, line);
        if t.verdict == Good {
          ExtendIsRun(Conn(t.phase, t.req, rest), more);
        }
      }
    }
  }

  function Concat(chunks: seq<string>): string {
    if chunks == [] then "" else chunks[0] + Concat(chunks[1..])
  }

  function ReceiveAll(o: Outcome, chunks: seq<string>): Outcome
    decreases |chunks|
  {
    if chunks == [] then o else ReceiveAll(Extend(o, chunks[0]), chunks[1..])
  }

  lemma ExtendTwice(o: Outcome, a: string, b: string)
    ensures Extend(Extend(o, a), b) == Extend(o, a + b)
  {
    FeedTwice(o.conn, a, b);
    if o.NeedMore? {
      ExtendIsRun(Feed(o.conn, a), b);
    }
  }

  lemma FeedTwice(c: Conn, a: string, b: string)
    ensures Feed(Feed(c, a), b) == Feed(c, a + b)
  {
    assert c.buf + a + b == c.buf + (a + b);
  }

  lemma ExtendNothing(c: Conn)
    ensures Extend(Run(c), "") == Run(c)
  {
    ExtendIsRun(c, "");
    assert c.buf + "" == c.buf;
  }

  lemma {:induction false} ReceiveIsExtend(o: Outcome, chunks: seq<string>)
    requires chunks != []
    ensures ReceiveAll(o, chunks) == Extend(o, Concat(chunks))
    decreases |chunks|
  {
    if |chunks| == 1 {
      assert Concat(chunks) == chunks[0] + "" == chunks[0];
    } else {
      ReceiveIsExtend(Extend(o, chunks[0]), chunks[1..]);
      ExtendTwice(o, chunks[0], Concat(chunks[1..]));
    }
  }

  /** Chunk independence: however the bytes are cut, the head comes out as if they had arrived in one piece. */
  lemma ChunkIndependence(c: Conn, chunks: seq<string>)
    ensures ReceiveAll(Run(c), chunks) == Run(Feed(c, Concat(chunks)))
  {
    if chunks == [] {
      ExtendNothing(c);
    } else {
      ReceiveIsExtend(Run(c), chunks);
    }
    ExtendIsRun(c, Concat(chunks));
  }

  // ---------------------------------------------------------------- the head as a list of lines

  function LinesText(lines: seq<string>): string {
    if lines == [] then "" else lines[0] + "\r\n" + LinesText(lines[1..])
  }

  predicate CrFree(lines: seq<string>) {
    forall l | l in lines :: '\r' !in l
  }

  datatype Head = Head(phase: Phase, req: Request)

  /** The lines in order, all accepted and none after the blank one. */
  function TakeLines(h: Head, lines: seq<string>): Option<Head>
    decreases |lines|
  {
    if lines == [] then Some(h)
    else if h.phase == Body then None
    else
      var t := TakeLine(h.phase, h.req, lines[0]);
      if t.verdict == Good then TakeLines(Head(t.phase, t.req), lines[1..]) else None
  }

  lemma ParseLineOf(line: string, rest: string)
    requires '\r' !in line
    ensures ParseLine(line + "\r\n" + rest) == Complete(|line|)
    ensures (line + "\r\n" + rest)[..|line|] == line
    ensures (line + "\r\n" + rest)[|line| + 2..] == rest
  {
    var s := line + "\r\n" + rest;
    assert forall j | 0 <= j < |line| :: s[j] == line[j];
    IndexOfIs(s, '\r', 0, |line|);
  }

  lemma RunLine(phase: Phase, req: Request, line: string, rest: string)
    requires '\r' !in line && phase != Body
    ensures var t := TakeLine(phase, req, line);
            t.verdict == Good ==> Run(Conn(phase, req, line + "\r\n" + rest)) == Run(Conn(t.phase, t.req, rest))
  {
    ParseLineOf(line, rest);
    RunStep(Conn(phase, req, line + "\r\n" + rest), |line|, line, rest);
  }

  /** Accepted lines at the front of the buffer are consumed, and the loop goes on behind them. */
  lemma {:induction false} RunLines(h: Head, lines: seq<string>, rest: string)
    requires CrFree(lines)
    ensures TakeLines(h, lines).Some? ==>
              var g := TakeLines(h, lines).value;
              Run(Conn(h.phase, h.req, LinesText(lines) + rest)) == Run(Conn(g.phase, g.req, rest))
    decreases |lines|
  {
    if lines == [] {
      assert "" + rest == rest;
    } else if TakeLines(h, lines).Some? {
      var t := TakeLine(h.phase, h.req, lines[0]);
      assert lines[0] in lines;
      Assoc(lines[0] + "\r\n", LinesText(lines[1..]), rest);
      RunLine(h.phase, h.req, lines[0], LinesText(lines[1..]) + rest);
      RunLines(Head(t.phase, t.req), lines[1..], rest);
    }
  }

  /** The lines that a completed head consists of. */
  function HeadOf(c: Conn): (lines: seq<string>)
    decreases |c.buf|
  {
    if c.phase == Body || !ParseLine(c.buf).Complete? then [] else
    var end := ParseLine(c.buf).end;
    var t := TakeLine(c.phase, c.req, c.buf[..end]);
    [c.buf[..end]] + if t.verdict == Good then HeadOf(Conn(t.phase, t.req, c.buf[end + 2..])) else []
  }

  lemma LineBack(s: string, end: nat)
    requires ParseLine(s) == Complete(end)
    ensures '\r' !in s[..end] && s == s[..end] + "\r\n" + s[end + 2..]
  {
    IndexOfMeaning(s, '\r', 0);
  }

  lemma HeadOfStep(c: Conn)
    requires c.phase != Body && Run(c).HeadDone?
    ensures ParseLine(c.buf).Complete?
    ensures var end := ParseLine(c.buf).end;
            var t := TakeLine(c.phase, c.req, c.buf[..end]);
            var next := Conn(t.phase, t.req, c.buf[end + 2..]);
            && t.verdict == Good && Run(next) == Run(c)
            && HeadOf(c) == [c.buf[..end]] + HeadOf(next)
  {
    var end := ParseLine(c.buf).end;
    RunStep(c, end, c.buf[..end], c.buf[end + 2..]);
  }

  lemma CrFreeCons(line: string, lines: seq<string>)
    requires '\r' !in line && CrFree(lines)
    ensures CrFree([line] + lines)
  {}

  lemma LinesTextCons(line: string, lines: seq<string>)
    ensures LinesText([line] + lines) == line + "\r\n" + LinesText(lines)
  {
    assert ([line] + lines)[1..] == lines;
  }

  lemma TakeLinesCons(h: Head, line: string, lines: seq<string>)
    requires h.phase != Body
    ensures var t := TakeLine(h.phase, h.req, line);
            TakeLines(h, [line] + lines) == if t.verdict == Good then TakeLines(Head(t.phase, t.req), lines) else None
  {
    assert ([line] + lines)[1..] == lines;
  }

  lemma {:induction false} HeadOfRun(c: Conn)
    requires Run(c).HeadDone?
    ensures CrFree(HeadOf(c))
    ensures c.buf == LinesText(HeadOf(c)) + Run(c).conn.buf
    ensures TakeLines(Head(c.phase, c.req), HeadOf(c)) == Some(Head(Body, Run(c).conn.req))
    decreases |c.buf|
  {
    if c.phase == Body {
      assert "" + c.buf == c.buf;
    } else {
      HeadOfStep(c);
      var end := ParseLine(c.buf).end;
      var line, rest := c.buf[..end], c.buf[end + 2..];
      var t := TakeLine(c.phase, c.req, line);
      var next := Conn(t.phase, t.req, rest);
      HeadOfRun(next);
      LineBack(c.buf, end);
      CrFreeCons(line, HeadOf(next));
      LinesTextCons(line, HeadOf(next));
      TakeLinesCons(Head(c.phase, c.req), line, HeadOf(next));
      Assoc(line + "\r\n", LinesText(HeadOf(next)), Run(next).conn.buf);
    }
  }

  /** The loop completes a head exactly when the bytes are accepted lines, each closed by CRLF, then the rest. */
  lemma HeadIff(c: Conn, d: Conn)
    ensures Run(c) == HeadDone(d) <==>
      && d.phase == Body
      && exists lines: seq<string> :: CrFree(lines) && c.buf == LinesText(lines) + d.buf
           && TakeLines(Head(c.phase, c.req), lines) == Some(Head(Body, d.req))
  {
    if Run(c) == HeadDone(d) {
      HeadOfRun(c);
    }
    if d.phase == Body {
      forall lines: seq<string> | CrFree(lines) && c.buf == LinesText(lines) + d.buf
           && TakeLines(Head(c.phase, c.req), lines) == Some(Head(Body, d.req))
        ensures Run(c) == HeadDone(d)
      {
        RunLines(Head(c.phase, c.req), lines, d.buf);
      }
    }
  }

  // ---------------------------------------------------------------- the request line

  /** A request line cut into its parts; what follows the second space is judged only by the version rule. */
  datatype Parts = Parts(name: string, path: string, query: Option<string>, tail: string)

  function TargetText(p: Parts): string {
    p.path + if p.query.Some? then "?" + p.query.value else ""
  }

  function PartsText(p: Parts): string {
    p.name + " " + TargetText(p) + " " + p.tail
  }

  /** Cut at the first two spaces, and in between at the first question mark. */
  predicate Spaced(p: Parts) {
    && ' ' !in p.name && ' ' !in p.path && '?' !in p.path
    && (p.query.Some? ==> ' ' !in p.query.value)
  }

  /** A question mark comes, but only behind the second space. */
  predicate LateMark(p: Parts) {
    p.query.None? && '?' in p.tail
  }

  predicate WellCut(p: Parts) {
    Spaced(p) && !LateMark(p)
  }

  /** The target, from its parts. */
  function SetParts(req: Request, p: Parts): Taken {
    var url := Decoded(p.path);
    if url.None? then Taken(RequestLine, req, Throws)
    else if p.query.None? then Taken(RequestLine, req.(url := url.value), Good)
    else SetQuery(req.(url := url.value), p.query.value)
  }

  /** A request line, from its parts. */
  function TakeParts(req: Request, p: Parts): Taken {
    var m := LookupMethod(p.name);
    if m.None? then Taken(RequestLine, req, BadRequest) else
    var t := SetParts(req.(verb := m), p);
    if t.verdict == Good then SetVersion(t.req, PartsText(p)) else t
  }

  lemma FirstSpace(p: Parts)
    requires Spaced(p)
    ensures IndexOf(PartsText(p), ' ', 0) == |p.name| && PartsText(p)[..|p.name|] == p.name
  {
    var line := PartsText(p);
    assert forall j | 0 <= j < |p.name| :: line[j] == p.name[j];
    IndexOfIs(line, ' ', 0, |p.name|);
  }

  lemma SecondSpace(p: Parts)
    requires Spaced(p)
    ensures var n := |p.name| + 1;
            && IndexOf(PartsText(p), ' ', n) == n + |TargetText(p)|
            && n + |TargetText(p)| < |PartsText(p)|
            && PartsText(p)[n..n + |TargetText(p)|] == TargetText(p)
  {
    var line, n, t := PartsText(p), |p.name| + 1, TargetText(p);
    assert line == (p.name + " ") + t + (" " + p.tail);
    assert forall j | 0 <= j < |t| :: line[n + j] == t[j];
    assert ' ' !in t;
    assert forall j | n <= j < n + |t| :: line[j] == t[j - n];
    IndexOfIs(line, ' ', n, n + |t|);
  }

  lemma QuestionMark(p: Parts)
    requires WellCut(p)
    ensures var n := |p.name| + 1;
            IndexOf(PartsText(p), '?', n) == if p.query.Some? then n + |p.path| else |PartsText(p)|
  {
    var line, n := PartsText(p), |p.name| + 1;
    if p.query.Some? {
      assert line == (p.name + " ") + p.path + ("?" + p.query.value + " " + p.tail);
      assert forall j | n <= j < n + |p.path| :: line[j] == p.path[j - n];
      IndexOfIs(line, '?', n, n + |p.path|);
    } else {
      var rest := p.path + " " + p.tail;
      assert line == (p.name + " ") + rest;
      assert forall j | n <= j < |line| :: line[j] == rest[j - n];
      IndexOfIs(line, '?', n, |line|);
    }
  }

  lemma TargetSlices(p: Parts)
    requires Spaced(p)
    ensures var n := |p.name| + 1;
            && PartsText(p)[n..n + |p.path|] == p.path
            && (p.query.Some? ==> PartsText(p)[n + |p.path| + 1..n + |TargetText(p)|] == p.query.value)
  {}

  lemma TargetOfParts(req: Request, p: Parts, second: nat, mark: nat)
    requires WellCut(p)
    requires second == |p.name| + 1 + |TargetText(p)|
    requires mark == if p.query.Some? then |p.name| + 1 + |p.path| else |PartsText(p)|
    ensures SetTarget(req, PartsText(p), |p.name|, second, mark) == SetParts(req, p)
  {
    TargetSlices(p);
  }

  /** The positions the parser finds are those of the parts. */
  lemma LineOfParts(req: Request, p: Parts)
    requires WellCut(p)
    ensures TakeRequestLine(req, PartsText(p)) == TakeParts(req, p)
  {
    FirstSpace(p);
    SecondSpace(p);
    QuestionMark(p);
    var line, m := PartsText(p), LookupMethod(p.name);
    TargetOfParts(req.(verb := m), p, IndexOf(line, ' ', |p.name| + 1), IndexOf(line, '?', |p.name| + 1));
  }

  // ---------------------------------------------------------------- verdicts on request lines

  predicate TwoSpaces(line: string) {
    exists i, j :: 0 <= i < j < |line| && line[i] == ' ' && line[j] == ' '
  }

  function PartsOf(line: string): Parts {
    var first := IndexOf(line, ' ', 0);
    var second, mark := IndexOf(line, ' ', first + 1), IndexOf(line, '?', first + 1);
    if first < mark < second < |line| then
      Parts(line[..first], line[first + 1..mark], Some(line[mark + 1..second]), line[second + 1..])
    else if first < second < |line| then
      Parts(line[..first], line[first + 1..second], None, line[second + 1..])
    else Parts("", "", None, "")
  }

  predicate Cuttable(line: string) {
    var first := IndexOf(line, ' ', 0);
    first < |line| && IndexOf(line, ' ', first + 1) < |line|
  }

  lemma CuttableIff(line: string)
    ensures Cuttable(line) <==> TwoSpaces(line)
  {
    var first := IndexOf(line, ' ', 0);
    IndexOfMeaning(line, ' ', 0);
    IndexOfMeaning(line, ' ', first + 1);
    if Cuttable(line) {
      assert line[first] == ' ' && line[IndexOf(line, ' ', first + 1)] == ' ';
    }
    if i, j :| 0 <= i < j < |line| && line[i] == ' ' && line[j] == ' ' {
      assert first <= i;
    }
  }

  lemma SliceLacks(s: string, c: char, from: nat, a: nat, b: nat)
    requires from <= a <= b <= IndexOf(s, c, from)
    ensures c !in s[a..b]
  {
    IndexOfMeaning(s, c, from);
  }

  lemma Sliced(s: string, a: nat, b: nat)
    requires a < b < |s|
    ensures s == s[..a] + [s[a]] + s[a + 1..b] + [s[b]] + s[b + 1..]
  {}

  lemma SlicedOnce(s: string, a: nat, m: nat, b: nat)
    requires a <= m < b <= |s|
    ensures s[a..b] == s[a..m] + ([s[m]] + s[m + 1..b])
  {}

  lemma TargetBack(line: string)
    requires Cuttable(line)
    ensures var n := IndexOf(line, ' ', 0) + 1; TargetText(PartsOf(line)) == line[n..IndexOf(line, ' ', n)]
  {
    var n := IndexOf(line, ' ', 0) + 1;
    var second, mark, p := IndexOf(line, ' ', n), IndexOf(line, '?', n), PartsOf(line);
    if mark < second {
      SlicedOnce(line, n, mark, second);
      assert [line[mark]] == "?";
    } else {
      assert p.path + "" == p.path;
    }
  }

  lemma PartsBack(line: string)
    requires Cuttable(line)
    ensures PartsText(PartsOf(line)) == line
  {
    var first := IndexOf(line, ' ', 0);
    var second, p := IndexOf(line, ' ', first + 1), PartsOf(line);
    TargetBack(line);
    Sliced(line, first, second);
    assert [line[first]] == " " && [line[second]] == " ";
    assert p.name == line[..first] && p.tail == line[second + 1..];
  }

  lemma PartsOfLine(line: string)
    requires Cuttable(line)
    ensures Spaced(PartsOf(line)) && PartsText(PartsOf(line)) == line
  {
    PartsBack(line);
    var first := IndexOf(line, ' ', 0);
    var n := first + 1;
    var second, mark := IndexOf(line, ' ', n), IndexOf(line, '?', n);
    SliceLacks(line, ' ', 0, 0, first);
    if mark < second {
      SliceLacks(line, ' ', n, n, mark);
      SliceLacks(line, '?', n, n, mark);
      SliceLacks(line, ' ', n, mark + 1, second);
    } else {
      SliceLacks(line, ' ', n, n, second);
      SliceLacks(line, '?', n, n, second);
    }
  }

  lemma LatePosition(p: Parts)
    requires Spaced(p) && LateMark(p)
    ensures var line, n := PartsText(p), |p.name| + 1; IndexOf(line, ' ', n) < IndexOf(line, '?', n) < |line|
  {
    SecondSpace(p);
    var line, n := PartsText(p), |p.name| + 1;
    var second := n + |p.path|;
    var k :| 0 <= k < |p.tail| && p.tail[k] == '?';
    assert line[second + 1 + k] == '?';
    IndexOfMeaning(line, '?', n);
    assert line[n..second] == p.path;
    MarkAfter(line, n, second);
  }

  lemma LateMarkThrows(req: Request, p: Parts)
    requires Spaced(p) && LateMark(p) && LookupMethod(p.name).Some?
    ensures TakeRequestLine(req, PartsText(p)).verdict == Throws
  {
    FirstSpace(p);
    LatePosition(p);
    LateTarget(req.(verb := LookupMethod(p.name)), PartsText(p), |p.name|);
  }

  lemma MarkAfter(line: string, n: nat, second: nat)
    requires n <= second < |line| && '?' !in line[n..second] && line[second] == ' '
    ensures second < IndexOf(line, '?', n)
  {
    assert forall j | n <= j < second :: line[n..second][j - n] == line[j];
  }

  /** The length of such a query is negative. */
  lemma LateTarget(req: Request, line: string, first: nat)
    requires first < |line| && IndexOf(line, ' ', first + 1) < IndexOf(line, '?', first + 1) < |line|
    ensures TakeTarget(req, line, first).verdict == Throws
  {}

  lemma NoMethodRefused(req: Request, p: Parts)
    requires Spaced(p)
    ensures LookupMethod(p.name).None? ==> TakeRequestLine(req, PartsText(p)).verdict == BadRequest
  {
    FirstSpace(p);
  }

  /** What a query string is worth. */
  function QueryVerdict(raw: string): Verdict {
    if Decoded(raw).None? then Throws else PiecesVerdict(Pieces(raw))
  }

  /** What a request line is worth, by its parts alone. */
  function PartsVerdict(p: Parts): Verdict {
    if LookupMethod(p.name).None? then BadRequest
    else if LateMark(p) || Decoded(p.path).None? then Throws
    else if p.query.Some? && QueryVerdict(p.query.value) != Good then QueryVerdict(p.query.value)
    else if VersionOf(PartsText(p)) == Unknown then BadRequest
    else Good
  }

  lemma TakePartsVerdict(req: Request, p: Parts)
    requires !LateMark(p)
    ensures TakeParts(req, p).verdict == PartsVerdict(p)
  {
    if p.query.Some? {
      AddPiecesVerdict(req.params, Pieces(p.query.value));
    }
  }

  lemma SpacedVerdict(req: Request, p: Parts)
    requires Spaced(p)
    ensures TakeRequestLine(req, PartsText(p)).verdict == PartsVerdict(p)
  {
    if LookupMethod(p.name).None? {
      NoMethodRefused(req, p);
    } else if LateMark(p) {
      LateMarkThrows(req, p);
    } else {
      LineOfParts(req, p);
      TakePartsVerdict(req, p);
    }
  }

  lemma UnspacedRefused(req: Request, line: string)
    requires !Cuttable(line)
    ensures TakeRequestLine(req, line).verdict == BadRequest
  {}

  /**
   * Every request line is accepted, refused or thrown on for a reason in its text: a line without two spaces is
   * refused, any other can be cut into parts at them, and then the parts decide, whatever came before.
   */
  lemma RequestLineVerdict(req: Request, line: string)
    ensures !TwoSpaces(line) ==> TakeRequestLine(req, line).verdict == BadRequest
    ensures TwoSpaces(line) <==> exists p :: Spaced(p) && PartsText(p) == line
    ensures forall p | Spaced(p) && PartsText(p) == line :: TakeRequestLine(req, line).verdict == PartsVerdict(p)
  {
    CuttableIff(line);
    if Cuttable(line) {
      PartsOfLine(line);
    } else {
      UnspacedRefused(req, line);
    }
    forall p | Spaced(p) && PartsText(p) == line
      ensures Cuttable(line) && TakeRequestLine(req, line).verdict == PartsVerdict(p)
    {
      FirstSpace(p);
      SecondSpace(p);
      SpacedVerdict(req, p);
    }
  }
}
