/** FastCGI framing: the request the server writes, decoded by a decoder written from the FastCGI
    Specification 1.0, and the response it reads back. */
module FastCgi {
  import opened Options
  import opened Sequences

  type byte = x: int | 0 <= x < 256

  const BEGIN_REQUEST: byte := 1
  const END_REQUEST: byte := 3
  const PARAMS: byte := 4
  const STDIN: byte := 5
  const STDOUT: byte := 6
  const STDERR: byte := 7

  const RESPONDER := 1

  /** The size of the buffer in which a name-value pair is built. */
  const BUFSIZE := 8192

  // ---------------------------------------------------------------- bytes

  /** A 16-bit number in network order. */
  function Word(hi: byte, lo: byte): (w: nat)
    ensures w < 0x1_0000
  {
    (hi as int) * 256 + lo as int
  }

  /** x | 0x80. */
  function Or80(x: byte): byte {
    if x < 128 then x + 128 else x
  }

  /** A record, by section 3.3 of the FastCGI Specification 1.0. */
  datatype Record = Record(kind: byte, id: nat, content: seq<byte>, padding: nat)

  /** A record header as the server writes it; only the low 16 bits of the id and of the length are written. */
  function Header(kind: byte, id: int, length: nat): (h: seq<byte>)
    ensures |h| == 8
  {
    [1, kind, (id / 256) % 256, id % 256, (length / 256) % 256, length % 256, 0, 0]
  }

  /** An unpadded record. */
  function Wire(r: Record): (b: seq<byte>)
    ensures |b| == 8 + |r.content|
  {
    Header(r.kind, r.id, |r.content|) + r.content
  }

  function WireAll(rs: seq<Record>): seq<byte> {
    if rs == [] then [] else Wire(rs[0]) + WireAll(rs[1..])
  }

  lemma {:induction false} WireAllAppend(rs: seq<Record>, ts: seq<Record>)
    ensures WireAll(rs + ts) == WireAll(rs) + WireAll(ts)
  {
    if rs == [] {
      assert rs + ts == ts;
    } else {
      WireAllAppend(rs[1..], ts);
      assert (rs + ts)[1..] == rs[1..] + ts && (rs + ts)[0] == rs[0];
      Assoc(Wire(rs[0]), WireAll(rs[1..]), WireAll(ts));
    }
  }

  lemma WireOne(r: Record)
    ensures WireAll([r]) == Wire(r)
  {}

  // ---------------------------------------------------------------- what the server writes

  /** A length: one byte if it is below 128, otherwise four with the top bit set. */
  function LengthBytes(n: nat): (b: seq<byte>)
    ensures |b| == if n < 128 then 1 else 4
  {
    if n < 128 then [n]
    else [Or80((n / 0x100_0000) % 256), (n / 0x1_0000) % 256, (n / 0x100) % 256, n % 256]
  }

  datatype Pair = Pair(name: seq<byte>, value: seq<byte>)

  function PairBytes(p: Pair): seq<byte> {
    LengthBytes(|p.name|) + LengthBytes(|p.value|) + p.name + p.value
  }

  function BeginRecord(id: nat): Record {
    Record(BEGIN_REQUEST, id, [0, RESPONDER, 0, 0, 0, 0, 0, 0], 0)
  }

  function ParamRecord(id: nat, p: Pair): Record {
    Record(PARAMS, id, PairBytes(p), 0)
  }

  function ParamRecords(id: nat, ps: seq<Pair>): (rs: seq<Record>)
    ensures |rs| == |ps|
  {
    seq(|ps|, i requires 0 <= i < |ps| => ParamRecord(id, ps[i]))
  }

  /** The empty record that ends a stream. */
  function EndOf(kind: byte, id: nat): Record {
    Record(kind, id, [], 0)
  }

  function HeadRecords(id: nat, ps: seq<Pair>): seq<Record> {
    [BeginRecord(id)] + ParamRecords(id, ps) + [EndOf(PARAMS, id)]
  }

  function BodyRecords(id: nat, body: seq<byte>): seq<Record> {
    [Record(STDIN, id, body, 0), EndOf(STDIN, id)]
  }

  /** Everything that is written for one request. */
  function RequestBytes(id: nat, ps: seq<Pair>, body: Option<seq<byte>>): seq<byte> {
    WireAll(HeadRecords(id, ps)) + if body.Some? then WireAll(BodyRecords(id, body.value)) else []
  }

  lemma HeaderId(kind: byte, id: int, length: nat)
    ensures Header(kind, id, length) == Header(kind, id % 0x1_0000, length)
  {
    var q, r := id / 0x1_0000, id % 0x1_0000;
    assert id == q * 0x1_0000 + r;
    assert id / 256 == q * 256 + r / 256;
    assert (id / 256) % 256 == (r / 256) % 256 && id % 256 == r % 256;
  }

  /** The connection: bytes waiting to be written, and bytes written to the application. */
  class FcgiConnection {
    var requestId: int
    var output: seq<byte>
    var wire: seq<byte>

    constructor (requestId: int)
      ensures this.requestId == requestId && output == [] && wire == []
    {
      this.requestId, output, wire := requestId, [], [];
    }

    /** The id that goes on the wire. */
    ghost function Id(): nat
      reads `requestId
    {
      requestId % 0x1_0000
    }

    method SendBeginRequest()
      modifies `output
      ensures output == old(output) + Wire(BeginRecord(Id()))
    {
      HeaderId(BEGIN_REQUEST, requestId, 8);
      output := output + (Header(BEGIN_REQUEST, requestId, 8) + [0, RESPONDER, 0, 0, 0, 0, 0, 0]);
    }

    /** Builds the body of a name-value record in buf, which must be large enough: the source does not check. */
    static method MakeValueBody(key: seq<byte>, value: seq<byte>, buf: array<byte>) returns (len: nat)
      requires |PairBytes(Pair(key, value))| <= buf.Length
      modifies buf
      ensures len == |PairBytes(Pair(key, value))| && buf[..len] == PairBytes(Pair(key, value))
    {
      len := PutLength(|key|, buf, 0);
      len := PutLength(|value|, buf, len);
      len := CopyInto(key, buf, len);
      len := CopyInto(value, buf, len);
    }

    static method PutLength(n: nat, buf: array<byte>, at: nat) returns (end: nat)
      requires at + |LengthBytes(n)| <= buf.Length
      modifies buf
      ensures end == at + |LengthBytes(n)| && buf[..end] == old(buf[..at]) + LengthBytes(n)
    {
      end := at;
      if n < 128 {
        buf[end] := n;
        end := end + 1;
      } else {
        buf[end] := Or80((n / 0x100_0000) % 256);
        end := end + 1;
        buf[end] := (n / 0x1_0000) % 256;
        end := end + 1;
        buf[end] := (n / 0x100) % 256;
        end := end + 1;
        buf[end] := n % 256;
        end := end + 1;
      }
    }

    /** Appends s to the part of buf that is already written. */
    static method CopyInto(s: seq<byte>, buf: array<byte>, at: nat) returns (end: nat)
      requires at + |s| <= buf.Length
      modifies buf
      ensures end == at + |s| && buf[..end] == old(buf[..at]) + s
    {
      end := at;
      for i := 0 to |s|
        invariant end == at + i && buf[..end] == old(buf[..at]) + s[..i]
      {
        buf[end] := s[i];
        end := end + 1;
      }
    }

    method SendParams(key: seq<byte>, value: seq<byte>)
      requires |PairBytes(Pair(key, value))| <= BUFSIZE
      modifies `output
      ensures output == old(output) + Wire(ParamRecord(Id(), Pair(key, value)))
    {
      var buf := new byte[BUFSIZE](_ => 0);
      var len := MakeValueBody(key, value, buf);
      HeaderId(PARAMS, requestId, len);
      output := output + Header(PARAMS, requestId, len);
      output := output + buf[..len];
    }

    method SendEndRequest()
      modifies `output, `wire
      ensures wire == old(wire) + old(output) + Wire(EndOf(PARAMS, Id())) && output == []
    {
      HeaderId(PARAMS, requestId, 0);
      output := output + Header(PARAMS, requestId, 0);
      wire := wire + output;
      output := [];
    }

    method SendContentHeader(content: seq<byte>)
      modifies `output, `wire
      ensures wire == old(wire) + old(output) + (Wire(Record(STDIN, Id(), content, 0)) + Wire(EndOf(STDIN, Id())))
      ensures output == []
    {
      HeaderId(STDIN, requestId, |content|);
      HeaderId(STDIN, requestId, 0);
      output := output + Header(STDIN, requestId, |content|);
      output := output + content;
      output := output + Header(STDIN, requestId, 0);
      wire := wire + output;
      output := [];
    }

    /** The calls that write the parameters, one record for each pair. */
    method SendAllParams(ps: seq<Pair>)
      requires forall p | p in ps :: |PairBytes(p)| <= BUFSIZE
      modifies `output
      ensures output == old(output) + WireAll(ParamRecords(Id(), ps))
    {
      ghost var sent: seq<byte> := [];
      for i := 0 to |ps|
        invariant sent == WireAll(ParamRecords(Id(), ps[..i])) && output == old(output) + sent
      {
        ParamsPrefix(Id(), ps, i);
        Assoc(old(output), sent, Wire(ParamRecord(Id(), ps[i])));
        SendParams(ps[i].name, ps[i].value);
        sent := sent + Wire(ParamRecord(Id(), ps[i]));
      }
      assert ps[..|ps|] == ps;
    }

    method SendHead(ps: seq<Pair>)
      requires output == [] && forall p | p in ps :: |PairBytes(p)| <= BUFSIZE
      modifies `output, `wire
      ensures wire == old(wire) + WireAll(HeadRecords(Id(), ps)) && output == []
    {
      ghost var begin, params, end := Wire(BeginRecord(Id())), WireAll(ParamRecords(Id(), ps)), Wire(EndOf(PARAMS, Id()));
      SendBeginRequest();
      assert output == begin;
      SendAllParams(ps);
      SendEndRequest();
      Assoc(old(wire), begin + params, end);
      HeadBytes(Id(), ps);
    }

    /** The calls the server makes for one request. */
    method SendRequest(ps: seq<Pair>, body: Option<seq<byte>>)
      requires output == [] && forall p | p in ps :: |PairBytes(p)| <= BUFSIZE
      modifies `output, `wire
      ensures wire == old(wire) + RequestBytes(Id(), ps, body) && output == []
    {
      SendHead(ps);
      ghost var head := WireAll(HeadRecords(Id(), ps));
      if body.Some? {
        SendContentHeader(body.value);
        WireTwo(Record(STDIN, Id(), body.value, 0), EndOf(STDIN, Id()));
        Assoc(old(wire), head, WireAll(BodyRecords(Id(), body.value)));
      } else {
        Assoc(old(wire), head, []);
      }
    }
  }

  lemma ParamsPrefix(id: nat, ps: seq<Pair>, i: nat)
    requires i < |ps|
    ensures WireAll(ParamRecords(id, ps[..i + 1])) == WireAll(ParamRecords(id, ps[..i])) + Wire(ParamRecord(id, ps[i]))
  {
    WireSnoc(ParamRecords(id, ps[..i]), ParamRecord(id, ps[i]));
    assert ParamRecords(id, ps[..i + 1]) == ParamRecords(id, ps[..i]) + [ParamRecord(id, ps[i])];
  }

  lemma HeadBytes(id: nat, ps: seq<Pair>)
    ensures WireAll(HeadRecords(id, ps))
         == Wire(BeginRecord(id)) + WireAll(ParamRecords(id, ps)) + Wire(EndOf(PARAMS, id))
  {
    WireSnoc([BeginRecord(id)] + ParamRecords(id, ps), EndOf(PARAMS, id));
    WireAllAppend([BeginRecord(id)], ParamRecords(id, ps));
    WireOne(BeginRecord(id));
  }

  lemma WireSnoc(rs: seq<Record>, r: Record)
    ensures WireAll(rs + [r]) == WireAll(rs) + Wire(r)
  {
    WireAllAppend(rs, [r]);
    WireOne(r);
  }

  lemma WireTwo(r: Record, t: Record)
    ensures WireAll([r, t]) == Wire(r) + Wire(t)
  {
    assert [r, t] == [r] + [t];
    WireSnoc([r], t);
    WireOne(r);
  }

  // ---------------------------------------------------------------- a decoder from the specification

  /** Section 3.3: reads one record off the front. */
  function DecodeRecord(b: seq<byte>): Option<(Record, seq<byte>)> {
    if |b| < 8 || b[0] != 1 then None
    else
      var n, pad := Word(b[4], b[5]), b[6] as int;
      if |b| < 8 + n + pad then None
      else Some((Record(b[1], Word(b[2], b[3]), b[8..8 + n], pad), b[8 + n + pad..]))
  }

  function DecodeRecords(b: seq<byte>): Option<seq<Record>> {
    if b == [] then Some([])
    else match DecodeRecord(b)
      case None => None
      case Some((r, rest)) =>
        if |rest| < |b| then Prepend(r, DecodeRecords(rest)) else None
  }

  function Prepend<T>(x: T, o: Option<seq<T>>): Option<seq<T>> {
    if o.None? then None else Some([x] + o.value)
  }

  /** Section 3.3: a stream is a run of non-empty records of one kind, ended by an empty one. */
  function TakeStream(rs: seq<Record>, kind: byte, id: nat): Option<(seq<byte>, seq<Record>)> {
    if rs == [] || rs[0].kind != kind || rs[0].id != id then None
    else if rs[0].content == [] then Some(([], rs[1..]))
    else match TakeStream(rs[1..], kind, id)
      case None => None
      case Some((content, rest)) => Some((rs[0].content + content, rest))
  }

  /** Section 3.4: a length of one or four bytes. */
  function DecodeLength(b: seq<byte>): Option<(nat, seq<byte>)> {
    if |b| >= 1 && b[0] < 128 then Some((b[0], b[1..]))
    else if |b| >= 4 then Some((Word(b[0] - 128, b[1]) * 0x1_0000 + Word(b[2], b[3]), b[4..]))
    else None
  }

  /** Section 3.4: name length, value length, name, value. */
  function DecodePair(b: seq<byte>): Option<(Pair, seq<byte>)> {
    match DecodeLength(b)
    case None => None
    case Some((n, b1)) =>
      match DecodeLength(b1)
      case None => None
      case Some((v, b2)) =>
        if |b2| < n + v then None else Some((Pair(b2[..n], b2[n..n + v]), b2[n + v..]))
  }

  function DecodePairs(b: seq<byte>): Option<seq<Pair>> {
    if b == [] then Some([])
    else match DecodePair(b)
      case None => None
      case Some((p, rest)) =>
        if |rest| < |b| then Prepend(p, DecodePairs(rest)) else None
  }

  datatype Request = Request(id: nat, role: nat, flags: byte, params: seq<Pair>, body: Option<seq<byte>>)

  /** Sections 5.1 to 5.3, with the type numbers of section 8 of the FastCGI Specification 1.0: BEGIN_REQUEST is 1, then
      comes the PARAMS stream, 4, and then the STDIN stream, 5, if one is sent. */
  function Interpret(rs: seq<Record>): Option<Request> {
    if rs == [] || rs[0].kind != 1 || |rs[0].content| != 8 then None
    else
      var begin := rs[0];
      match TakeStream(rs[1..], 4, begin.id)
      case None => None
      case Some((params, rest)) =>
        match DecodePairs(params)
        case None => None
        case Some(ps) =>
          InterpretBody(Request(begin.id, Word(begin.content[0], begin.content[1]), begin.content[2], ps, None), rest)
  }

  function InterpretBody(req: Request, rest: seq<Record>): Option<Request> {
    if rest == [] then Some(req)
    else match TakeStream(rest, 5, req.id)
      case None => None
      case Some((body, rest')) => if rest' == [] then Some(req.(body := Some(body))) else None
  }

  function DecodeRequest(b: seq<byte>): Option<Request> {
    var o := DecodeRecords(b);
    if o.None? then None else Interpret(o.value)
  }

  // ---------------------------------------------------------------- lengths and pairs

  lemma Digits(n: nat)
    ensures n == (n / 0x100_0000) * 0x100_0000 + (n / 0x1_0000) % 256 * 0x1_0000 + (n / 0x100) % 256 * 0x100 + n % 256
  {
    var a := n / 0x100;
    var b := n / 0x1_0000;
    assert n == a * 0x100 + n % 256;
    assert b == a / 256 && a == b * 256 + a % 256;
    assert n / 0x100_0000 == b / 256 && b == b / 256 * 256 + b % 256;
  }

  /** The length coding is invertible exactly for the lengths below 2^31. */
  lemma LengthRoundTrip(n: nat, rest: seq<byte>)
    ensures DecodeLength(LengthBytes(n) + rest) == Some((n, rest)) <==> n < 0x8000_0000
  {
    var b := LengthBytes(n) + rest;
    if n < 128 {
      assert b[1..] == rest;
    } else {
      assert b[4..] == rest;
      Digits(n);
      var m := Word(b[0] - 128, b[1]) * 0x1_0000 + Word(b[2], b[3]);
      assert DecodeLength(b) == Some((m, rest));
      assert m < 0x8000_0000;
    }
  }

  lemma PairRoundTrip(p: Pair, rest: seq<byte>)
    requires |p.name| < 0x8000_0000 && |p.value| < 0x8000_0000
    ensures DecodePair(PairBytes(p) + rest) == Some((p, rest))
  {
    var n, v := LengthBytes(|p.name|), LengthBytes(|p.value|);
    var data := p.name + p.value + rest;
    assert PairBytes(p) + rest == n + (v + data);
    LengthRoundTrip(|p.name|, v + data);
    LengthRoundTrip(|p.value|, data);
    assert data[..|p.name|] == p.name && data[|p.name|..|p.name| + |p.value|] == p.value;
    assert data[|p.name| + |p.value|..] == rest;
  }

  function Stream(ps: seq<Pair>): seq<byte> {
    if ps == [] then [] else PairBytes(ps[0]) + Stream(ps[1..])
  }

  /** Every pair fits the buffer it is built in. */
  ghost predicate Fit(ps: seq<Pair>) {
    forall p | p in ps :: |PairBytes(p)| <= BUFSIZE
  }

  lemma {:induction false} StreamToPairs(ps: seq<Pair>)
    requires Fit(ps)
    ensures DecodePairs(Stream(ps)) == Some(ps)
  {
    if ps == [] {
    } else {
      assert ps[0] in ps;
      PairRoundTrip(ps[0], Stream(ps[1..]));
      StreamToPairs(ps[1..]);
      assert ps == [ps[0]] + ps[1..];
    }
  }

  // ---------------------------------------------------------------- records

  /** A record that a header can describe. */
  ghost predicate Framed(r: Record) {
    r.id < 0x1_0000 && |r.content| < 0x1_0000 && r.padding == 0
  }

  lemma RecordRoundTrip(r: Record, rest: seq<byte>)
    requires Framed(r)
    ensures DecodeRecord(Wire(r) + rest) == Some((r, rest))
  {
    var head, n := Header(r.kind, r.id, |r.content|), |r.content|;
    var b := head + r.content + rest;
    CutTwice(head, r.content, rest);
    CutFront(r.content, rest);
    assert forall k | 0 <= k < 8 :: b[k] == b[..8][k];
    assert b[8..8 + n] == b[8..][..n];
    WordOf(r.id);
    WordOf(n);
  }

  function Append<T>(xs: seq<T>, o: Option<seq<T>>): Option<seq<T>> {
    if o.None? then None else Some(xs + o.value)
  }

  lemma PrependAppend<T>(xs: seq<T>, o: Option<seq<T>>)
    ensures xs == [] ==> Append(xs, o) == o
    ensures xs != [] ==> Append(xs, o) == Prepend(xs[0], Append(xs[1..], o))
  {
    if o.Some? {
      if xs == [] {
        assert xs + o.value == o.value;
      } else {
        assert xs + o.value == [xs[0]] + (xs[1..] + o.value);
      }
    }
  }

  /** Framed records followed by anything decode to themselves followed by what that decodes to. */
  lemma {:induction false} RecordsRoundTrip(rs: seq<Record>, rest: seq<byte>)
    requires forall r | r in rs :: Framed(r)
    ensures DecodeRecords(WireAll(rs) + rest) == Append(rs, DecodeRecords(rest))
  {
    PrependAppend(rs, DecodeRecords(rest));
    if rs == [] {
      assert WireAll(rs) + rest == rest;
    } else {
      RecordsRoundTrip(rs[1..], rest);
      DecodeCons(rs[0], WireAll(rs[1..]) + rest);
      Assoc(Wire(rs[0]), WireAll(rs[1..]), rest);
    }
  }

  lemma DecodeCons(r: Record, tail: seq<byte>)
    requires Framed(r)
    ensures DecodeRecords(Wire(r) + tail) == Prepend(r, DecodeRecords(tail))
  {
    RecordRoundTrip(r, tail);
  }

  lemma {:induction false} ParamsStream(id: nat, ps: seq<Pair>, rest: seq<Record>)
    ensures TakeStream(ParamRecords(id, ps) + ([EndOf(PARAMS, id)] + rest), PARAMS, id) == Some((Stream(ps), rest))
  {
    var tail := [EndOf(PARAMS, id)] + rest;
    var rs := ParamRecords(id, ps) + tail;
    if ps == [] {
      assert rs == tail && tail[1..] == rest;
    } else {
      assert rs[1..] == ParamRecords(id, ps[1..]) + tail;
      ParamsStream(id, ps[1..], rest);
    }
  }

  lemma HeadInterpreted(id: nat, ps: seq<Pair>, rest: seq<Record>)
    requires Fit(ps)
    ensures Interpret(HeadRecords(id, ps) + rest) == InterpretBody(Request(id, 1, 0, ps, None), rest)
  {
    HeadSplit(BeginRecord(id), ParamRecords(id, ps), EndOf(PARAMS, id), rest);
    ParamsStream(id, ps, rest);
    StreamToPairs(ps);
    InterpretStep(HeadRecords(id, ps) + rest, id, ps, rest);
  }

  lemma InterpretStep(rs: seq<Record>, id: nat, ps: seq<Pair>, rest: seq<Record>)
    requires rs != [] && rs[0] == BeginRecord(id)
    requires TakeStream(rs[1..], PARAMS, id) == Some((Stream(ps), rest)) && DecodePairs(Stream(ps)) == Some(ps)
    ensures Interpret(rs) == InterpretBody(Request(id, 1, 0, ps, None), rest)
  {}

  lemma HeadSplit<T>(b: T, ps: seq<T>, e: T, rest: seq<T>)
    ensures var rs := [b] + ps + [e] + rest; rs[0] == b && rs[1..] == ps + ([e] + rest)
  {}

  lemma HeadRoundTrip(id: nat, ps: seq<Pair>, tail: seq<byte>)
    requires Fit(ps) && id < 0x1_0000
    ensures var o := DecodeRecords(tail);
            DecodeRequest(WireAll(HeadRecords(id, ps)) + tail)
            == if o.None? then None else InterpretBody(Request(id, 1, 0, ps, None), o.value)
  {
    forall r | r in HeadRecords(id, ps) ensures Framed(r) {
      if r != BeginRecord(id) && r != EndOf(PARAMS, id) {
        var i :| 0 <= i < |ps| && r == ParamRecord(id, ps[i]);
        assert ps[i] in ps;
      }
    }
    RecordsRoundTrip(HeadRecords(id, ps), tail);
    if DecodeRecords(tail).Some? {
      HeadInterpreted(id, ps, DecodeRecords(tail).value);
    }
  }

  /** A request without a body is recovered exactly, for any pairs that fit the buffer. */
  lemma RequestRoundTrip(id: nat, ps: seq<Pair>)
    requires Fit(ps) && id < 0x1_0000
    ensures DecodeRequest(RequestBytes(id, ps, None)) == Some(Request(id, 1, 0, ps, None))
  {
    HeadRoundTrip(id, ps, []);
  }

  /** The bytes that records take on the wire. */
  function Weight(rs: seq<Record>): nat {
    if rs == [] then 0 else 8 + |rs[0].content| + rs[0].padding + Weight(rs[1..])
  }

  lemma {:induction false} DecodedWeight(b: seq<byte>)
    requires DecodeRecords(b).Some?
    ensures Weight(DecodeRecords(b).value) == |b|
    ensures forall r | r in DecodeRecords(b).value :: |r.content| < 0x1_0000
    decreases |b|
  {
    if b == [] {
    } else {
      var (r, rest) := DecodeRecord(b).value;
      DecodedWeight(rest);
      assert DecodeRecords(b).value[1..] == DecodeRecords(rest).value;
    }
  }

  /** A stream costs a header for every record, the empty one included; a long one needs several. */
  lemma {:induction false} StreamWeight(rs: seq<Record>, kind: byte, id: nat)
    requires forall r | r in rs :: |r.content| < 0x1_0000
    requires TakeStream(rs, kind, id).Some? && TakeStream(rs, kind, id).value.1 == []
    ensures var n := |TakeStream(rs, kind, id).value.0|;
            Weight(rs) >= n + 8 + (if n > 0 then 8 else 0) + (if n >= 0x1_0000 then 8 else 0)
  {
    assert rs[0] in rs;
    if rs[0].content == [] {
    } else {
      StreamWeight(rs[1..], kind, id);
    }
  }

  /** A body is recovered exactly if and only if it has between 1 and 65535 bytes: a longer one does not fit the
      length field of its only record, and an empty one is followed by a second end of stream. */
  lemma BodyRoundTripIff(id: nat, ps: seq<Pair>, body: seq<byte>)
    requires Fit(ps) && id < 0x1_0000
    ensures DecodeRequest(RequestBytes(id, ps, Some(body))) == Some(Request(id, 1, 0, ps, Some(body)))
            <==> 1 <= |body| <= 0xffff
  {
    var req := Request(id, 1, 0, ps, None);
    var b := WireAll(BodyRecords(id, body));
    HeadRoundTrip(id, ps, b);
    if |body| <= 0xffff {
      ShortBody(req, body);
    } else {
      LongBody(req, body);
    }
  }

  lemma ShortBody(req: Request, body: seq<byte>)
    requires |body| <= 0xffff && req.id < 0x1_0000
    ensures DecodeRecords(WireAll(BodyRecords(req.id, body))) == Some(BodyRecords(req.id, body))
    ensures InterpretBody(req, BodyRecords(req.id, body)) == if body == [] then None else Some(req.(body := Some(body)))
  {
    var rs := BodyRecords(req.id, body);
    assert WireAll(rs) + [] == WireAll(rs) && rs + [] == rs;
    RecordsRoundTrip(rs, []);
    assert rs[1..] == [EndOf(STDIN, req.id)] && rs[1..][1..] == [];
    assert TakeStream(rs[1..], STDIN, req.id) == Some(([], []));
    assert body + [] == body;
  }

  lemma LongBody(req: Request, body: seq<byte>)
    requires |body| > 0xffff
    ensures var o := DecodeRecords(WireAll(BodyRecords(req.id, body)));
            o.Some? ==> InterpretBody(req, o.value) != Some(req.(body := Some(body)))
  {
    var b := WireAll(BodyRecords(req.id, body));
    WireTwo(Record(STDIN, req.id, body, 0), EndOf(STDIN, req.id));
    assert |b| == |body| + 16;
    var o := DecodeRecords(b);
    if o.Some? && InterpretBody(req, o.value) == Some(req.(body := Some(body))) {
      DecodedWeight(b);
      if o.value != [] {
        StreamWeight(o.value, STDIN, req.id);
      }
    }
  }

  // ---------------------------------------------------------------- what the server reads

  /** A record of the response, with its version byte and padding bytes. */
  datatype Reply = Reply(version: byte, kind: byte, id: nat, content: seq<byte>, padding: seq<byte>, reserved: byte)

  /** A header as the reader keeps it. */
  type HeaderBytes = h: seq<byte> | |h| == 8 witness [0, 0, 0, 0, 0, 0, 0, 0]

  function ReplyHeader(r: Reply): HeaderBytes {
    [r.version, r.kind, (r.id / 256) % 256, r.id % 256, (|r.content| / 256) % 256, |r.content| % 256,
     |r.padding| % 256, r.reserved]
  }

  function ReplyBytes(r: Reply): seq<byte> {
    ReplyHeader(r) + (r.content + r.padding)
  }

  function RepliesBytes(rs: seq<Reply>): seq<byte> {
    if rs == [] then [] else ReplyBytes(rs[0]) + RepliesBytes(rs[1..])
  }

  /** The result of reading a response: its STDOUT content, or an overrun of the 8-byte padding buffer. */
  datatype ReadResult = Done(content: seq<byte>) | Overrun

  /** A read of n bytes from a connection that holds `input` and is then closed. */
  function Got(input: seq<byte>, n: nat): (g: nat)
    ensures g <= n && g <= |input|
  {
    if n <= |input| then n else |input|
  }

  predicate ReadsOutput(kind: byte) {
    kind == STDOUT || kind == STDERR
  }

  /** The bytes a record takes after its header, as the reader skips them: an END_REQUEST body is always taken to
      be 8 bytes and a record of another kind to be empty. */
  function Skipped(h: HeaderBytes): nat {
    if ReadsOutput(h[1]) then Word(h[4], h[5]) + h[6] as int
    else if h[1] == END_REQUEST then 8
    else 0
  }

  /** The header buffer after reading: a short read leaves its tail as it was. */
  function Refill(h: HeaderBytes, input: seq<byte>): HeaderBytes {
    input[..Got(input, 8)] + h[Got(input, 8)..]
  }

  /** The output kept of a record with header h and the input `rest` behind it. */
  function Output(h: HeaderBytes, rest: seq<byte>): seq<byte> {
    if h[1] == STDOUT then rest[..Got(rest, Word(h[4], h[5]))] else []
  }

  /** The bytes of padding that are really read: no more than are left behind the content. */
  function PaddingRead(h: HeaderBytes, rest: seq<byte>): nat {
    if ReadsOutput(h[1]) then Got(rest[Got(rest, Word(h[4], h[5]))..], h[6]) else 0
  }

  function LeftOver(h: HeaderBytes, rest: seq<byte>): seq<byte> {
    rest[Got(rest, Skipped(h))..]
  }

  /** What readContent reads, from a header buffer that still holds h. The padding buffer has 8 bytes, so it is overrun
      when more bytes than that are read into it, whatever the length byte announces. */
  function Deframe(h: HeaderBytes, input: seq<byte>): ReadResult
    decreases |input|
  {
    if input == [] then Done([])
    else
      var h' := Refill(h, input);
      var rest := input[Got(input, 8)..];
      if PaddingRead(h', rest) > 8 then Overrun else After(Output(h', rest), Deframe(h', LeftOver(h', rest)))
  }

  /** The reading end of the connection. */
  class Reader {
    var input: seq<byte>

    constructor (input: seq<byte>)
      ensures this.input == input
    {
      this.input := input;
    }

    /** A blocking read that returns everything asked for unless the peer has closed. */
    method Read(n: nat) returns (b: seq<byte>)
      modifies this
      ensures b == old(input)[..Got(old(input), n)] && input == old(input)[Got(old(input), n)..]
    {
      var g := Got(input, n);
      b, input := input[..g], input[g..];
    }

    /** What follows a header: content and padding of an output record, or the body of END_REQUEST. */
    method ReadRecord(header: HeaderBytes) returns (content: seq<byte>, overrun: bool)
      modifies this
      ensures content == Output(header, old(input)) && overrun == (PaddingRead(header, old(input)) > 8)
      ensures input == LeftOver(header, old(input))
    {
      content, overrun := [], false;
      if header[1] == STDOUT {
        content := Read(Word(header[4], header[5]));
        var padding := Read(header[6]);
        overrun := |padding| > 8;
      } else if header[1] == STDERR {
        var text := Read(Word(header[4], header[5]));
        var padding := Read(header[6]);
        overrun := |padding| > 8;
      } else if header[1] == END_REQUEST {
        var body := Read(8);
      }
    }

    /** Reads over the front of a header buffer; false at the end of the input. */
    method ReadHeader(h: HeaderBytes) returns (h': HeaderBytes, more: bool)
      modifies this
      ensures more == (old(input) != []) && h' == Refill(h, old(input)) && input == old(input)[Got(old(input), 8)..]
    {
      var got := Read(8);
      h', more := got + h[|got|..], |got| > 0;
    }

    /** The loop over records; the header buffer starts with whatever is on the stack. */
    method ReadContent(stack: HeaderBytes) returns (buf: seq<byte>, overrun: bool)
      modifies this
      ensures (if overrun then Overrun else Done(buf)) == Deframe(stack, old(input))
      ensures !overrun ==> input == []
    {
      var header := stack;
      buf, overrun := [], false;
      AfterNothing(Deframe(stack, input));
      while true
        invariant !overrun && Deframe(stack, old(input)) == After(buf, Deframe(header, input))
        decreases |input|
      {
        ghost var h, before := header, input;
        var more;
        header, more := ReadHeader(header);
        if !more {
          AfterDone(buf);
          break;
        }
        DeframeStep(h, before, header, input);
        var content;
        content, overrun := ReadRecord(header);
        if overrun {
          return;
        }
        AfterAfter(buf, content, Deframe(header, input));
        buf := buf + content;
      }
    }
  }

  lemma AfterDone(buf: seq<byte>)
    ensures After(buf, Done([])) == Done(buf)
  {
    assert buf + [] == buf;
  }

  function After(buf: seq<byte>, r: ReadResult): ReadResult {
    if r.Done? then Done(buf + r.content) else r
  }

  lemma AfterAfter(a: seq<byte>, b: seq<byte>, r: ReadResult)
    ensures After(a, After(b, r)) == After(a + b, r)
  {}

  // The application's side, with the type numbers of section 8 of the FastCGI Specification 1.0: END_REQUEST is 3,
  // STDOUT is 6 and STDERR is 7.

  predicate IsOutput(kind: byte) {
    kind == 6 || kind == 7
  }

  /** A record that a header can describe; the body of END_REQUEST has 8 bytes. */
  ghost predicate Sendable(r: Reply) {
    |r.content| < 0x1_0000 && |r.padding| < 256 && (r.kind == 3 ==> |r.content| == 8)
  }

  /** The bytes of a record that the reader does not skip: the padding of END_REQUEST, and all that follows the
      header of a record that is neither END_REQUEST nor output. */
  function Unread(r: Reply): seq<byte> {
    if IsOutput(r.kind) then [] else if r.kind == 3 then r.padding else r.content + r.padding
  }

  /** The records that the reader takes whole: output with any padding, END_REQUEST without padding, and bare
      headers of other kinds. */
  ghost predicate Expected(r: Reply) {
    Sendable(r) && Unread(r) == []
  }

  function Kept(r: Reply): seq<byte> {
    if r.kind == 6 then r.content else []
  }

  /** What the application printed. */
  function Printed(rs: seq<Reply>): seq<byte> {
    if rs == [] then [] else Kept(rs[0]) + Printed(rs[1..])
  }

  predicate Fits(r: Reply) {
    IsOutput(r.kind) ==> |r.padding| <= 8
  }

  lemma CutFront(a: seq<byte>, b: seq<byte>)
    ensures (a + b)[..|a|] == a && (a + b)[|a|..] == b
  {}

  /** One turn of the reading loop, from the header h' and the input behind it. */
  lemma DeframeStep(h: HeaderBytes, input: seq<byte>, h': HeaderBytes, rest: seq<byte>)
    requires input != [] && h' == Refill(h, input) && rest == input[Got(input, 8)..]
    ensures Deframe(h, input)
         == if PaddingRead(h', rest) > 8 then Overrun else After(Output(h', rest), Deframe(h', LeftOver(h', rest)))
  {}

  lemma CutTwice(a: seq<byte>, b: seq<byte>, c: seq<byte>)
    ensures (a + b + c)[..|a|] == a && (a + b + c)[|a|..] == b + c && (a + b + c)[|a| + |b|..] == c
  {}

  /** Input that holds the whole of a record: what is skipped is there, so the length byte is the padding read. */
  lemma WholeRecord(h: HeaderBytes, skipped: seq<byte>, left: seq<byte>)
    requires |skipped| == Skipped(h)
    ensures LeftOver(h, skipped + left) == left
    ensures PaddingRead(h, skipped + left) == if IsOutput(h[1]) then h[6] else 0
    ensures Output(h, skipped + left) == if h[1] == 6 then skipped[..Word(h[4], h[5])] else []
  {
    CutFront(skipped, left);
    if IsOutput(h[1]) {
      var n := Word(h[4], h[5]);
      assert skipped == skipped[..n] + skipped[n..];
      CutTwice(skipped[..n], skipped[n..], left);
    }
  }

  /** The same from a whole header, the bytes behind it split where the reader stops skipping. */
  lemma DeframeWhole(h: HeaderBytes, head: HeaderBytes, skipped: seq<byte>, left: seq<byte>)
    requires |skipped| == Skipped(head)
    ensures Deframe(h, head + (skipped + left)) ==
            if IsOutput(head[1]) && head[6] > 8 then Overrun
            else After(if head[1] == 6 then skipped[..Word(head[4], head[5])] else [], Deframe(head, left))
  {
    CutFront(head, skipped + left);
    DeframeStep(h, head + (skipped + left), head, skipped + left);
    WholeRecord(head, skipped, left);
  }

  /** The part of a record behind its header that the reader skips. */
  function Passed(r: Reply): seq<byte> {
    if IsOutput(r.kind) then r.content + r.padding else if r.kind == 3 then r.content else []
  }

  lemma ReplySplit(r: Reply, rest: seq<byte>)
    ensures ReplyBytes(r) + rest == ReplyHeader(r) + (Passed(r) + (Unread(r) + rest))
  {
    var head, c, p := ReplyHeader(r), r.content, r.padding;
    Assoc(head, c + p, rest);
    Assoc(c, p, rest);
    assert [] + (c + p + rest) == c + p + rest;
    assert c + p + ([] + rest) == c + p + rest;
  }

  lemma WordOf(n: nat)
    requires n < 0x1_0000
    ensures Word((n / 256) % 256, n % 256) == n
  {}

  lemma PassedIsSkipped(r: Reply)
    requires Sendable(r)
    ensures var head := ReplyHeader(r);
            && |Passed(r)| == Skipped(head) && Word(head[4], head[5]) == |r.content| && head[6] == |r.padding|
            && (r.kind == 6 ==> Passed(r)[..|r.content|] == r.content)
  {
    WordOf(|r.content|);
    CutFront(r.content, r.padding);
  }

  /** What a record does to the reader: its output is kept, and what is unread is taken for the next record. */
  lemma DeframeRecord(h: HeaderBytes, r: Reply, rest: seq<byte>)
    requires Sendable(r)
    ensures Deframe(h, ReplyBytes(r) + rest) ==
            if Fits(r) then After(Kept(r), Deframe(ReplyHeader(r), Unread(r) + rest)) else Overrun
  {
    ReplySplit(r, rest);
    PassedIsSkipped(r);
    DeframeWhole(h, ReplyHeader(r), Passed(r), Unread(r) + rest);
  }

  /** The header the reader holds after these records. */
  function HeaderAfter(h: HeaderBytes, rs: seq<Reply>): (h': HeaderBytes)
    decreases |rs|
  {
    if rs == [] then h else HeaderAfter(ReplyHeader(rs[0]), rs[1..])
  }

  /** Records taken whole, and then anything. */
  lemma {:induction false} DeframePrefix(h: HeaderBytes, rs: seq<Reply>, tail: seq<byte>)
    requires forall r | r in rs :: Expected(r)
    ensures Deframe(h, RepliesBytes(rs) + tail) ==
            if forall r | r in rs :: Fits(r) then After(Printed(rs), Deframe(HeaderAfter(h, rs), tail)) else Overrun
    decreases |rs|
  {
    if rs == [] {
      AfterNothing(Deframe(h, tail));
      assert [] + tail == tail;
    } else {
      var r, rest := rs[0], rs[1..];
      assert r in rs;
      assert [] + (RepliesBytes(rest) + tail) == RepliesBytes(rest) + tail;
      Assoc(ReplyBytes(r), RepliesBytes(rest), tail);
      DeframeRecord(h, r, RepliesBytes(rest) + tail);
      DeframePrefix(ReplyHeader(r), rest, tail);
      AfterAfter(Kept(r), Printed(rest), Deframe(HeaderAfter(h, rs), tail));
      assert forall x :: x in rs <==> x == r || x in rest;
    }
  }

  lemma AfterNothing(r: ReadResult)
    ensures After([], r) == r
  {
    if r.Done? {
      assert [] + r.content == r.content;
    }
  }

  /** De-framing: for every sequence of such records the reader consumes all input and returns exactly what was
      printed, if and only if no output is padded by more than 8 bytes; otherwise it overruns its padding buffer. */
  lemma DeframeExact(h: HeaderBytes, rs: seq<Reply>)
    requires forall r | r in rs :: Expected(r)
    ensures Deframe(h, RepliesBytes(rs)) == if forall r | r in rs :: Fits(r) then Done(Printed(rs)) else Overrun
  {
    DeframePrefix(h, rs, []);
    assert RepliesBytes(rs) + [] == RepliesBytes(rs);
    assert Printed(rs) + [] == Printed(rs);
  }

  // ---------------------------------------------------------------- a last record that is not taken whole

  /** A record as the reader sees it: the output it keeps and the padding it reads. */
  datatype Glimpse = Glimpse(output: seq<byte>, padding: nat)

  /** The records the reader sees in some bytes, right or wrong. */
  function Glimpses(h: HeaderBytes, input: seq<byte>): seq<Glimpse>
    decreases |input|
  {
    if input == [] then [] else
    var h' := Refill(h, input);
    var rest := input[Got(input, 8)..];
    [Glimpse(Output(h', rest), PaddingRead(h', rest))] + Glimpses(h', LeftOver(h', rest))
  }

  /** A record that overruns the padding buffer or adds to the output. */
  predicate Loud(g: Glimpse) {
    g.padding > 8 || g.output != []
  }

  predicate Silent(h: HeaderBytes, input: seq<byte>) {
    forall g | g in Glimpses(h, input) :: !Loud(g)
  }

  /** Bytes leave the output alone exactly when no record seen in them is loud. */
  lemma {:induction false} SilentIff(h: HeaderBytes, input: seq<byte>)
    ensures Deframe(h, input) == Done([]) <==> Silent(h, input)
    decreases |input|
  {
    if input == [] {
      assert Glimpses(h, input) == [];
    } else {
      var h' := Refill(h, input);
      var rest := input[Got(input, 8)..];
      var g, left := Glimpse(Output(h', rest), PaddingRead(h', rest)), LeftOver(h', rest);
      DeframeStep(h, input, h', rest);
      SilentIff(h', left);
      assert Glimpses(h, input) == [g] + Glimpses(h', left);
      assert g in Glimpses(h, input);
      assert forall x :: x in Glimpses(h, input) <==> x == g || x in Glimpses(h', left);
    }
  }

  lemma {:induction false} RepliesSnoc(rs: seq<Reply>, r: Reply)
    ensures RepliesBytes(rs + [r]) == RepliesBytes(rs) + ReplyBytes(r)
    ensures Printed(rs + [r]) == Printed(rs) + Kept(r)
    decreases |rs|
  {
    if rs == [] {
      assert [r][1..] == [] && [] + [r] == [r];
      assert ReplyBytes(r) + [] == ReplyBytes(r) == [] + ReplyBytes(r);
      assert Kept(r) + [] == Kept(r) == [] + Kept(r);
    } else {
      RepliesSnoc(rs[1..], r);
      assert (rs + [r])[1..] == rs[1..] + [r];
      Assoc(ReplyBytes(rs[0]), RepliesBytes(rs[1..]), ReplyBytes(r));
      Assoc(Kept(rs[0]), Printed(rs[1..]), Kept(r));
    }
  }

  /** A response closed by any record that is not output: what the reader does not skip of it decides. */
  lemma LastRead(h: HeaderBytes, rs: seq<Reply>, last: Reply)
    requires (forall r | r in rs :: Expected(r)) && Sendable(last) && !IsOutput(last.kind)
    ensures Deframe(h, RepliesBytes(rs + [last])) ==
            if forall r | r in rs :: Fits(r) then After(Printed(rs), Deframe(ReplyHeader(last), Unread(last)))
            else Overrun
    ensures Printed(rs + [last]) == Printed(rs)
  {
    RepliesSnoc(rs, last);
    assert Printed(rs) + [] == Printed(rs);
    DeframePrefix(h, rs, ReplyBytes(last));
    DeframeRecord(HeaderAfter(h, rs), last, []);
    assert ReplyBytes(last) + [] == ReplyBytes(last) && Unread(last) + [] == Unread(last);
    AfterNothing(Deframe(ReplyHeader(last), Unread(last)));
  }

  lemma AfterIs(a: seq<byte>, r: ReadResult)
    ensures After(a, r) == Done(a) <==> r == Done([])
  {
    assert a + [] == a;
    if r.Done? && a + r.content == a {
      assert |r.content| == 0;
    }
  }

  /** The reader returns exactly what was printed. */
  ghost predicate ReadRight(h: HeaderBytes, rs: seq<Reply>)
  {
    Deframe(h, RepliesBytes(rs)) == Done(Printed(rs))
  }

  /**
   * The exact condition for a response that ends in a padded END_REQUEST, or in another record the reader does not
   * take whole: its output comes back exactly when every output fits and the unread bytes of the last record are
   * silent.
   */
  lemma LastExact(h: HeaderBytes, rs: seq<Reply>, last: Reply)
    requires (forall r | r in rs :: Expected(r)) && Sendable(last) && !IsOutput(last.kind)
    ensures ReadRight(h, rs + [last]) <==>
            (forall r | r in rs :: Fits(r)) && Silent(ReplyHeader(last), Unread(last))
  {
    LastRead(h, rs, last);
    AfterIs(Printed(rs), Deframe(ReplyHeader(last), Unread(last)));
    SilentIff(ReplyHeader(last), Unread(last));
  }

  lemma NothingBehind(h: HeaderBytes)
    ensures Output(h, []) == [] && PaddingRead(h, []) == 0 && LeftOver(h, []) == []
  {}

  lemma LastHeader(h: HeaderBytes)
    ensures (if PaddingRead(h, []) > 8 then Overrun else After(Output(h, []), Deframe(h, LeftOver(h, [])))) == Done([])
  {
    NothingBehind(h);
    AfterNothing(Done([]));
  }

  /** At most a header: whatever it announces, there is nothing behind it. */
  lemma HeaderOnly(h: HeaderBytes, p: seq<byte>)
    requires |p| <= 8
    ensures Deframe(h, p) == Done([])
  {
    if p != [] {
      var h', rest := Refill(h, p), p[Got(p, 8)..];
      assert rest == [];
      DeframeStep(h, p, h', rest);
      LastHeader(h');
    }
  }

  /** Up to 8 bytes more: there is output only if the header says so, and no padding that overruns. */
  lemma HeaderAndMore(h: HeaderBytes, p: seq<byte>)
    requires 8 < |p| <= 16
    ensures Deframe(h, p) == Done([]) <==> !(p[1] == 6 && Word(p[4], p[5]) > 0)
  {
    var h', rest := p[..8], p[8..];
    assert Refill(h, p) == h';
    DeframeStep(h, p, h', rest);
    HeaderOnly(h', LeftOver(h', rest));
  }

  /** Up to 16 bytes of padding do harm only as an output header with content that has bytes behind it. */
  lemma ShortPadding(h: HeaderBytes, p: seq<byte>)
    requires |p| <= 16
    ensures Silent(h, p) <==> !(|p| > 8 && p[1] == 6 && Word(p[4], p[5]) > 0)
  {
    SilentIff(h, p);
    if |p| <= 8 {
      HeaderOnly(h, p);
    } else {
      HeaderAndMore(h, p);
    }
  }

  /** Zero bytes of any number are harmless behind a header that is not output. */
  lemma {:induction false} ZeroPadding(h: HeaderBytes, p: seq<byte>)
    requires !IsOutput(h[1]) && AllZero(p)
    ensures Deframe(h, p) == Done([]) && Silent(h, p)
    decreases |p|
  {
    SilentIff(h, p);
    if p == [] {
    } else {
      var h' := Refill(h, p);
      var rest := p[Got(p, 8)..];
      DeframeStep(h, p, h', rest);
      ZeroPadding(h', LeftOver(h', rest));
    }
  }

  predicate AllZero(p: seq<byte>) {
    forall i | 0 <= i < |p| :: p[i] == 0
  }

  /** A padded END_REQUEST at the end of a response, in terms of its padding bytes alone. */
  lemma PaddedEndExact(h: HeaderBytes, rs: seq<Reply>, end: Reply)
    requires (forall r | r in rs :: Expected(r) && Fits(r)) && Sendable(end) && end.kind == 3
    ensures var p := end.padding;
            && (ReadRight(h, rs + [end]) <==> Silent(ReplyHeader(end), p))
            && (|p| <= 8 ==> ReadRight(h, rs + [end]))
            && (|p| <= 16 ==> (ReadRight(h, rs + [end]) <==> !(|p| > 8 && p[1] == 6 && Word(p[4], p[5]) > 0)))
            && (AllZero(p) ==> ReadRight(h, rs + [end]))
  {
    LastExact(h, rs, end);
    if |end.padding| <= 16 {
      ShortPadding(ReplyHeader(end), end.padding);
    }
    if AllZero(end.padding) {
      ZeroPadding(ReplyHeader(end), end.padding);
    }
  }

  /** Padding that looks like an output record is returned as output, though nothing was printed. */
  lemma PaddingReadAsOutput(h: HeaderBytes, rs: seq<Reply>, end: Reply, out: Reply)
    requires (forall r | r in rs :: Expected(r) && Fits(r))
    requires Sendable(end) && end.kind == 3 && end.padding == ReplyBytes(out)
    requires Sendable(out) && out.kind == 6 && Fits(out)
    ensures Printed(rs + [end]) == Printed(rs)
    ensures Deframe(h, RepliesBytes(rs + [end])) == Done(Printed(rs) + out.content)
  {
    LastRead(h, rs, end);
    DeframeExact(ReplyHeader(end), [out]);
    assert [out][1..] == [];
    assert RepliesBytes([out]) == ReplyBytes(out) + [] == ReplyBytes(out);
    assert Printed([out]) == out.content + [] == out.content;
  }
}
