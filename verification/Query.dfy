/** Percent decoding, and the parameters of a query string or of a submitted form. */
module Query {
  import opened Options
  import opened HttpNames

  // ---------------------------------------------------------------- percent decoding

  /** The value of a hexadecimal digit; a character missing from the table counts as 0. */
  function HexValue(c: char): (n: nat)
    ensures n < 16
  {
    if '1' <= c <= '9' then c as int - '0' as int
    else if 'a' <= c <= 'f' then c as int - 'a' as int + 10
    else if 'A' <= c <= 'F' then c as int - 'A' as int + 10
    else 0
  }

  predicate IsHex(c: char) {
    '0' <= c <= '9' || 'a' <= c <= 'f' || 'A' <= c <= 'F'
  }

  function HexPair(a: char, b: char): char {
    (HexValue(a) * 16 + HexValue(b)) as char
  }

  function Prepend(s: string, o: Option<string>): Option<string> {
    if o.Some? then Some(s + o.value) else None
  }

  /** Every escape replaced by its character; None if an escape is cut short. */
  function Unescape(s: string): Option<string> {
    if s == "" then Some("")
    else if s[0] != '%' then Prepend([s[0]], Unescape(s[1..]))
    else if |s| < 3 then None
    else Prepend([HexPair(s[1], s[2])], Unescape(s[3..]))
  }

  /** What a caller of the decoder gets: the result is passed on as a C string, and a cut escape throws. */
  function Decoded(s: string): Option<string> {
    var o := Unescape(s);
    if o.Some? then Some(CStr(o.value)) else None
  }

  lemma UnescapeStep(s: string, i: nat, res: string)
    requires i < |s|
    ensures s[i] != '%' ==> Prepend(res, Unescape(s[i..])) == Prepend(res + [s[i]], Unescape(s[i + 1..]))
    ensures s[i] == '%' && i + 2 < |s| ==>
      Prepend(res, Unescape(s[i..])) == Prepend(res + [HexPair(s[i + 1], s[i + 2])], Unescape(s[i + 3..]))
  {
    var t := s[i..];
    assert t[1..] == s[i + 1..];
    if s[i] != '%' {
      AssocOption(res, [s[i]], Unescape(s[i + 1..]));
    } else if i + 2 < |s| {
      assert t[3..] == s[i + 3..];
      AssocOption(res, [HexPair(s[i + 1], s[i + 2])], Unescape(s[i + 3..]));
    }
  }

  lemma AssocOption(a: string, b: string, o: Option<string>)
    ensures Prepend(a, Prepend(b, o)) == Prepend(a + b, o)
  {
    if o.Some? {
      assert a + (b + o.value) == (a + b) + o.value;
    }
  }

  lemma PrependNothing(s: string)
    ensures Prepend("", Unescape(s[0..])) == Unescape(s)
  {
    assert s[0..] == s;
    if Unescape(s).Some? {
      assert "" + Unescape(s).value == Unescape(s).value;
    }
  }

  method URLDecode(s: string) returns (r: Option<string>)
    ensures r == Decoded(s)
  {
    var res := "";
    var i := 0;
    PrependNothing(s);
    while i < |s|
      invariant i <= |s|
      invariant Unescape(s) == Prepend(res, Unescape(s[i..]))
    {
      UnescapeStep(s, i, res);
      if s[i] != '%' {
        res := res + [s[i]];
        i := i + 1;
      } else if i + 2 >= |s| {
        return None;
      } else {
        res := res + [HexPair(s[i + 1], s[i + 2])];
        i := i + 3;
      }
    }
    assert res + "" == res;
    r := Some(CStr(res));
  }

  function LowerDigit(n: nat): char
    requires n < 16
  {
    (n + if n < 10 then '0' as int else 'a' as int - 10) as char
  }

  function UpperDigit(n: nat): char
    requires n < 16
  {
    (n + if n < 10 then '0' as int else 'A' as int - 10) as char
  }

  /** c is a digit for n, by section 2.1 of RFC 3986: in either case. */
  predicate WritesDigit(c: char, n: nat) {
    n < 16 && (c == LowerDigit(n) || c == UpperDigit(n))
  }

  /** The table of digit values agrees with the digits. */
  lemma DigitValue(c: char, n: nat)
    ensures WritesDigit(c, n) ==> IsHex(c) && HexValue(c) == n
    ensures IsHex(c) ==> WritesDigit(c, HexValue(c))
  {}

  /** e writes s, each character either as itself or as an escape; '%' and the reserved characters must be escaped. */
  predicate Encodes(e: string, s: string, reserved: set<char>)
    decreases |s|
  {
    if s == "" then e == ""
    else
      || (|e| >= 1 && e[0] == s[0] && e[0] != '%' && e[0] !in reserved && Encodes(e[1..], s[1..], reserved))
      || (|e| >= 3 && e[0] == '%' && WritesDigit(e[1], s[0] as int / 16) && WritesDigit(e[2], s[0] as int % 16)
          && Encodes(e[3..], s[1..], reserved))
  }

  /** Unescaping undoes every encoding, whichever characters were escaped and in whichever case. */
  lemma {:induction false} UnescapeEncoded(e: string, s: string, reserved: set<char>)
    requires Encodes(e, s, reserved)
    ensures Unescape(e) == Some(s)
    decreases |s|
  {
    if s == "" {
    } else {
      assert s == [s[0]] + s[1..];
      if e[0] != '%' {
        UnescapeEncoded(e[1..], s[1..], reserved);
      } else {
        DigitValue(e[1], s[0] as int / 16);
        DigitValue(e[2], s[0] as int % 16);
        UnescapeEncoded(e[3..], s[1..], reserved);
      }
    }
  }

  /** The decoder recovers the text of every encoding up to its first NUL, so the whole of it iff it has none. */
  lemma DecodeEncoded(e: string, s: string, reserved: set<char>)
    requires Encodes(e, s, reserved)
    ensures Decoded(e) == Some(CStr(s))
    ensures Decoded(e) == Some(s) <==> '\0' !in s
  {
    UnescapeEncoded(e, s, reserved);
    IndexOfMeaning(s, '\0', 0);
    if '\0' !in s {
      CStrWhole(s);
    }
  }

  /** Characters that can be reserved: none of those an escape is made of. */
  predicate Reservable(reserved: set<char>) {
    forall c | c in reserved :: c != '%' && !IsHex(c)
  }

  /** An encoding is free of what it reserves. */
  lemma {:induction false} EncodedAvoids(e: string, s: string, reserved: set<char>, c: char)
    requires Encodes(e, s, reserved) && Reservable(reserved) && c in reserved
    ensures c !in e
    decreases |s|
  {
    if s == "" {
    } else {
      if e[0] != '%' {
        EncodedAvoids(e[1..], s[1..], reserved, c);
        assert e == [e[0]] + e[1..];
      } else {
        DigitValue(e[1], s[0] as int / 16);
        DigitValue(e[2], s[0] as int % 16);
        EncodedAvoids(e[3..], s[1..], reserved, c);
        assert e == [e[0], e[1], e[2]] + e[3..];
      }
    }
  }

  predicate Bytes(s: string) {
    forall i | 0 <= i < |s| :: s[i] as int < 256
  }

  /** Every byte string has an encoding, whatever is reserved: the one that escapes every byte. */
  function Escaped(s: string): string
    requires Bytes(s)
  {
    if s == "" then ""
    else ['%', UpperDigit(s[0] as int / 16), UpperDigit(s[0] as int % 16)] + Escaped(s[1..])
  }

  lemma {:induction false} EscapedEncodes(s: string, reserved: set<char>)
    requires Bytes(s)
    ensures Encodes(Escaped(s), s, reserved)
    decreases |s|
  {
    if s == "" {
    } else {
      EscapedEncodes(s[1..], reserved);
      assert Escaped(s)[3..] == Escaped(s[1..]);
    }
  }

  /** Every '%' is followed by two hexadecimal digits. */
  predicate WellFormed(e: string) {
    forall i | 0 <= i < |e| && e[i] == '%' :: i + 2 < |e| && IsHex(e[i + 1]) && IsHex(e[i + 2])
  }

  /** Conversely, well-formed text is always decoded, and it is an encoding of what it is decoded to. */
  lemma {:induction false} WellFormedDecodes(e: string)
    requires WellFormed(e)
    ensures Unescape(e).Some? && Encodes(e, Unescape(e).value, {})
  {
    if e == "" {
    } else {
      var k := if e[0] != '%' then 1 else 3;
      WellFormedRest(e, k);
      WellFormedDecodes(e[k..]);
      var rest := Unescape(e[k..]).value;
      if e[0] != '%' {
        assert ([e[0]] + rest)[1..] == rest;
      } else {
        EscapeRead(e[1], e[2]);
        assert ([HexPair(e[1], e[2])] + rest)[1..] == rest;
      }
    }
  }

  lemma WellFormedRest(e: string, k: nat)
    requires WellFormed(e) && k <= |e|
    ensures WellFormed(e[k..])
  {
    forall i | 0 <= i < |e[k..]| && e[k..][i] == '%'
      ensures i + 2 < |e[k..]| && IsHex(e[k..][i + 1]) && IsHex(e[k..][i + 2])
    {
      assert e[k + i] == '%';
    }
  }

  lemma EscapeRead(a: char, b: char)
    requires IsHex(a) && IsHex(b)
    ensures var c := HexPair(a, b); WritesDigit(a, c as int / 16) && WritesDigit(b, c as int % 16)
  {
    DigitValue(a, 0);
    DigitValue(b, 0);
  }

  // ---------------------------------------------------------------- parameters

  /** How reading a line or a body ends: it is taken, refused with an error page, or an exception leaves the parser. */
  datatype Verdict = Good | BadRequest | Throws

  datatype ParamsResult = ParamsResult(params: map<string, string>, verdict: Verdict)

  datatype Pair = Pair(key: string, val: string)

  /** Parameter maps compare keys with strcasecmp, so a map is keyed by the fold of the name. */
  function SetParam(params: map<string, string>, key: string, val: string): map<string, string> {
    params[Fold(key) := val]
  }

  /** The text between the '&' signs. */
  function Pieces(s: string): (ps: seq<string>)
    ensures |ps| >= 1
    decreases |s|
  {
    var k := IndexOf(s, '&', 0);
    if k == |s| then [s] else [s[..k]] + Pieces(s[k + 1..])
  }

  /** One piece: decoded on both sides of its first '='. */
  function AddPiece(params: map<string, string>, piece: string): ParamsResult {
    var eq := IndexOf(piece, '=', 0);
    if eq == |piece| then ParamsResult(params, BadRequest) else
    var key, val := Decoded(piece[..eq]), Decoded(piece[eq + 1..]);
    if key.None? || val.None? then ParamsResult(params, Throws)
    else ParamsResult(SetParam(params, key.value, val.value), Good)
  }

  /** All pieces in order, up to the first that is not accepted. */
  function AddPieces(params: map<string, string>, pieces: seq<string>): ParamsResult
    decreases |pieces|
  {
    if pieces == [] then ParamsResult(params, Good) else
    var r := AddPiece(params, pieces[0]);
    if r.verdict == Good then AddPieces(r.params, pieces[1..]) else r
  }

  /** What a piece is worth, whatever the parameters so far: it needs a '=' and no escape cut short on either side. */
  function PieceVerdict(piece: string): Verdict {
    var eq := IndexOf(piece, '=', 0);
    if '=' !in piece then BadRequest
    else if eq < |piece| && Decoded(piece[..eq]).Some? && Decoded(piece[eq + 1..]).Some? then Good
    else Throws
  }

  /** The verdict on the first piece that is not good. */
  function PiecesVerdict(pieces: seq<string>): Verdict {
    if pieces == [] then Good
    else if PieceVerdict(pieces[0]) != Good then PieceVerdict(pieces[0])
    else PiecesVerdict(pieces[1..])
  }

  lemma AddPieceVerdict(params: map<string, string>, piece: string)
    ensures AddPiece(params, piece).verdict == PieceVerdict(piece)
  {
    IndexOfMeaning(piece, '=', 0);
  }

  lemma {:induction false} AddPiecesVerdict(params: map<string, string>, pieces: seq<string>)
    ensures AddPieces(params, pieces).verdict == PiecesVerdict(pieces)
    decreases |pieces|
  {
    if pieces == [] {
    } else {
      AddPieceVerdict(params, pieces[0]);
      AddPiecesVerdict(AddPiece(params, pieces[0]).params, pieces[1..]);
    }
  }

  lemma IndexOfSuffix(s: string, c: char, p: nat)
    requires p <= |s|
    ensures IndexOf(s, c, p) == p + IndexOf(s[p..], c, 0)
  {
    var t := s[p..];
    IndexOfMeaning(t, c, 0);
    var k := IndexOf(t, c, 0);
    forall j | p <= j < p + k
      ensures s[j] != c
    {
      assert t[j - p] == s[j];
    }
    IndexOfIs(s, c, p, p + k);
  }

  lemma SliceOf(s: string, p: nat, k: nat)
    requires p <= k < |s|
    ensures s[p..][..k - p] == s[p..k] && s[p..][k - p + 1..] == s[k + 1..]
  {}

  lemma PiecesStep(s: string, p: nat)
    requires p <= |s|
    ensures var k := IndexOf(s, '&', p);
            && p <= k
            && (k == |s| ==> Pieces(s[p..]) == [s[p..]])
            && (k < |s| ==> Pieces(s[p..]) == [s[p..k]] + Pieces(s[k + 1..]))
  {
    IndexOfSuffix(s, '&', p);
    var k, t := IndexOf(s, '&', p), s[p..];
    assert IndexOf(t, '&', 0) == k - p;
    if k < |s| {
      SliceOf(s, p, k);
    }
  }

  lemma AddCons(params: map<string, string>, piece: string, rest: seq<string>)
    ensures var r := AddPiece(params, piece);
            AddPieces(params, [piece] + rest) == if r.verdict == Good then AddPieces(r.params, rest) else r
  {
    assert ([piece] + rest)[0] == piece && ([piece] + rest)[1..] == rest;
  }

  lemma AddOne(params: map<string, string>, piece: string)
    ensures AddPieces(params, [piece]) == AddPiece(params, piece)
  {
    AddCons(params, piece, []);
    assert [piece] + [] == [piece];
  }

  /** One turn of the splitting loop, from position p. */
  lemma ParamsStep(params: map<string, string>, s: string, p: nat)
    requires p <= |s|
    ensures var k := IndexOf(s, '&', p);
            && p <= k
            && (k == |s| ==> AddPieces(params, Pieces(s[p..])) == AddPiece(params, s[p..]))
            && (k < |s| ==>
                var r := AddPiece(params, s[p..k]);
                AddPieces(params, Pieces(s[p..]))
                == if r.verdict == Good then AddPieces(r.params, Pieces(s[k + 1..])) else r)
  {
    PiecesStep(s, p);
    var k := IndexOf(s, '&', p);
    if k < |s| {
      AddCons(params, s[p..k], Pieces(s[k + 1..]));
    } else {
      AddOne(params, s[p..]);
    }
  }

  method AddParam(params: map<string, string>, piece: string) returns (r: ParamsResult)
    ensures r == AddPiece(params, piece)
  {
    var eq := IndexOf(piece, '=', 0);
    if eq == |piece| {
      return ParamsResult(params, BadRequest);
    }
    var key := URLDecode(piece[..eq]);
    var val := URLDecode(piece[eq + 1..]);
    if key.None? || val.None? {
      return ParamsResult(params, Throws);
    }
    r := ParamsResult(SetParam(params, key.value, val.value), Good);
  }

  /** The splitting loop of the request line and of a posted form. */
  method ParseParams(params: map<string, string>, s: string) returns (r: ParamsResult)
    ensures r == AddPieces(params, Pieces(s))
  {
    r := ParamsResult(params, Good);
    var start := 0;
    var split := IndexOf(s, '&', 0);
    assert s[0..] == s;
    while split < |s|
      invariant start <= |s| && split == IndexOf(s, '&', start)
      invariant r.verdict == Good
      invariant AddPieces(params, Pieces(s)) == AddPieces(r.params, Pieces(s[start..]))
      decreases |s| - start
    {
      ParamsStep(r.params, s, start);
      r := AddParam(r.params, s[start..split]);
      if r.verdict != Good {
        return;
      }
      start := split + 1;
      split := IndexOf(s, '&', start);
    }
    ParamsStep(r.params, s, start);
    r := AddParam(r.params, s[start..]);
  }

  // ---------------------------------------------------------------- round trip

  function JoinPieces(pieces: seq<string>): string
    requires |pieces| >= 1
  {
    if |pieces| == 1 then pieces[0] else pieces[0] + "&" + JoinPieces(pieces[1..])
  }

  lemma PiecesCons(first: string, rest: string)
    requires '&' !in first
    ensures Pieces(first + "&" + rest) == [first] + Pieces(rest)
  {
    var s, k := first + "&" + rest, |first|;
    assert forall j | 0 <= j < k :: s[j] == first[j];
    IndexOfIs(s, '&', 0, k);
    assert s[..k] == first && s[k + 1..] == rest;
  }

  lemma PiecesOne(s: string)
    requires '&' !in s
    ensures Pieces(s) == [s]
  {
    IndexOfIs(s, '&', 0, |s|);
  }

  /** Splitting undoes joining. */
  lemma {:induction false} PiecesJoined(pieces: seq<string>)
    requires |pieces| >= 1 && forall p | p in pieces :: '&' !in p
    ensures Pieces(JoinPieces(pieces)) == pieces
  {
    assert pieces[0] in pieces;
    if |pieces| > 1 {
      PiecesJoined(pieces[1..]);
      PiecesCons(pieces[0], JoinPieces(pieces[1..]));
    } else {
      PiecesOne(pieces[0]);
    }
  }

  /** Joining undoes splitting: no byte of a query is lost or moved. */
  lemma {:induction false} JoinedPieces(s: string)
    ensures JoinPieces(Pieces(s)) == s
    decreases |s|
  {
    IndexOfMeaning(s, '&', 0);
    var k := IndexOf(s, '&', 0);
    if k == |s| {
    } else {
      JoinedPieces(s[k + 1..]);
      assert Pieces(s)[1..] == Pieces(s[k + 1..]);
      assert s == s[..k] + "&" + s[k + 1..];
    }
  }

  /** A pair written out: the key keeps '=' and '&' for the splitting, the value only '&'. */
  predicate EncodesPair(e: Pair, p: Pair, reserved: set<char>) {
    Encodes(e.key, p.key, reserved + {'&', '='}) && Encodes(e.val, p.val, reserved + {'&'})
  }

  predicate EncodesPairs(es: seq<Pair>, ps: seq<Pair>, reserved: set<char>) {
    |es| == |ps| && forall i | 0 <= i < |es| :: EncodesPair(es[i], ps[i], reserved)
  }

  function PairText(e: Pair): string {
    e.key + "=" + e.val
  }

  function PairTexts(es: seq<Pair>): (ts: seq<string>)
    ensures |ts| == |es| && forall i | 0 <= i < |es| :: ts[i] == PairText(es[i])
  {
    seq(|es|, i requires 0 <= i < |es| => PairText(es[i]))
  }

  function QueryText(es: seq<Pair>): string
    requires |es| >= 1
  {
    JoinPieces(PairTexts(es))
  }

  function Cut(p: Pair): Pair {
    Pair(CStr(p.key), CStr(p.val))
  }

  /** The map that a list of pairs stands for: a later pair replaces an earlier one of the same name. */
  function LastWins(params: map<string, string>, ps: seq<Pair>): map<string, string>
    decreases |ps|
  {
    if ps == [] then params else LastWins(SetParam(params, ps[0].key, ps[0].val), ps[1..])
  }

  predicate Named(p: Pair, name: string) {
    Fold(p.key) == name
  }

  predicate Unnamed(ps: seq<Pair>, name: string) {
    forall i | 0 <= i < |ps| :: !Named(ps[i], name)
  }

  predicate LastNamed(ps: seq<Pair>, i: nat, name: string) {
    i < |ps| && Named(ps[i], name) && Unnamed(ps[i + 1..], name)
  }

  lemma {:induction false} LastWinsUnnamed(params: map<string, string>, ps: seq<Pair>, name: string)
    requires Unnamed(ps, name)
    ensures name in LastWins(params, ps) <==> name in params
    ensures name in params ==> LastWins(params, ps)[name] == params[name]
    decreases |ps|
  {
    if ps == [] {
    } else {
      assert !Named(ps[0], name);
      LastWinsUnnamed(SetParam(params, ps[0].key, ps[0].val), ps[1..], name);
    }
  }

  lemma {:induction false} LastWinsNamed(params: map<string, string>, ps: seq<Pair>, i: nat, name: string)
    requires LastNamed(ps, i, name)
    ensures name in LastWins(params, ps) && LastWins(params, ps)[name] == ps[i].val
    decreases |ps|
  {
    var first := SetParam(params, ps[0].key, ps[0].val);
    if i == 0 {
      LastWinsUnnamed(first, ps[1..], name);
    } else {
      assert ps[1..][i..] == ps[i + 1..];
      LastWinsNamed(first, ps[1..], i - 1, name);
    }
  }

  lemma {:induction false} SomeLastNamed(ps: seq<Pair>, name: string) returns (i: nat)
    requires !Unnamed(ps, name)
    ensures LastNamed(ps, i, name)
    decreases |ps|
  {
    if Unnamed(ps[1..], name) {
      i := 0;
      assert forall j | 1 <= j < |ps| :: ps[j] == ps[1..][j - 1];
    } else {
      var j := SomeLastNamed(ps[1..], name);
      assert ps[1..][j + 1..] == ps[j + 2..];
      i := j + 1;
    }
  }

  /** Last wins, said of the result: a name has its value from the last pair so named, or from before. */
  lemma LastWinsMeaning(params: map<string, string>, ps: seq<Pair>, name: string)
    ensures forall i: nat | LastNamed(ps, i, name) ::
              name in LastWins(params, ps) && LastWins(params, ps)[name] == ps[i].val
    ensures Unnamed(ps, name) <==> !exists i: nat :: LastNamed(ps, i, name)
    ensures Unnamed(ps, name) ==> (name in LastWins(params, ps) <==> name in params)
    ensures Unnamed(ps, name) && name in params ==> LastWins(params, ps)[name] == params[name]
  {
    forall i: nat | LastNamed(ps, i, name)
      ensures name in LastWins(params, ps) && LastWins(params, ps)[name] == ps[i].val
    {
      LastWinsNamed(params, ps, i, name);
    }
    if Unnamed(ps, name) {
      LastWinsUnnamed(params, ps, name);
    } else {
      var i := SomeLastNamed(ps, name);
    }
  }

  lemma PairAdded(params: map<string, string>, e: Pair, p: Pair, reserved: set<char>)
    requires EncodesPair(e, p, reserved) && Reservable(reserved)
    ensures '&' !in PairText(e)
    ensures AddPiece(params, PairText(e)) == ParamsResult(SetParam(params, CStr(p.key), CStr(p.val)), Good)
  {
    var s, k := PairText(e), |e.key|;
    EncodedAvoids(e.key, p.key, reserved + {'&', '='}, '=');
    EncodedAvoids(e.key, p.key, reserved + {'&', '='}, '&');
    EncodedAvoids(e.val, p.val, reserved + {'&'}, '&');
    assert s[..k] == e.key && s[k] == '=' && s[k + 1..] == e.val;
    assert forall j | 0 <= j < k :: s[j] == e.key[j];
    IndexOfIs(s, '=', 0, k);
    DecodeEncoded(e.key, p.key, reserved + {'&', '='});
    DecodeEncoded(e.val, p.val, reserved + {'&'});
  }

  function CutAll(ps: seq<Pair>): (cs: seq<Pair>)
    ensures |cs| == |ps| && forall i | 0 <= i < |ps| :: cs[i] == Cut(ps[i])
  {
    seq(|ps|, i requires 0 <= i < |ps| => Cut(ps[i]))
  }

  lemma {:induction false} PairsAdded(params: map<string, string>, es: seq<Pair>, ps: seq<Pair>, reserved: set<char>)
    requires EncodesPairs(es, ps, reserved) && Reservable(reserved)
    ensures AddPieces(params, PairTexts(es)) == ParamsResult(LastWins(params, CutAll(ps)), Good)
    decreases |es|
  {
    if es == [] {
    } else {
      PairAdded(params, es[0], ps[0], reserved);
      PairsAdded(SetParam(params, CStr(ps[0].key), CStr(ps[0].val)), es[1..], ps[1..], reserved);
      assert PairTexts(es)[1..] == PairTexts(es[1..]);
      assert CutAll(ps)[1..] == CutAll(ps[1..]);
    }
  }

  predicate NulFree(p: Pair) {
    '\0' !in p.key && '\0' !in p.val
  }

  /** However the pairs are encoded, the query string gives the last-wins map of the pairs as C strings. */
  lemma QueryDecodes(params: map<string, string>, es: seq<Pair>, ps: seq<Pair>, reserved: set<char>)
    requires |es| >= 1 && EncodesPairs(es, ps, reserved) && Reservable(reserved)
    ensures AddPieces(params, Pieces(QueryText(es))) == ParamsResult(LastWins(params, CutAll(ps)), Good)
  {
    forall t | t in PairTexts(es)
      ensures '&' !in t
    {
      var i :| 0 <= i < |es| && t == PairText(es[i]);
      PairAdded(params, es[i], ps[i], reserved);
    }
    PiecesJoined(PairTexts(es));
    PairsAdded(params, es, ps, reserved);
  }

  /** Query round trip: NUL-free pairs come back whole, even when they hold '&', '=' or '%'. */
  lemma QueryRoundTrip(params: map<string, string>, es: seq<Pair>, ps: seq<Pair>, reserved: set<char>)
    requires |es| >= 1 && EncodesPairs(es, ps, reserved) && Reservable(reserved)
    requires forall p | p in ps :: NulFree(p)
    ensures AddPieces(params, Pieces(QueryText(es))) == ParamsResult(LastWins(params, ps), Good)
  {
    QueryDecodes(params, es, ps, reserved);
    forall i | 0 <= i < |ps|
      ensures CutAll(ps)[i] == ps[i]
    {
      assert NulFree(ps[i]);
      CStrWhole(ps[i].key);
      CStrWhole(ps[i].val);
    }
    assert CutAll(ps) == ps;
  }
}
