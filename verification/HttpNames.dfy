/** Strings as the server compares them, and the header and method names it recognises. */
module HttpNames {
  import opened Options

  // ---------------------------------------------------------------- strings

  /** The first position of c in s at or after from, or |s| if there is none. */
  function IndexOf(s: string, c: char, from: nat): (i: nat)
    ensures i <= |s| && (i < |s| ==> from <= i && s[i] == c)
    decreases |s| - from
  {
    if from >= |s| then |s| else if s[from] == c then from else IndexOf(s, c, from + 1)
  }

  lemma {:induction false} IndexOfMeaning(s: string, c: char, from: nat)
    ensures forall j | from <= j < IndexOf(s, c, from) :: s[j] != c
    decreases |s| - from
  {
    if from >= |s| || s[from] == c {
    } else {
      IndexOfMeaning(s, c, from + 1);
    }
  }

  /** The first occurrence is determined by what it is. */
  lemma {:induction false} IndexOfIs(s: string, c: char, from: nat, i: nat)
    requires from <= i <= |s| && (i < |s| ==> s[i] == c) && forall j | from <= j < i :: s[j] != c
    ensures IndexOf(s, c, from) == i
    decreases |s| - from
  {
    if from == i {
    } else {
      IndexOfIs(s, c, from + 1, i);
    }
  }

  /** An occurrence that has been found stays where it is when more text arrives. */
  lemma IndexOfStable(s: string, t: string, c: char, from: nat)
    requires IndexOf(s, c, from) < |s|
    ensures IndexOf(s + t, c, from) == IndexOf(s, c, from)
  {
    IndexOfMeaning(s, c, from);
    IndexOfIs(s + t, c, from, IndexOf(s, c, from));
  }

  /** The part of s that the C string functions see. */
  function CStr(s: string): string {
    s[..IndexOf(s, '\0', 0)]
  }

  lemma CStrWhole(s: string)
    requires '\0' !in s
    ensures CStr(s) == s
  {
    IndexOfMeaning(s, '\0', 0);
  }

  function LowerChar(c: char): char {
    if 'A' <= c <= 'Z' then (c as int + 32) as char else c
  }

  /** The same character, or the two cases of one letter of the alphabet. */
  predicate SameLetter(c: char, d: char) {
    || c == d
    || ('A' <= c <= 'Z' && d as int - 'a' as int == c as int - 'A' as int)
    || ('a' <= c <= 'z' && d as int - 'A' as int == c as int - 'a' as int)
  }

  lemma LowerCharMeaning(c: char, d: char)
    ensures LowerChar(c) == LowerChar(d) <==> SameLetter(c, d)
  {}

  function Lower(s: string): (t: string)
    ensures |t| == |s| && forall i | 0 <= i < |s| :: t[i] == LowerChar(s[i])
  {
    seq(|s|, i requires 0 <= i < |s| => LowerChar(s[i]))
  }

  /** strcasecmp calls two strings equal exactly when they have the same fold. */
  function Fold(s: string): string {
    Lower(CStr(s))
  }

  /** What strcasecmp equates: strings whose characters up to the first NUL are pairwise the same but for case. */
  lemma FoldMeaning(s: string, t: string)
    ensures Fold(s) == Fold(t) <==>
            |CStr(s)| == |CStr(t)| && forall i | 0 <= i < |CStr(s)| :: SameLetter(CStr(s)[i], CStr(t)[i])
  {
    var a, b := CStr(s), CStr(t);
    assert |Lower(a)| == |a| && |Lower(b)| == |b|;
    forall i | 0 <= i < |a| && i < |b| ensures Lower(a)[i] == Lower(b)[i] <==> SameLetter(a[i], b[i]) {
      LowerCharMeaning(a[i], b[i]);
    }
  }

  // ---------------------------------------------------------------- header names

  /** The headers the server knows. */
  datatype Header =
    | Connection | Date | MIME_Version | Trailer | Transfer_Encoding | Update | Via | Cache_Control | Pragma
    | Client_Ip | Host | User_Agent | Accept | Accept_Charset | Accept_Encoding | Accept_Language
    | Authorization | Cookie | Upgrade_Insecure_Requests | Sec_Fetch_User | Sec_Fetch_Site | Sec_Fetch_Mode
    | Purpose | If_Modified_Since | Referer | Origin
    | Age | Public | Server | Title | Set_Cookie | Expires
    | Location | Content_Base | Content_Encoding | Content_Language | Content_Length | Content_Location
    | Content_MD5 | Content_Range | Content_Type | Last_Modified

  function HeaderText(h: Header): string {
    match h
    case Connection => "Connection"
    case Date => "Date"
    case MIME_Version => "MIME-Version"
    case Trailer => "Trailer"
    case Transfer_Encoding => "Transfer-Encoding"
    case Update => "Update"
    case Via => "Via"
    case Cache_Control => "Cache-Control"
    case Pragma => "Pragma"
    case Client_Ip => "Client-Ip"
    case Host => "Host"
    case User_Agent => "User-Agent"
    case Accept => "Accept"
    case Accept_Charset => "Accept-Charset"
    case Accept_Encoding => "Accept-Encoding"
    case Accept_Language => "Accept-Language"
    case Authorization => "Authorization"
    case Cookie => "Cookie"
    case Upgrade_Insecure_Requests => "Upgrade-Insecure-Requests"
    case Sec_Fetch_User => "Sec-Fetch-User"
    case Sec_Fetch_Site => "Sec-Fetch-Site"
    case Sec_Fetch_Mode => "Sec-Fetch-Mode"
    case Purpose => "Purpose"
    case If_Modified_Since => "If-Modified-Since"
    case Referer => "Referer"
    case Origin => "Origin"
    case Age => "Age"
    case Public => "Public"
    case Server => "Server"
    case Title => "Title"
    case Set_Cookie => "Set-Cookie"
    case Expires => "Expires"
    case Location => "Location"
    case Content_Base => "Content-Base"
    case Content_Encoding => "Content-Encoding"
    case Content_Language => "Content-Language"
    case Content_Length => "Content-Length"
    case Content_Location => "Content-Location"
    case Content_MD5 => "Content-MD5"
    case Content_Range => "Content-Range"
    case Content_Type => "Content-Type"
    case Last_Modified => "Last-Modified"
  }

  predicate TokenChar(c: char) {
    'a' <= c <= 'z' || 'A' <= c <= 'Z' || '0' <= c <= '9' || c == '-'
  }

  /** Made of letters, digits and hyphens. */
  predicate Token(s: string) {
    forall c | c in s :: TokenChar(c)
  }

  /** A fingerprint that names equal up to case share: length, first letter, last letter but one. */
  function Code(s: string): int {
    if |s| < 2 then |s| else |s| * 0x1_0000 + LowerChar(s[0]) as int * 0x100 + LowerChar(s[|s| - 2]) as int
  }

  /** The only known header whose name has this fingerprint; it shows that no two names are equal up to case. */
  function Candidate(code: int): Option<Header> {
    match code
    case 0x3_6167 => Some(Age)
    case 0x3_7669 => Some(Via)
    case 0x4_6474 => Some(Date)
    case 0x4_6873 => Some(Host)
    case 0x5_746c => Some(Title)
    case 0x6_6170 => Some(Accept)
    case 0x6_6369 => Some(Cookie)
    case 0x6_6f69 => Some(Origin)
    case 0x6_7069 => Some(Public)
    case 0x6_706d => Some(Pragma)
    case 0x6_7365 => Some(Server)
    case 0x6_7574 => Some(Update)
    case 0x7_6565 => Some(Expires)
    case 0x7_7073 => Some(Purpose)
    case 0x7_7265 => Some(Referer)
    case 0x7_7465 => Some(Trailer)
    case 0x8_6c6f => Some(Location)
    case 0x9_6369 => Some(Client_Ip)
    case 0xa_636f => Some(Connection)
    case 0xa_7369 => Some(Set_Cookie)
    case 0xa_756e => Some(User_Agent)
    case 0xb_6364 => Some(Content_MD5)
    case 0xc_6370 => Some(Content_Type)
    case 0xc_6373 => Some(Content_Base)
    case 0xc_6d6f => Some(MIME_Version)
    case 0xd_616f => Some(Authorization)
    case 0xd_6367 => Some(Content_Range)
    case 0xd_636f => Some(Cache_Control)
    case 0xd_6c65 => Some(Last_Modified)
    case 0xe_6165 => Some(Accept_Charset)
    case 0xe_6374 => Some(Content_Length)
    case 0xe_7364 => Some(Sec_Fetch_Mode)
    case 0xe_7365 => Some(Sec_Fetch_User)
    case 0xe_7374 => Some(Sec_Fetch_Site)
    case 0xf_6167 => Some(Accept_Language)
    case 0xf_616e => Some(Accept_Encoding)
    case 0x10_6367 => Some(Content_Language)
    case 0x10_636e => Some(Content_Encoding)
    case 0x10_636f => Some(Content_Location)
    case 0x11_6963 => Some(If_Modified_Since)
    case 0x11_746e => Some(Transfer_Encoding)
    case 0x19_7574 => Some(Upgrade_Insecure_Requests)
    case _ => None
  }

  // The table is checked in parts, in the order the headers are declared.

  predicate GeneralHeader(h: Header) {
    h.Connection? || h.Date? || h.MIME_Version? || h.Trailer? || h.Transfer_Encoding? || h.Update? || h.Via?
    || h.Cache_Control? || h.Pragma?
  }

  predicate RequestHeader(h: Header) {
    h.Client_Ip? || h.Host? || h.User_Agent? || h.Accept? || h.Accept_Charset? || h.Accept_Encoding?
    || h.Accept_Language? || h.Authorization? || h.Cookie?
  }

  predicate FetchHeader(h: Header) {
    h.Upgrade_Insecure_Requests? || h.Sec_Fetch_User? || h.Sec_Fetch_Site? || h.Sec_Fetch_Mode?
  }

  predicate ContextHeader(h: Header) {
    h.Purpose? || h.If_Modified_Since? || h.Referer? || h.Origin?
  }

  predicate ResponseHeader(h: Header) {
    h.Age? || h.Public? || h.Server? || h.Title? || h.Set_Cookie? || h.Expires?
  }

  predicate EntityHeader(h: Header) {
    !GeneralHeader(h) && !RequestHeader(h) && !FetchHeader(h) && !ContextHeader(h) && !ResponseHeader(h)
  }

  lemma GeneralToken(h: Header)
    ensures GeneralHeader(h) ==> Token(HeaderText(h))
  {}

  lemma RequestToken(h: Header)
    ensures RequestHeader(h) ==> Token(HeaderText(h))
  {}

  lemma FetchToken(h: Header)
    ensures FetchHeader(h) ==> Token(HeaderText(h))
  {}

  lemma ContextToken(h: Header)
    ensures ContextHeader(h) ==> Token(HeaderText(h))
  {}

  lemma ResponseToken(h: Header)
    ensures ResponseHeader(h) ==> Token(HeaderText(h))
  {}

  lemma EntityToken(h: Header)
    ensures EntityHeader(h) ==> Token(HeaderText(h))
  {}

  lemma HeaderToken(h: Header)
    ensures Token(HeaderText(h))
  {
    if GeneralHeader(h) {
      GeneralToken(h);
    } else if RequestHeader(h) {
      RequestToken(h);
    } else if FetchHeader(h) {
      FetchToken(h);
    } else if ContextHeader(h) {
      ContextToken(h);
    } else if ResponseHeader(h) {
      ResponseToken(h);
    } else {
      EntityToken(h);
    }
  }

  lemma GeneralCode(h: Header)
    ensures GeneralHeader(h) ==> Candidate(Code(HeaderText(h))) == Some(h)
  {}

  lemma RequestCode(h: Header)
    ensures RequestHeader(h) ==> Candidate(Code(HeaderText(h))) == Some(h)
  {}

  lemma FetchCode(h: Header)
    ensures FetchHeader(h) ==> Candidate(Code(HeaderText(h))) == Some(h)
  {}

  lemma ContextCode(h: Header)
    ensures ContextHeader(h) ==> Candidate(Code(HeaderText(h))) == Some(h)
  {}

  lemma ResponseCode(h: Header)
    ensures ResponseHeader(h) ==> Candidate(Code(HeaderText(h))) == Some(h)
  {}

  lemma EntityCode(h: Header)
    ensures EntityHeader(h) ==> Candidate(Code(HeaderText(h))) == Some(h)
  {}

  lemma HeaderCode(h: Header)
    ensures Candidate(Code(HeaderText(h))) == Some(h)
  {
    if GeneralHeader(h) {
      GeneralCode(h);
    } else if RequestHeader(h) {
      RequestCode(h);
    } else if FetchHeader(h) {
      FetchCode(h);
    } else if ContextHeader(h) {
      ContextCode(h);
    } else if ResponseHeader(h) {
      ResponseCode(h);
    } else {
      EntityCode(h);
    }
  }

  lemma TokenWhole(s: string)
    requires Token(s)
    ensures CStr(s) == s
  {
    CStrWhole(s);
  }

  lemma CodeFold(s: string, t: string)
    requires Lower(s) == Lower(t)
    ensures Code(s) == Code(t)
  {
    assert |Lower(s)| == |s| && |Lower(t)| == |t|;
    if |s| >= 2 {
      assert Lower(s)[0] == Lower(t)[0] && Lower(s)[|s| - 2] == Lower(t)[|t| - 2];
    }
  }

  /** strcasecmp equates s with the name of h. */
  predicate HasName(h: Header, s: string) {
    Fold(s) == Fold(HeaderText(h))
  }

  lemma NamesDiffer(g: Header, h: Header, s: string)
    requires HasName(g, s) && HasName(h, s)
    ensures g == h
  {
    HeaderToken(g);
    HeaderToken(h);
    TokenWhole(HeaderText(g));
    TokenWhole(HeaderText(h));
    HeaderCode(g);
    HeaderCode(h);
    CodeFold(HeaderText(g), HeaderText(h));
  }

  /** Looks a name up in the map of known headers, ignoring case; None is UNKNOW. */
  function LookupHeader(s: string): Option<Header> {
    if exists h :: HasName(h, s) then
      OneName(s);
      var h :| HasName(h, s);
      Some(h)
    else None
  }

  lemma OneName(s: string)
    ensures forall g, h | HasName(g, s) && HasName(h, s) :: g == h
  {
    forall g, h | HasName(g, s) && HasName(h, s)
      ensures g == h
    {
      NamesDiffer(g, h, s);
    }
  }

  /** The lookup finds a header exactly when the name is that header's name up to case, as far as a C string goes. */
  lemma LookupMeaning(s: string, h: Header)
    ensures LookupHeader(s) == Some(h) <==> HasName(h, s)
  {
    OneName(s);
  }

  /** ConvertStringToHeader undoes ConvertHeaderToString. */
  lemma HeaderRoundTrip(h: Header)
    ensures LookupHeader(HeaderText(h)) == Some(h)
  {
    LookupMeaning(HeaderText(h), h);
  }

  /** The name under which the kind of a body is asked for. */
  lemma ContentTypeKnown()
    ensures LookupHeader("Content-Type") == Some(Content_Type)
  {
    HeaderRoundTrip(Content_Type);
  }

  // ---------------------------------------------------------------- method names

  datatype Method = GET | HEAD | POST | PUT | TRACE | OPTIONS | DELETE

  function MethodText(m: Method): string {
    match m
    case GET => "GET"
    case HEAD => "HEAD"
    case POST => "POST"
    case PUT => "PUT"
    case TRACE => "TRACE"
    case OPTIONS => "OPTIONS"
    case DELETE => "DELETE"
  }

  /** Looks a name up in the table of methods, ignoring case; None is UNKNOW. */
  function LookupMethod(s: string): Option<Method> {
    if Fold(s) == Fold("GET") then Some(GET)
    else if Fold(s) == Fold("POST") then Some(POST)
    else if Fold(s) == Fold("HEAD") then Some(HEAD)
    else if Fold(s) == Fold("PUT") then Some(PUT)
    else if Fold(s) == Fold("TRACE") then Some(TRACE)
    else if Fold(s) == Fold("OPTIONS") then Some(OPTIONS)
    else if Fold(s) == Fold("DELETE") then Some(DELETE)
    else None
  }

  lemma MethodToken(m: Method)
    ensures Token(MethodText(m))
  {}

  /** Length and first two letters tell the method names apart. */
  lemma MethodsDiffer(m: Method, n: Method)
    requires Fold(MethodText(m)) == Fold(MethodText(n))
    ensures m == n
  {
    MethodToken(m);
    MethodToken(n);
    TokenWhole(MethodText(m));
    TokenWhole(MethodText(n));
    var s, t := MethodText(m), MethodText(n);
    assert |Lower(s)| == |s| && |Lower(t)| == |t|;
    assert Lower(s)[0] == LowerChar(s[0]) && Lower(t)[0] == LowerChar(t[0]);
    assert Lower(s)[1] == LowerChar(s[1]) && Lower(t)[1] == LowerChar(t[1]);
  }

  /** The lookup finds a method exactly when the name is that method's name up to case, as far as a C string goes. */
  lemma MethodMeaning(s: string, m: Method)
    ensures LookupMethod(s) == Some(m) <==> Fold(s) == Fold(MethodText(m))
  {
    var o := LookupMethod(s);
    if o.Some? {
      assert Fold(s) == Fold(MethodText(o.value));
      if Fold(s) == Fold(MethodText(m)) {
        MethodsDiffer(m, o.value);
      }
    }
  }

  /** ConvertStringToMethod undoes ConvertMethodToString. */
  lemma MethodRoundTrip(m: Method)
    ensures LookupMethod(MethodText(m)) == Some(m)
  {
    MethodMeaning(MethodText(m), m);
  }
}
