/**
 What the request parser of http_conn.cpp computes, as functions on the value of its fields.  `data`
 is the filled part of the read buffer, m_readbuf[..m_readidx]; every function rewrites it in place
 as the code does.  The class in HttpConn.dfy is proved to compute these functions.
 */
module HttpParse {
  import opened CString

  const BREAK: set<char> := {'\r', '\n'}

  datatype CheckState = RequestLine | Header | Content
  datatype LineStatus = LineOk | LineBad | LineOpen
  // The HTTP_CODE values that reach process_read before do_request takes over.
  datatype Code = NoRequest | GetRequest | BadRequest
  datatype Method = GET | POST

  datatype Conn = Conn(data: seq<char>, checked: nat, start: nat, state: CheckState,
                       verb: Method, url: Ptr, version: Ptr, host: Ptr, boundary: Ptr,
                       contentLength: int, linger: bool)

  /** The cursors are ordered, and a body starts at the current line. */
  predicate Ordered(s: Conn) {
    s.start <= s.checked <= |s.data| && (s.state == Content ==> s.start == s.checked)
  }

  /** The fields after init(). */
  const FRESH := Conn([], 0, 0, RequestLine, GET, Null, Null, Null, Null, 0, false)

  /** Bytes `q` arrive behind the filled part. */
  function Arrive(s: Conn, q: seq<char>): Conn {
    s.(data := s.data + q)
  }

  /** parse_line on the filled bytes `d` from cursor `i`: the new bytes, the new cursor, the status. */
  function CutLine(d: seq<char>, i: nat): (r: (seq<char>, nat, LineStatus))
    requires i <= |d|
    ensures |r.0| == |d| && i <= r.1 <= |d|
    ensures r.2 == LineOk ==> i < r.1
  {
    var k := Find(d, i, BREAK);
    if k == |d| then (d, k, LineOpen)
    else if d[k] == '\r' then
      if k + 1 == |d| then (d, k, LineOpen)
      else if d[k + 1] == '\n' then (d[k := NUL][k + 1 := NUL], k + 2, LineOk)
      else (d, k, LineBad)
    else if k > 1 && d[k - 1] == '\r' then (d[k - 1 := NUL][k := NUL], k + 1, LineOk)
    else (d, k, LineBad)
  }

  function ParseLine(s: Conn): (r: (Conn, LineStatus))
    requires Ordered(s)
  {
    var (d, k, status) := CutLine(s.data, s.checked);
    (s.(data := d, checked := k), status)
  }

  /** strpbrk(m_url, " \t") on the C string at `i`: the index of the blank, if the string has one. */
  function BlankIn(d: seq<char>, i: nat): (r: Ptr)
    requires i <= |d|
    ensures r.At? ==> i <= r.i < |d|
  {
    var j := Find(d, i, BLANK + {NUL});
    if j < |d| && d[j] != NUL then At(j) else Null
  }

  /** strchr(m_url, '/') on the C string at `i`. */
  function SlashIn(d: seq<char>, i: nat): (r: Ptr)
    requires i <= |d|
    ensures r.At? ==> i <= r.i < |d|
  {
    var j := Find(d, i, {'/', NUL});
    if j < |d| && d[j] != NUL then At(j) else Null
  }

  /** What parse_request_line leaves behind. */
  datatype Cut = Cut(data: seq<char>, verb: Method, url: Ptr, version: Ptr, code: Code)

  /** The last test of parse_request_line, on the target left in `c.url`. */
  function CutTarget(c: Cut): (r: Cut)
    requires c.url.At? && c.url.i <= |c.data|
    ensures r == c.(url := r.url, code := r.code) && r.code != GetRequest
    ensures r.code == NoRequest ==> r.url.At? && r.url.i < |c.data| && c.data[r.url.i] == '/'
  {
    var url := if StartsNoCase(CStr(c.data, c.url.i), "http://") then SlashIn(c.data, c.url.i + 7) else c.url;
    if url.Null? || url.i == |c.data| || c.data[url.i] != '/' then c.(url := url, code := BadRequest)
    else c.(url := url, code := NoRequest)
  }

  /** The middle part: the second blank ends the target and the version must be HTTP/1.1. */
  function CutVersion(c: Cut): (r: Cut)
    requires c.url.At? && c.url.i <= |c.data|
    ensures |r.data| == |c.data| && r.code != GetRequest
  {
    var blank := BlankIn(c.data, c.url.i);
    if blank.Null? then c.(version := Null, code := BadRequest) else
    var c2 := c.(data := c.data[blank.i := NUL], version := At(blank.i + 1));
    if !EqNoCase(CStr(c2.data, c2.version.i), "HTTP/1.1") then c2.(code := BadRequest) else CutTarget(c2)
  }

  /** parse_request_line on the line at `text`; `verb` and `version` are the fields' values before. */
  function CutRequest(d: seq<char>, text: nat, verb: Method, version: Ptr): (r: Cut)
    requires text <= |d|
    ensures |r.data| == |d| && r.code != GetRequest
  {
    var blank := BlankIn(d, text);
    if blank.Null? then Cut(d, verb, Null, version, BadRequest) else
    var c := Cut(d[blank.i := NUL], verb, At(blank.i + 1), version, NoRequest);
    var name := CStr(c.data, text);
    if EqNoCase(name, "GET") then CutVersion(c.(verb := GET))
    else if EqNoCase(name, "POST") then CutVersion(c.(verb := POST))
    else c.(code := BadRequest)
  }

  function ParseRequestLine(s: Conn, text: nat): (r: (Conn, Code))
    requires text <= |s.data|
    ensures |r.0.data| == |s.data| && r.1 != GetRequest
  {
    var c := CutRequest(s.data, text, s.verb, s.version);
    (s.(data := c.data, verb := c.verb, url := c.url, version := c.version,
        state := if c.code == NoRequest then Header else s.state), c.code)
  }

  const FORM_TYPE := "Content-Type: " + "multipart/form-data;"

  /** The header kinds parse_headers tells apart, with the value where it reads one. */
  datatype Field =
    | Blank
    | Linger(value: seq<char>)
    | Length(value: seq<char>)
    | HostName(value: seq<char>)
    | Multipart
    | Other

  function Classify(t: seq<char>): (f: Field)
    ensures f.HostName? ==> |f.value| <= |t| && f.value == t[|t| - |f.value|..]
  {
    if t == [] then Blank
    else if StartsNoCase(t, "Connection:") then Linger(SkipBlank(t[11..]))
    else if StartsNoCase(t, "Content-Length:") then Length(SkipBlank(t[15..]))
    else if StartsNoCase(t, "Host:") then HostName(SkipBlank(t[5..]))
    else if StartsNoCase(t, FORM_TYPE) then Multipart
    else Other
  }

  function ParseHeaders(s: Conn, text: nat): (r: (Conn, Code))
    requires text <= |s.data| && s.state == Header
    ensures r.0.data == s.data && r.0.checked == s.checked && r.0.start == s.start
    ensures r.1 != BadRequest && r.0.state != RequestLine
    ensures r.0.state == Content ==> r.1 == NoRequest
  {
    var t := CStr(s.data, text);
    match Classify(t)
    case Blank => if s.contentLength != 0 then (s.(state := Content), NoRequest) else (s, GetRequest)
    case Linger(v) => (s.(linger := !EqNoCase(v, "close")), NoRequest)
    case Length(v) => (s.(contentLength := Atoi(v)), NoRequest)
    case HostName(v) => (s.(host := At(text + |t| - |v|)), NoRequest)
    case Multipart => (s.(boundary := At(text + 44)), NoRequest)
    case Other => (s, NoRequest)
  }

  /** Writes a NUL when the index lies in the filled part; the bytes behind it are NUL already. */
  function PutNul(d: seq<char>, i: int): (r: seq<char>)
    ensures |r| == |d|
  {
    if 0 <= i < |d| then d[i := NUL] else d
  }

  function ParseContent(s: Conn, text: nat): (r: (Conn, Code))
    requires Ordered(s)
    ensures |r.0.data| == |s.data|
    ensures r.0 == s.(data := r.0.data) && r.1 != BadRequest
  {
    if |s.data| >= s.contentLength + s.checked then
      (s.(data := PutNul(s.data, text + s.contentLength)), GetRequest)
    else
      (s, NoRequest)
  }

  /** One line is complete: the start of the next one is noted and the line is handed to its parser. */
  function Dispatch(s: Conn): (r: (Conn, Code))
    requires Ordered(s) && s.state != Content
    ensures Ordered(r.0) && |r.0.data| == |s.data| && r.0.checked == s.checked
  {
    var next := s.(start := s.checked);
    if s.state == RequestLine then ParseRequestLine(next, s.start) else ParseHeaders(next, s.start)
  }

  /** process_read, up to the point where it calls do_request (GetRequest). */
  function Process(s: Conn): (r: (Conn, Code))
    requires Ordered(s)
    ensures Ordered(r.0) && |r.0.data| == |s.data| && s.checked <= r.0.checked
    decreases |s.data| - s.checked, if s.state == Content then 0 else 1
  {
    if s.state == Content then
      ParseContent(s, s.start)
    else
      var (s1, status) := ParseLine(s);
      if status != LineOk then (s1, NoRequest)
      else
        var (s2, code) := Dispatch(s1);
        if code != NoRequest then (s2, code) else Process(s2)
  }
}
